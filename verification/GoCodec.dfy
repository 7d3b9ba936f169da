/** The typed fields of the Go client's wire format as functions on bytes
    (clients/go/torrentmq/protocol.go): what each write appends and what each
    read makes of a buffer. */
module GoCodec {
  import opened Wrappers
  import opened Bits
  import opened WireBytes
  import Endian

  /** Outcomes of a read: a value and the next position, the error that
      `check` returns, or a slice out of range. */
  datatype Result<+T> = Ok(value: T, next: nat) | Underflow | Panic

  /** `size` is 1, 2, 4 or 8 bytes for integers; 2 for nullable strings and 4
      for nullable bytes. */
  datatype Kind = IntKind(size: nat) | BoolKind | UnsignedKind | SignedKind
                | NullableKind(size: nat) | PlainKind | CompactKind

  datatype Field =
    | Int(size: nat, i: int)
    | Bool(b: bool)
    | Unsigned(u: nat)
    | Signed(v: int)
    | Nullable(size: nat, payload: Option<Bytes>)
    | Plain(text: Bytes)
    | Compact(payload: Option<Bytes>)
  {
    function Kind(): Kind {
      match this
      case Int(size, _) => IntKind(size)
      case Bool(_) => BoolKind
      case Unsigned(_) => UnsignedKind
      case Signed(_) => SignedKind
      case Nullable(size, _) => NullableKind(size)
      case Plain(_) => PlainKind
      case Compact(_) => CompactKind
    }

    /** The value fits the Go type of its parameter. */
    predicate WellTyped() {
      match this
      case Int(size, i) => size in {1, 2, 4, 8} && Fits(i, Range(size))
      case Unsigned(u) => u < WORD_MODULUS
      case Signed(v) => Fits(v, WORD_MODULUS)
      case Nullable(size, _) => size in {2, 4}
      case _ => true
    }

    /** The length fits its prefix, which the writer does not check. */
    predicate InLimits() {
      match this
      case Nullable(size, Some(b)) => |b| < Range(size) / 2
      case Plain(text) => |text| < Range(2) / 2
      case _ => true
    }
  }

  // ---------------------------------------------------------------------
  // Writing
  // ---------------------------------------------------------------------

  function IntBytes(size: nat, i: int): (b: Bytes)
    ensures |b| == size
  {
    BigEndian(ToUnsigned(i, RangePos(size)), size)
  }

  function RangePos(size: nat): (r: nat)
    ensures r == Range(size) > 0
  {
    RangeIsPositive(size);
    Range(size)
  }

  lemma {:induction false} RangeIsPositive(size: nat)
    ensures Range(size) > 0 && (size > 0 ==> Range(size) % 2 == 0)
  {
    if size > 0 {
      RangeIsPositive(size - 1);
      EvenMultiple(Range(size - 1), Range(size));
    }
  }

  lemma EvenMultiple(r: nat, m: nat)
    requires m == 256 * r
    ensures m % 2 == 0
  {
    DivModUnique(m, 2, 128 * r, 0);
  }

  lemma WordValue()
    ensures Pow2(64) == WORD_MODULUS
  {
    var w := WordBits();
  }

  /** ZigZag on a 64-bit word. */
  function ZigZag(v: int): (u: nat)
    requires Fits(v, WORD_MODULUS)
    ensures u < WORD_MODULUS && UnZigZag(u) == v
  {
    WordValue();
    Endian.ZigZagDecodesEncoded(64, v);
    Endian.ZigZagEncode(64, v)
  }

  function UnZigZag(u: nat): int
    requires u < WORD_MODULUS
  {
    WordValue();
    Endian.ZigZagDecode(64, u)
  }

  function FieldBytes(f: Field): Bytes
    requires f.WellTyped()
  {
    match f
    case Int(size, i) => IntBytes(size, i)
    case Bool(b) => IntBytes(1, if b then 1 else 0)
    case Unsigned(u) => Leb(u)
    case Signed(v) => Leb(ZigZag(v))
    case Nullable(size, None) => IntBytes(size, -1)
    case Nullable(size, Some(b)) => IntBytes(size, |b|) + b
    case Plain(text) => IntBytes(2, |text|) + text
    case Compact(None) => Leb(0)
    case Compact(Some(b)) => Leb(|b| + 1) + b
  }

  function AllBytes(fs: seq<Field>): Bytes
    requires forall f :: f in fs ==> f.WellTyped()
  {
    if fs == [] then [] else FieldBytes(fs[0]) + AllBytes(fs[1..])
  }

  // ---------------------------------------------------------------------
  // Reading
  // ---------------------------------------------------------------------

  function ReadInt(d: Bytes, pos: nat, size: nat): Result<int> {
    if pos + size > |d| then Underflow
    else
      FromBigEndianBelow(d[pos..pos + size]);
      Ok(ToSigned(FromBigEndian(d[pos..pos + size]), Range(size)), pos + size)
  }

  /** readUnsignedVarint has no length limit: a shift of 64 or more adds nothing. */
  function VarintFrom(d: Bytes, pos: nat, read: nat, value: nat): Result<nat>
    decreases |d| - (pos + read)
  {
    if pos + read >= |d| then Underflow
    else
      var b := d[pos + read];
      var value' := Or(value, b % 0x80 * Pow2(7 * read) % WORD_MODULUS);
      if b < 0x80 then Ok(value', pos + read + 1) else VarintFrom(d, pos, read + 1, value')
  }

  function ReadUnsigned(d: Bytes, pos: nat): Result<nat> {
    VarintFrom(d, pos, 0, 0)
  }

  const MAX_INT: nat := 0x7FFF_FFFF_FFFF_FFFF

  /** The payload of the length that a prefix gave.  A negative length passes
      `check` and fails in the slice; so does one whose end overflows. */
  function ReadPayload(d: Bytes, pos: nat, length: int): Result<Bytes> {
    if length < 0 || pos + length > MAX_INT then Panic
    else if pos + length > |d| then Underflow
    else Ok(d[pos..pos + length], pos + length)
  }

  function ReadField(d: Bytes, pos: nat, kind: Kind): Result<Field> {
    match kind
    case IntKind(size) =>
      (match ReadInt(d, pos, size)
       case Ok(i, n) => Ok(Int(size, i), n)
       case Underflow => Underflow
       case Panic => Panic)
    case BoolKind =>
      (match ReadInt(d, pos, 1)
       case Ok(i, n) => Ok(Bool(i != 0), n)
       case Underflow => Underflow
       case Panic => Panic)
    case UnsignedKind =>
      (match ReadUnsigned(d, pos)
       case Ok(u, n) => Ok(Unsigned(u), n)
       case Underflow => Underflow
       case Panic => Panic)
    case SignedKind =>
      (match ReadUnsigned(d, pos)
       case Ok(u, n) => Ok(Signed(UnZigZag(u % WORD_MODULUS)), n)
       case Underflow => Underflow
       case Panic => Panic)
    case NullableKind(size) =>
      (match ReadInt(d, pos, size)
       case Ok(l, n) => if l == -1 then Ok(Nullable(size, None), n) else NullableOf(size, ReadPayload(d, n, l))
       case Underflow => Underflow
       case Panic => Panic)
    case PlainKind =>
      (match ReadInt(d, pos, 2)
       case Ok(l, n) => PlainOf(ReadPayload(d, n, l))
       case Underflow => Underflow
       case Panic => Panic)
    case CompactKind =>
      (match ReadUnsigned(d, pos)
       case Ok(u, n) => if u == 0 then Ok(Compact(None), n) else CompactOf(ReadPayload(d, n, u - 1))
       case Underflow => Underflow
       case Panic => Panic)
  }

  function NullableOf(size: nat, r: Result<Bytes>): Result<Field> {
    match r
    case Ok(b, n) => Ok(Nullable(size, Some(b)), n)
    case Underflow => Underflow
    case Panic => Panic
  }

  function PlainOf(r: Result<Bytes>): Result<Field> {
    match r
    case Ok(b, n) => Ok(Plain(b), n)
    case Underflow => Underflow
    case Panic => Panic
  }

  function CompactOf(r: Result<Bytes>): Result<Field> {
    match r
    case Ok(b, n) => Ok(Compact(Some(b)), n)
    case Underflow => Underflow
    case Panic => Panic
  }

  /** How fields are read from a buffer. */
  function FieldReader(d: Bytes): (nat, Kind) -> Result<Field> {
    (pos: nat, kind: Kind) => ReadField(d, pos, kind)
  }

  /** Reading one field after another, stopping at the first failure. */
  function ReadEach(read: (nat, Kind) -> Result<Field>, pos: nat, kinds: seq<Kind>): Result<seq<Field>>
    decreases |kinds|
  {
    if kinds == [] then Ok([], pos)
    else
      match read(pos, kinds[0])
      case Underflow => Underflow
      case Panic => Panic
      case Ok(f, n) =>
        (match ReadEach(read, n, kinds[1..])
         case Ok(fs, m) => Ok([f] + fs, m)
         case Underflow => Underflow
         case Panic => Panic)
  }

  function ReadAll(d: Bytes, pos: nat, kinds: seq<Kind>): Result<seq<Field>> {
    ReadEach(FieldReader(d), pos, kinds)
  }

  /** A loop that reads `count` 32-bit integers, appending them to acc. */
  function ReadInts(d: Bytes, pos: nat, count: int, acc: seq<int>): Result<seq<int>>
    decreases count
  {
    if count <= 0 then Ok(acc, pos)
    else
      match ReadInt(d, pos, 4)
      case Underflow => Underflow
      case Panic => Panic
      case Ok(p, n) => ReadInts(d, n, count - 1, acc + [p])
  }

  // ---------------------------------------------------------------------
  // Integers and varints
  // ---------------------------------------------------------------------

  /** The window of d that starts at pos holds b. */
  ghost predicate At(d: Bytes, pos: nat, b: Bytes) {
    pos + |b| <= |d| && d[pos..pos + |b|] == b
  }

  lemma AtConcat(d: Bytes, pos: nat, a: Bytes, b: Bytes)
    ensures At(d, pos, a + b) <==> At(d, pos, a) && At(d, pos + |a|, b)
  {
    if At(d, pos, a + b) {
      assert d[pos..pos + |a|] == d[pos..pos + |a + b|][..|a|] == a;
      assert d[pos + |a|..pos + |a| + |b|] == d[pos..pos + |a + b|][|a|..] == b;
    }
    if At(d, pos, a) && At(d, pos + |a|, b) {
      assert d[pos..pos + |a + b|] == d[pos..pos + |a|] + d[pos + |a|..pos + |a| + |b|];
    }
  }

  lemma IntReads(d: Bytes, pos: nat, size: nat, i: int)
    requires At(d, pos, IntBytes(size, i))
    ensures ReadInt(d, pos, size) == Ok(ToSigned(ToUnsigned(i, RangePos(size)), Range(size)), pos + size)
    ensures size > 0 && Fits(i, Range(size)) ==> ReadInt(d, pos, size) == Ok(i, pos + size)
  {
    BigEndianReads(ToUnsigned(i, RangePos(size)), size);
    RangeIsPositive(size);
    if size > 0 && Fits(i, Range(size)) { SignedRoundTrip(i, Range(size)); }
  }

  lemma {:induction false} AgreesFrom(w: nat, d: Bytes, pos: nat, read: nat, value: nat)
    requires pos + read <= |d| && w == 64 && Pow2(w) == WORD_MODULUS
    ensures match Endian.DecodeFrom(w, d[pos..], read, value)
            case Read(count, v) => VarintFrom(d, pos, read, value) == Ok(v, pos + count)
            case Underflow => VarintFrom(d, pos, read, value) == Underflow
            case ShiftTooFar => true
    decreases |d| - read
  {
    if pos + read < |d| && 7 * read < w {
      var b := d[pos + read];
      assert d[pos..][read] == b;
      AgreesFrom(w, d, pos, read + 1, Or(value, b % 0x80 * Pow2(7 * read) % WORD_MODULUS));
    }
  }

  /** The Go reader agrees with the C++ decoder wherever that is defined. */
  lemma GoAgreesWithCpp(d: Bytes, pos: nat)
    requires pos <= |d|
    ensures match Endian.Decode(64, d[pos..])
            case Read(count, v) => ReadUnsigned(d, pos) == Ok(v, pos + count)
            case Underflow => ReadUnsigned(d, pos) == Underflow
            case ShiftTooFar => true
  {
    var w := WordBits();
    AgreesFrom(w, d, pos, 0, 0);
  }

  /** The varint at pos ends with the k-th byte after it. */
  ghost predicate EndsAt(d: Bytes, pos: nat, k: nat) {
    pos + k < |d| && d[pos + k] < 0x80 && forall i :: pos <= i < pos + k ==> d[i] >= 0x80
  }

  lemma VarintStep(d: Bytes, pos: nat, n: nat, value: nat, value': nat)
    requires pos + n < |d| && value' == Or(value, d[pos + n] % 0x80 * Pow2(7 * n) % WORD_MODULUS)
    ensures VarintFrom(d, pos, n, value) ==
            if d[pos + n] < 0x80 then Ok(value', pos + n + 1) else VarintFrom(d, pos, n + 1, value')
  {
  }

  lemma {:induction false} VarintFromIs(w: nat, d: Bytes, pos: nat, k: nat, n: nat, value: nat)
    requires EndsAt(d, pos, k) && n <= k && Pow2(w) == WORD_MODULUS
    requires value == LebValue(d[pos..pos + n]) % WORD_MODULUS
    ensures VarintFrom(d, pos, n, value) == Ok(LebValue(d[pos..pos + k + 1]) % WORD_MODULUS, pos + k + 1)
    decreases k - n
  {
    var value' := LebValue(d[pos..pos + n + 1]) % WORD_MODULUS;
    OneGroup(w, d, pos, n);
    VarintStep(d, pos, n, value, value');
    if n < k { VarintFromIs(w, d, pos, k, n + 1, value'); }
  }

  lemma OneGroup(w: nat, d: Bytes, pos: nat, n: nat)
    requires pos + n < |d| && Pow2(w) == WORD_MODULUS
    ensures Or(LebValue(d[pos..pos + n]) % WORD_MODULUS, d[pos + n] % 0x80 * Pow2(7 * n) % WORD_MODULUS) ==
            LebValue(d[pos..pos + n + 1]) % WORD_MODULUS
  {
    assert d[pos..pos + n + 1] == d[pos..pos + n] + [d[pos + n]];
    LebValueEnds(d[pos..pos + n], d[pos + n]);
    Pow128IsPow2(n);
    NextGroup(w, LebValue(d[pos..pos + n]), d[pos + n] % 0x80, n);
  }

  lemma NextGroup(w: nat, x: nat, g: nat, n: nat)
    requires Pow2(w) == WORD_MODULUS && x < Pow2(7 * n)
    ensures Or(x % WORD_MODULUS, g * Pow2(7 * n) % WORD_MODULUS) == (x + g * Pow2(7 * n)) % WORD_MODULUS
  {
    if 7 * n < w {
      Pow2Increases(7 * n, w);
      DivModUnique(x, WORD_MODULUS, 0, x);
      GroupIn(x, g, 7 * n, w);
    } else {
      GroupPast(x, g, 7 * n, w);
      OrZero(x % WORD_MODULUS);
    }
  }

  lemma OrZero(x: nat)
    ensures Or(x, 0) == x
  {
  }

  /** The Go reader on any bytes: the number of all the groups up to the one that ends
      the varint, however many, modulo 2^64. */
  lemma ReadUnsignedIs(d: Bytes, pos: nat, k: nat)
    requires EndsAt(d, pos, k)
    ensures ReadUnsigned(d, pos) == Ok(LebValue(d[pos..pos + k + 1]) % WORD_MODULUS, pos + k + 1)
  {
    var w := WordBits();
    assert d[pos..pos] == [];
    DivModUnique(0, WORD_MODULUS, 0, 0);
    VarintFromIs(w, d, pos, k, 0, 0);
  }

  lemma Behind(d: Bytes, pos: nat, b: Bytes)
    requires At(d, pos, b)
    ensures d[pos..] == b + d[pos + |b|..]
  {
    assert d[pos..] == d[pos..pos + |b|] + d[pos + |b|..];
  }

  lemma UnsignedReads(d: Bytes, pos: nat, u: nat)
    requires u < WORD_MODULUS && At(d, pos, Leb(u))
    ensures ReadUnsigned(d, pos) == Ok(u, pos + |Leb(u)|)
    ensures |Leb(u)| <= 10
  {
    var w := WordBits();
    Behind(d, pos, Leb(u));
    Endian.VarintRoundTrip(w, u, d[pos + |Leb(u)|..]);
    AgreesFrom(w, d, pos, 0, 0);
  }

  /** The accumulator stays in 64 bits. */
  lemma {:induction false} VarintBelow(d: Bytes, pos: nat, read: nat, value: nat)
    requires value < WORD_MODULUS && VarintFrom(d, pos, read, value).Ok?
    ensures var r := VarintFrom(d, pos, read, value); r.value < WORD_MODULUS && pos + read < r.next <= |d|
    decreases |d| - (pos + read)
  {
    var b := d[pos + read];
    var w := WordBits();
    OrBelow(value, b % 0x80 * Pow2(7 * read) % WORD_MODULUS, w);
    if b >= 0x80 {
      VarintBelow(d, pos, read + 1, Or(value, b % 0x80 * Pow2(7 * read) % WORD_MODULUS));
    }
  }

  lemma BigLength()
    ensures Range(2) == 0x1_0000 && Range(4) == 0x1_0000_0000 && WORD_MODULUS > MAX_INT + 1
  {
  }

  // ---------------------------------------------------------------------
  // Fields
  // ---------------------------------------------------------------------

  /** A prefixed payload reads back exactly when its length fits the prefix. */
  lemma PrefixedReads(d: Bytes, pos: nat, size: nat, b: Bytes)
    requires size in {2, 4} && |d| <= MAX_INT && At(d, pos, IntBytes(size, |b|) + b)
    ensures var l := ToSigned(ToUnsigned(|b|, RangePos(size)), Range(size));
            && ReadInt(d, pos, size) == Ok(l, pos + size)
            && (|b| < Range(size) / 2 ==> l == |b| && ReadPayload(d, pos + size, l) == Ok(b, pos + size + |b|))
            && (|b| >= Range(size) / 2 ==> l < |b|)
  {
    AtConcat(d, pos, IntBytes(size, |b|), b);
    IntReads(d, pos, size, |b|);
    LengthComesBack(|b|, size);
  }

  /** A length comes back from its prefix exactly when it fits. */
  lemma LengthComesBack(n: nat, size: nat)
    requires size in {2, 4}
    ensures var l := ToSigned(ToUnsigned(n, RangePos(size)), Range(size));
            (n < Range(size) / 2 ==> l == n) && (n >= Range(size) / 2 ==> l < n)
  {
    BigLength();
    if n >= Range(size) { Endian.ModShrinks(n, Range(size)); }
  }

  lemma CompactReads(d: Bytes, pos: nat, b: Bytes)
    requires |d| <= MAX_INT && At(d, pos, Leb(|b| + 1) + b)
    ensures ReadField(d, pos, CompactKind) == Ok(Compact(Some(b)), pos + |Leb(|b| + 1) + b|)
  {
    BigLength();
    AtConcat(d, pos, Leb(|b| + 1), b);
    UnsignedReads(d, pos, |b| + 1);
  }

  lemma SignedReads(d: Bytes, pos: nat, v: int)
    requires Fits(v, WORD_MODULUS) && At(d, pos, FieldBytes(Signed(v)))
    ensures ReadField(d, pos, SignedKind) == Ok(Signed(v), pos + |FieldBytes(Signed(v))|)
  {
    var z := ZigZag(v);
    UnsignedReads(d, pos, z);
    DivModUnique(z, WORD_MODULUS, 0, z);
  }

  lemma NilReads(d: Bytes, pos: nat, size: nat)
    requires size in {2, 4} && At(d, pos, IntBytes(size, -1))
    ensures ReadField(d, pos, NullableKind(size)) == Ok(Nullable(size, None), pos + size)
  {
    BigLength();
    IntReads(d, pos, size, -1);
  }

  lemma BoolReads(d: Bytes, pos: nat, b: bool)
    requires At(d, pos, FieldBytes(Bool(b)))
    ensures ReadField(d, pos, BoolKind) == Ok(Bool(b), pos + 1)
  {
    IntReads(d, pos, 1, if b then 1 else 0);
    assert Range(1) == 256;
  }

  lemma NullableReads(d: Bytes, pos: nat, size: nat, b: Bytes)
    requires size in {2, 4} && |d| <= MAX_INT && At(d, pos, IntBytes(size, |b|) + b)
    ensures ReadField(d, pos, NullableKind(size)) == Ok(Nullable(size, Some(b)), pos + size + |b|) <==>
            |b| < Range(size) / 2
  {
    PrefixedReads(d, pos, size, b);
  }

  lemma PlainReads(d: Bytes, pos: nat, b: Bytes)
    requires |d| <= MAX_INT && At(d, pos, IntBytes(2, |b|) + b)
    ensures ReadField(d, pos, PlainKind) == Ok(Plain(b), pos + 2 + |b|) <==> |b| < Range(2) / 2
  {
    PrefixedReads(d, pos, 2, b);
  }

  lemma FixedRoundTrip(d: Bytes, pos: nat, f: Field)
    requires f.WellTyped() && At(d, pos, FieldBytes(f)) && (f.Int? || f.Bool? || f.Unsigned? || f.Signed?)
    ensures ReadField(d, pos, f.Kind()) == Ok(f, pos + |FieldBytes(f)|)
  {
    match f {
      case Int(size, i) => IntReads(d, pos, size, i);
      case Bool(b) => BoolReads(d, pos, b);
      case Unsigned(u) => UnsignedReads(d, pos, u);
      case Signed(v) => SignedReads(d, pos, v);
    }
  }

  lemma PayloadRoundTrip(d: Bytes, pos: nat, f: Field)
    requires f.WellTyped() && |d| <= MAX_INT && At(d, pos, FieldBytes(f)) && (f.Nullable? || f.Plain? || f.Compact?)
    ensures ReadField(d, pos, f.Kind()) == Ok(f, pos + |FieldBytes(f)|) <==> f.InLimits()
  {
    match f {
      case Nullable(size, None) => NilReads(d, pos, size);
      case Nullable(size, Some(b)) => NullableReads(d, pos, size, b);
      case Plain(text) => PlainReads(d, pos, text);
      case Compact(None) =>
        BigLength();
        UnsignedReads(d, pos, 0);
      case Compact(Some(b)) => CompactReads(d, pos, b);
    }
  }

  // ---------------------------------------------------------------------
  // Byte by byte
  // ---------------------------------------------------------------------

  lemma ShortLayout(i: int)
    ensures U16(IntBytes(2, i), 0) == i % 0x1_0000
  {
    var b := IntBytes(2, i);
    BigLength();
    BigEndianReads(ToUnsigned(i, RangePos(2)), 2);
    BigEndianIsU16(b, 0);
    assert b[0..0 + 2] == b;
  }

  lemma LongLayout(i: int)
    ensures U32(IntBytes(4, i), 0) == i % 0x1_0000_0000
  {
    var b := IntBytes(4, i);
    BigLength();
    BigEndianReads(ToUnsigned(i, RangePos(4)), 4);
    BigEndianIsU32(b, 0);
    assert b[0..0 + 4] == b;
  }

  lemma At16(d: Bytes, pos: nat, i: int)
    requires At(d, pos, IntBytes(2, i))
    ensures U16(d, pos) == i % 0x1_0000
  {
    ShortLayout(i);
    Windows(d, pos);
  }

  lemma At32(d: Bytes, pos: nat, i: int)
    requires At(d, pos, IntBytes(4, i))
    ensures U32(d, pos) == i % 0x1_0000_0000
  {
    LongLayout(i);
    Windows(d, pos);
  }

  /** A bool is one byte, 1 or 0, and any byte but 0 reads as true. */
  lemma BoolLayout(b: bool, d: Bytes, pos: nat)
    ensures FieldBytes(Bool(b)) == [if b then 1 else 0]
    ensures pos < |d| ==> ReadField(d, pos, BoolKind) == Ok(Bool(d[pos] != 0), pos + 1)
  {
    assert Range(1) == 256;
    if pos < |d| {
      FromBigEndianEnds(d, pos, pos + 1);
      assert d[pos..pos] == [];
    }
  }

  /** A nullable field is its length, big-endian, and then its bytes; -1, all ones,
      stands for null. */
  lemma NullableLayout(payload: Option<Bytes>)
    ensures var f := FieldBytes(Nullable(2, payload));
            && |f| >= 2
            && (payload == None ==> f == [0xFF, 0xFF])
            && (payload.Some? ==> U16(f, 0) == |payload.value| % 0x1_0000 && f[2..] == payload.value)
    ensures var f := FieldBytes(Nullable(4, payload));
            && |f| >= 4
            && (payload == None ==> f == [0xFF, 0xFF, 0xFF, 0xFF])
            && (payload.Some? ==> U32(f, 0) == |payload.value| % 0x1_0000_0000 && f[4..] == payload.value)
  {
    if payload == None {
      AllOnes();
    } else {
      ShortLayout(|payload.value|);
      LongLayout(|payload.value|);
    }
  }

  lemma AllOnes()
    ensures IntBytes(2, -1) == [0xFF, 0xFF] && IntBytes(4, -1) == [0xFF, 0xFF, 0xFF, 0xFF]
  {
    BigLength();
    assert ToUnsigned(-1, 0x1_0000) == 0xFFFF && ToUnsigned(-1, 0x1_0000_0000) == 0xFFFF_FFFF;
    BigEndianWrites([0xFF, 0xFF]);
    BigEndianWrites([0xFF, 0xFF, 0xFF, 0xFF]);
    BigEndianIsU16([0xFF, 0xFF], 0);
    BigEndianIsU32([0xFF, 0xFF, 0xFF, 0xFF], 0);
    assert [0xFF, 0xFF][0..0 + 2] == [0xFF, 0xFF];
    assert [0xFF, 0xFF, 0xFF, 0xFF][0..0 + 4] == [0xFF, 0xFF, 0xFF, 0xFF];
  }

  /** A compact field is one more than its length, as a varint, and then its bytes; 0
      stands for null. */
  lemma CompactLayout(payload: Option<Bytes>)
    requires payload.Some? ==> |payload.value| < MAX_INT
    ensures payload == None ==> FieldBytes(Compact(payload)) == [0]
    ensures payload.Some? ==>
              var f, n := FieldBytes(Compact(payload)), |Leb(|payload.value| + 1)|;
              && n <= |f| && f[n..] == payload.value
              && forall i :: 0 <= i < n ==>
                   f[i] % 0x80 == (|payload.value| + 1) / Pow128(i) % 0x80 && (f[i] >= 0x80 <==> i + 1 < n)
  {
    if payload.Some? {
      var v := |payload.value| + 1;
      forall i | 0 <= i < |Leb(v)|
        ensures Leb(v)[i] % 0x80 == v / Pow128(i) % 0x80 && (Leb(v)[i] >= 0x80 <==> i + 1 < |Leb(v)|)
      {
        LebAt(v, i);
      }
    }
  }

  /** One field reads back, consuming exactly what was written, if and only if
      its length fits its prefix. */
  lemma FieldRoundTrip(d: Bytes, pos: nat, f: Field)
    requires f.WellTyped() && |d| <= MAX_INT && At(d, pos, FieldBytes(f))
    ensures ReadField(d, pos, f.Kind()) == Ok(f, pos + |FieldBytes(f)|) <==> f.InLimits()
  {
    if f.Int? || f.Bool? || f.Unsigned? || f.Signed? {
      FixedRoundTrip(d, pos, f);
    } else {
      PayloadRoundTrip(d, pos, f);
    }
  }

  function Kinds(fs: seq<Field>): seq<Kind> {
    seq(|fs|, i requires 0 <= i < |fs| => fs[i].Kind())
  }

  lemma ReadEachStep(read: (nat, Kind) -> Result<Field>, pos: nat, kinds: seq<Kind>, f: Field, n: nat,
                     fs: seq<Field>, m: nat)
    requires kinds != [] && read(pos, kinds[0]) == Ok(f, n) && ReadEach(read, n, kinds[1..]) == Ok(fs, m)
    ensures ReadEach(read, pos, kinds) == Ok([f] + fs, m)
  {
  }

  lemma MessageStep(read: (nat, Kind) -> Result<Field>, pos: nat, fs: seq<Field>, n: nat, end: nat)
    requires fs != [] && read(pos, fs[0].Kind()) == Ok(fs[0], n)
    requires ReadEach(read, n, Kinds(fs[1..])) == Ok(fs[1..], end)
    ensures ReadEach(read, pos, Kinds(fs)) == Ok(fs, end)
  {
    assert Kinds(fs)[1..] == Kinds(fs[1..]) && Kinds(fs)[0] == fs[0].Kind();
    ReadEachStep(read, pos, Kinds(fs), fs[0], n, fs[1..], end);
    assert fs == [fs[0]] + fs[1..];
  }

  lemma AtSplit(d: Bytes, pos: nat, all: Bytes, a: Bytes, b: Bytes)
    requires all == a + b && At(d, pos, all)
    ensures At(d, pos, a) && At(d, pos + |a|, b) && |all| == |a| + |b|
  {
    AtConcat(d, pos, a, b);
  }

  /** Wherever d holds b, reading a field of f's kind gives f. */
  ghost predicate ReadsAs(read: (nat, Kind) -> Result<Field>, d: Bytes, f: Field, b: Bytes) {
    forall p: nat {:trigger At(d, p, b)} :: At(d, p, b) ==> read(p, f.Kind()) == Ok(f, p + |b|)
  }

  lemma FieldReads(d: Bytes, f: Field)
    requires f.WellTyped() && f.InLimits() && |d| <= MAX_INT
    ensures ReadsAs(FieldReader(d), d, f, FieldBytes(f))
  {
    forall p: nat | At(d, p, FieldBytes(f)) ensures ReadField(d, p, f.Kind()) == Ok(f, p + |FieldBytes(f)|) {
      FieldRoundTrip(d, p, f);
    }
  }

  function Flat(bs: seq<Bytes>): Bytes {
    if bs == [] then [] else bs[0] + Flat(bs[1..])
  }

  function Pieces(fs: seq<Field>): (bs: seq<Bytes>)
    requires forall f :: f in fs ==> f.WellTyped()
    ensures |bs| == |fs| && forall i :: 0 <= i < |fs| ==> bs[i] == FieldBytes(fs[i])
  {
    if fs == [] then [] else [FieldBytes(fs[0])] + Pieces(fs[1..])
  }

  lemma {:induction false} FlatPieces(fs: seq<Field>)
    requires forall f :: f in fs ==> f.WellTyped()
    ensures Flat(Pieces(fs)) == AllBytes(fs)
  {
    if fs != [] {
      FlatPieces(fs[1..]);
      assert Pieces(fs)[1..] == Pieces(fs[1..]);
    }
  }

  lemma {:induction false} PiecesRead(read: (nat, Kind) -> Result<Field>, d: Bytes, pos: nat, fs: seq<Field>,
                                      bs: seq<Bytes>)
    requires |bs| == |fs| && At(d, pos, Flat(bs)) && forall i :: 0 <= i < |fs| ==> ReadsAs(read, d, fs[i], bs[i])
    ensures ReadEach(read, pos, Kinds(fs)) == Ok(fs, pos + |Flat(bs)|)
    decreases |fs|
  {
    if fs != [] {
      AtSplit(d, pos, Flat(bs), bs[0], Flat(bs[1..]));
      PiecesRead(read, d, pos + |bs[0]|, fs[1..], bs[1..]);
      assert ReadsAs(read, d, fs[0], bs[0]);
      MessageStep(read, pos, fs, pos + |bs[0]|, pos + |Flat(bs)|);
    }
  }

  lemma InLimitsReads(d: Bytes, pos: nat, fs: seq<Field>)
    requires forall f :: f in fs ==> f.WellTyped() && f.InLimits()
    requires |d| <= MAX_INT && At(d, pos, AllBytes(fs))
    ensures ReadAll(d, pos, Kinds(fs)) == Ok(fs, pos + |AllBytes(fs)|)
  {
    FlatPieces(fs);
    forall i | 0 <= i < |fs| ensures ReadsAs(FieldReader(d), d, fs[i], Pieces(fs)[i]) {
      assert fs[i] in fs;
      FieldReads(d, fs[i]);
    }
    PiecesRead(FieldReader(d), d, pos, fs, Pieces(fs));
  }

  /** A field over its limit never comes back with its value. */
  lemma ValueComesBack(d: Bytes, pos: nat, f: Field, n: nat)
    requires f.WellTyped() && |d| <= MAX_INT && At(d, pos, FieldBytes(f))
    requires ReadField(d, pos, f.Kind()) == Ok(f, n)
    ensures f.InLimits() && n == pos + |FieldBytes(f)|
  {
    if !f.InLimits() {
      match f {
        case Nullable(size, Some(b)) => PrefixedReads(d, pos, size, b);
        case Plain(text) => PrefixedReads(d, pos, 2, text);
      }
    }
    FieldRoundTrip(d, pos, f);
  }

  lemma ReadEachParts(read: (nat, Kind) -> Result<Field>, pos: nat, fs: seq<Field>, end: nat)
    requires fs != [] && ReadEach(read, pos, Kinds(fs)) == Ok(fs, end)
    ensures var r := read(pos, fs[0].Kind());
            r.Ok? && r.value == fs[0] && ReadEach(read, r.next, Kinds(fs[1..])) == Ok(fs[1..], end)
  {
    assert Kinds(fs)[1..] == Kinds(fs[1..]) && Kinds(fs)[0] == fs[0].Kind();
    var r := read(pos, fs[0].Kind());
    var rest := ReadEach(read, r.next, Kinds(fs[1..]));
    assert fs == [r.value] + rest.value;
  }

  /** Wherever d holds b, reading f's kind gives f only if f is within its limits. */
  ghost predicate ReadsOnlyInLimits(read: (nat, Kind) -> Result<Field>, d: Bytes, f: Field, b: Bytes) {
    forall p: nat, n: nat {:trigger At(d, p, b), Result<Field>.Ok(f, n)} ::
      At(d, p, b) && read(p, f.Kind()) == Ok(f, n) ==> f.InLimits() && n == p + |b|
  }

  lemma {:induction false} PiecesInLimits(read: (nat, Kind) -> Result<Field>, d: Bytes, pos: nat, fs: seq<Field>,
                                          bs: seq<Bytes>, end: nat)
    requires |bs| == |fs| && At(d, pos, Flat(bs))
    requires forall i :: 0 <= i < |fs| ==> ReadsOnlyInLimits(read, d, fs[i], bs[i])
    requires ReadEach(read, pos, Kinds(fs)) == Ok(fs, end)
    ensures forall i :: 0 <= i < |fs| ==> fs[i].InLimits()
    decreases |fs|
  {
    if fs != [] {
      ReadEachParts(read, pos, fs, end);
      AtSplit(d, pos, Flat(bs), bs[0], Flat(bs[1..]));
      var n := read(pos, fs[0].Kind()).next;
      assert ReadsOnlyInLimits(read, d, fs[0], bs[0]) && read(pos, fs[0].Kind()) == Ok(fs[0], n);
      PiecesInLimits(read, d, n, fs[1..], bs[1..], end);
    }
  }

  lemma ReadsMeanInLimits(d: Bytes, pos: nat, fs: seq<Field>, end: nat)
    requires (forall f :: f in fs ==> f.WellTyped()) && |d| <= MAX_INT && At(d, pos, AllBytes(fs))
    requires ReadAll(d, pos, Kinds(fs)) == Ok(fs, end)
    ensures forall f :: f in fs ==> f.InLimits()
  {
    FlatPieces(fs);
    forall i | 0 <= i < |fs| ensures ReadsOnlyInLimits(FieldReader(d), d, fs[i], Pieces(fs)[i]) {
      assert fs[i] in fs;
      FieldInLimits(d, fs[i]);
    }
    PiecesInLimits(FieldReader(d), d, pos, fs, Pieces(fs), end);
  }

  lemma FieldInLimits(d: Bytes, f: Field)
    requires f.WellTyped() && |d| <= MAX_INT
    ensures ReadsOnlyInLimits(FieldReader(d), d, f, FieldBytes(f))
  {
    forall p: nat, n: nat | At(d, p, FieldBytes(f)) && ReadField(d, p, f.Kind()) == Ok(f, n)
      ensures f.InLimits() && n == p + |FieldBytes(f)|
    {
      ValueComesBack(d, p, f, n);
    }
  }

  /** Whole messages: every value comes back if and only if every length fits its
      prefix, and then exactly the bytes written are consumed. */
  lemma MessageRoundTrip(d: Bytes, pos: nat, fs: seq<Field>)
    requires (forall f :: f in fs ==> f.WellTyped()) && |d| <= MAX_INT && At(d, pos, AllBytes(fs))
    ensures (forall f :: f in fs ==> f.InLimits()) ==> ReadAll(d, pos, Kinds(fs)) == Ok(fs, pos + |AllBytes(fs)|)
    ensures (exists end :: ReadAll(d, pos, Kinds(fs)) == Ok(fs, end)) ==> forall f :: f in fs ==> f.InLimits()
  {
    if forall f :: f in fs ==> f.InLimits() {
      InLimitsReads(d, pos, fs);
    }
    if end :| ReadAll(d, pos, Kinds(fs)) == Ok(fs, end) {
      ReadsMeanInLimits(d, pos, fs, end);
    }
  }

  // ---------------------------------------------------------------------
  // Truncated messages
  // ---------------------------------------------------------------------

  lemma {:induction false} VarintExtends(d: Bytes, more: Bytes, pos: nat, read: nat, value: nat)
    requires !VarintFrom(d, pos, read, value).Underflow?
    ensures VarintFrom(d + more, pos, read, value) == VarintFrom(d, pos, read, value)
    decreases |d| - (pos + read)
  {
    var b := d[pos + read];
    assert (d + more)[pos + read] == b;
    if b >= 0x80 {
      VarintExtends(d, more, pos, read + 1, Or(value, b % 0x80 * Pow2(7 * read) % WORD_MODULUS));
    }
  }

  lemma IntExtends(d: Bytes, more: Bytes, pos: nat, size: nat)
    requires !ReadInt(d, pos, size).Underflow?
    ensures ReadInt(d + more, pos, size) == ReadInt(d, pos, size)
  {
    assert (d + more)[pos..pos + size] == d[pos..pos + size];
  }

  lemma PayloadExtends(d: Bytes, more: Bytes, pos: nat, length: int)
    requires !ReadPayload(d, pos, length).Underflow?
    ensures ReadPayload(d + more, pos, length) == ReadPayload(d, pos, length)
  {
    if length >= 0 && pos + length <= |d| {
      assert (d + more)[pos..pos + length] == d[pos..pos + length];
    }
  }

  /** A read that did not run out of bytes never looked beyond them. */
  lemma FieldExtends(d: Bytes, more: Bytes, pos: nat, kind: Kind)
    requires !ReadField(d, pos, kind).Underflow?
    ensures ReadField(d + more, pos, kind) == ReadField(d, pos, kind)
    ensures ReadField(d, pos, kind).Ok? ==> ReadField(d, pos, kind).next <= |d|
  {
    match kind {
      case IntKind(size) => IntExtends(d, more, pos, size);
      case BoolKind => IntExtends(d, more, pos, 1);
      case NullableKind(size) =>
        IntExtends(d, more, pos, size);
        var r := ReadInt(d, pos, size);
        if r.value != -1 { PayloadExtends(d, more, r.next, r.value); }
      case PlainKind =>
        IntExtends(d, more, pos, 2);
        var r := ReadInt(d, pos, 2);
        PayloadExtends(d, more, r.next, r.value);
      case _ => VarintFieldExtends(d, more, pos, kind);
    }
  }

  lemma VarintFieldExtends(d: Bytes, more: Bytes, pos: nat, kind: Kind)
    requires kind in {UnsignedKind, SignedKind, CompactKind} && !ReadField(d, pos, kind).Underflow?
    ensures ReadField(d + more, pos, kind) == ReadField(d, pos, kind)
    ensures ReadField(d, pos, kind).Ok? ==> ReadField(d, pos, kind).next <= |d|
  {
    VarintExtends(d, more, pos, 0, 0);
    var r := ReadUnsigned(d, pos);
    if r.Ok? {
      VarintBelow(d, pos, 0, 0);
      if kind == CompactKind && r.value != 0 { PayloadExtends(d, more, r.next, r.value - 1); }
    }
  }

  lemma {:induction false} AllExtends(d: Bytes, more: Bytes, pos: nat, kinds: seq<Kind>)
    requires !ReadAll(d, pos, kinds).Underflow?
    ensures ReadAll(d + more, pos, kinds) == ReadAll(d, pos, kinds)
    ensures ReadAll(d, pos, kinds).Ok? && pos <= |d| ==> ReadAll(d, pos, kinds).next <= |d|
    decreases |kinds|
  {
    if kinds != [] {
      FieldExtends(d, more, pos, kinds[0]);
      var r := ReadField(d, pos, kinds[0]);
      if r.Ok? { AllExtends(d, more, r.next, kinds[1..]); }
    }
  }

  /** Every strict prefix of a message makes some read report underflow. */
  lemma TruncatedMessage(fs: seq<Field>, n: nat)
    requires forall f :: f in fs ==> f.WellTyped() && f.InLimits()
    requires |AllBytes(fs)| <= MAX_INT && n < |AllBytes(fs)|
    ensures ReadAll(AllBytes(fs)[..n], 0, Kinds(fs)) == Underflow
  {
    var d := AllBytes(fs);
    assert d[0..0 + |d|] == d;
    InLimitsReads(d, 0, fs);
    PrefixUnderflows(d, n, Kinds(fs));
  }

  /** A read that needs all of a buffer underflows on a part of it. */
  lemma PrefixUnderflows(d: Bytes, n: nat, kinds: seq<Kind>)
    requires n < |d| && ReadAll(d, 0, kinds).Ok? && ReadAll(d, 0, kinds).next == |d|
    ensures ReadAll(d[..n], 0, kinds) == Underflow
  {
    assert d == d[..n] + d[n..];
    if !ReadAll(d[..n], 0, kinds).Underflow? {
      AllExtends(d[..n], d[n..], 0, kinds);
    }
  }
}
