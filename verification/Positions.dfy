/** The two dictionaries of _OffsetManager
    (clients/python/torrent_mq/consumer.py). */
module Positions {

  type Key = (string, int)

  /** _committed and _positions of _OffsetManager. */
  datatype Offsets = Offsets(committed: map<Key, int>, positions: map<Key, int>)

  function PositionOr(o: Offsets, k: Key, default: int): int {
    if k in o.positions then o.positions[k] else default
  }

  function CommittedOr(o: Offsets, k: Key, default: int): int {
    if k in o.committed then o.committed[k] else default
  }

  /** advance_position */
  function Advanced(o: Offsets, k: Key, offset: int): Offsets {
    if offset >= PositionOr(o, k, 0) then o.(positions := o.positions[k := offset + 1]) else o
  }

  /** uncommitted_offsets */
  function Uncommitted(o: Offsets): map<Key, int> {
    map k | k in o.positions && o.positions[k] > CommittedOr(o, k, -1) :: o.positions[k]
  }
}
