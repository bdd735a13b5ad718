/** What the two client loops live on: time passes in sleeps, and frames arrive while
    they sleep. */
module Ether {
  import opened Wire

  /** What one sleep of a client loop brings: frames arrive, each at its own time, and
      the clock reads `now` when it wakes. The air is one such slot after another. */
  datatype Slot = Slot(frames: seq<(bytes, int)>, now: int)
  type Air = nat -> Slot
}
