/** Epochs: one thread id and one clock value instead of a whole vector clock. */
module Epochs {
  import opened Clocks

  datatype Epoch = Epoch(tid: Tid, clk: nat)

  const INITIAL_EPOCH := Epoch(0, 0)

  // The same-epoch test: it compares clocks but not thread ids.
  predicate EqualTo(e: Epoch, vc: VC) {
    e != INITIAL_EPOCH && e.clk == Get(vc, e.tid)
  }

  predicate EpochBefore(e: Epoch, vc: VC) {
    e.clk <= Get(vc, e.tid)
  }
}
