/** Whole sessions with the reader, told by the grammar of the protocol. */
module Sessions {
  import opened Bytes
  import opened Resp
  import opened Builders
  import opened Grammar
  import opened Reader

  lemma {:induction false} NothingLeftOver(cfg: Config, w: bytes, rs: seq<Reply>)
    requires SpellsAll(cfg, w, rs)
    ensures Leftover(cfg, w) == []
    decreases |rs|
  {
    if rs != [] {
      var first, others := SplitFirst(cfg, w, rs);
      SpelledIsRead(cfg, first, rs[0], others);
      NothingLeftOver(cfg, others, rs[1..]);
    }
  }

  /**
   Bytes that spell some replies, however cut and whatever spelling of nil they use, are read as those
   replies, unless one of them holds what its builder refuses.
   */
  method ReadSpelled(cfg: Config, calls: seq<Call>, ghost rs: seq<Reply>) returns (out: seq<Emission>, ending: Ending)
    requires SpellsAll(cfg, FedBy(calls), rs)
    ensures SomeHasRefused(rs) <==> ending.Trapped?
    ensures !SomeHasRefused(rs) ==> ending.Waiting? && Delivers(out, rs)
  {
    SpelledStream(cfg, FedBy(calls), rs);
    NothingLeftOver(cfg, FedBy(calls), rs);
    StreamTripsIff(cfg, FedBy(calls));
    out, ending := RunSession(cfg, calls);
  }
}
