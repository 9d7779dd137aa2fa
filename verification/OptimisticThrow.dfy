/** The consistency experiment under V2 with several lines: exactly 2^64 increments overlap a reader that fetched its
    first line before the first of them and the others after it. The version is the remembered one again, and it
    throws. */
module OptimisticThrow {
  import opened Words
  import opened TupleLayout
  import opened OptimisticProtocol
  import opened OptimisticLinearizability
  import opened OptimisticProgress
  import opened OptimisticWrap

  ghost predicate Mixes(cfg: Config) {
    cfg.Valid() && cfg.KeepsPayload() && cfg.consistency.V2? && cfg.lines >= 2
  }

  /** Line 0 was read at tuple 0, line 1 at tuple 1. */
  ghost predicate Mixed(cfg: Config, s: State)
    requires cfg.Valid()
  {
    && Inv(cfg, s) && IsReading(s) && AllLines(cfg, s.ws[1].pc.rd.got) && |s.ws[1].pc.rd.stamp| == cfg.lines >= 2
    && s.ws[1].pc.rd.stamp[0] == 0 && s.ws[1].pc.rd.stamp[1] == 1
    && s.hist[0] == seq(cfg.Size(), _ => 0) && (forall n :: 0 <= n < |s.ops| ==> IsIncrement(s.ops[n]))
  }

  lemma FirstLine(cfg: Config) returns (tr: seq<State>)
    requires Mixes(cfg)
    ensures Run(cfg, tr) && AtFirst(cfg, Last(tr))
    ensures var rd := Last(tr).ws[1].pc.rd; HasLines(cfg, rd, 1, 0, 1) && rd.base == 0 == rd.low && rd.free
  {
    tr := V2Starts(cfg);
    tr := FetchOne(cfg, tr, 0, 0);
  }

  lemma IncrementCounts()
    ensures IsIncrement(INCREMENT)
  {
  }

  lemma OtherLines(cfg: Config) returns (tr: seq<State>)
    requires Mixes(cfg)
    ensures Run(cfg, tr) && V2Waits(cfg, Last(tr)) && Mixed(cfg, Last(tr)) && |Last(tr).hist| == 2
  {
    tr := FirstLine(cfg);
    tr := Commit(cfg, tr, 0, INCREMENT);
    IncrementCounts();
    tr := FetchAll(cfg, tr, 1, 0);
  }

  lemma Overtaken(cfg: Config) returns (tr: seq<State>)
    requires Mixes(cfg)
    ensures Run(cfg, tr) && V2Waits(cfg, Last(tr)) && Mixed(cfg, Last(tr)) && |Last(tr).hist| == WORD + 1
  {
    tr := OtherLines(cfg);
    IncrementCounts();
    tr := Commits(cfg, tr, INCREMENT, WORD - 1);
  }

  lemma Rereads(cfg: Config) returns (tr: seq<State>)
    requires Mixes(cfg)
    ensures Run(cfg, tr) && V2Done(cfg, Last(tr)) && Mixed(cfg, Last(tr))
  {
    tr := Overtaken(cfg);
    tr := V2Rereads(cfg, tr);
    assert PcInv(cfg, Last(tr), Last(tr).ws[1].pc);
  }

  lemma MixedFields(cfg: Config, s: State, rd: Reading)
    requires cfg.Valid() && Mixed(cfg, s) && rd == s.ws[1].pc.rd
    ensures ReadingInv(cfg, s, rd) && |rd.buf| == cfg.Size() && rd.buf[3] == 0 && rd.buf[11] == 1
  {
    assert PcInv(cfg, s, s.ws[1].pc);
    FieldRead(cfg, s, rd, 3);
    FieldRead(cfg, s, rd, 11);
  }

  /** Of increments only; exactly 2^64 of them overlap an accepted reader that throws. */
  lemma IncrementsThrow(cfg: Config) returns (tr: seq<State>)
    requires Mixes(cfg)
    ensures Run(cfg, tr) && forall n :: 0 <= n < |Last(tr).ops| ==> IsIncrement(Last(tr).ops[n])
    ensures var s := Last(tr);
            && 1 in s.ws && s.ws[1].pc.Accepted? && s.ws[1].pc.rd.high - s.ws[1].pc.rd.low == WORD
            && |s.ws[1].pc.rd.buf| == cfg.Size() && !FieldsEqual(s.ws[1].pc.rd.buf)
  {
    tr := Rereads(cfg);
    var rd := Last(tr).ws[1].pc.rd;
    MixedFields(cfg, Last(tr), rd);
    assert IsField(11) && !FieldsEqual(rd.buf);
    tr := ExtendSound(cfg, tr, 1, Decide);
  }
}
