/** The bound on overlapping commits cannot be dropped: in every configuration but FaRM with a single line, a run in
    which exactly 2^64 commits overlap a reader, and it accepts a tuple that was never there.

    A FaRM reader fetches line 0 of the first tuple and the other lines of tuple number 2^64, whose versions are
    equal. A V2 reader takes version and lock of the first tuple, the user's words of the second, and the version of
    number 2^64. */
module OptimisticWrap {
  import opened Words
  import opened TupleLayout
  import opened OptimisticProtocol
  import opened OptimisticLinearizability
  import opened OptimisticProgress

  function Fill(v: Word): Update {
    (t: Tuple, i: nat) => v
  }

  /** Where a reader depends on version words at all. */
  ghost predicate Wraps(cfg: Config) {
    cfg.Valid() && cfg.KeepsPayload() && (cfg.consistency.FaRM? ==> cfg.lines >= 2)
  }

  /** The writer may start. */
  ghost predicate Calm(cfg: Config, s: State) {
    Ready(cfg, s, 0)
  }

  /** Since `s`, there were `k` commits of `f`. */
  ghost predicate Repeated(cfg: Config, s: State, s': State, f: Update, k: nat) {
    && Calm(cfg, s') && s'.ws == s.ws && s.hist <= s'.hist && |s'.hist| == |s.hist| + k
    && |s'.ops| == |s.ops| + k && s.ops <= s'.ops && forall n :: |s.ops| <= n < |s'.ops| ==> s'.ops[n] == f
  }

  lemma {:induction false} Commits(cfg: Config, tr: seq<State>, f: Update, k: nat) returns (longer: seq<State>)
    requires Run(cfg, tr) && cfg.KeepsPayload() && Calm(cfg, Last(tr))
    ensures Run(cfg, longer) && Repeated(cfg, Last(tr), Last(longer), f, k)
  {
    longer := tr;
    if k > 0 {
      longer := Commits(cfg, longer, f, k - 1);
      longer := Commit(cfg, longer, 0, f);
    }
  }

  /** A tuple has the value that its commit filled in. */
  lemma FilledWord(cfg: Config, s: State, k: nat, v: Word, i: nat)
    requires Inv(cfg, s) && 1 <= k < |s.hist| && s.ops[k - 1] == Fill(v) && i < cfg.Size() && IsField(i)
    ensures s.hist[k][i] == v
  {
    var t := s.hist[k - 1];
    var e := Edited(cfg, Fill(v), t[cfg.LockIndex() := 1]);
    assert cfg.IsData(i) && e[i] == v;
    assert Payload(cfg, e)[i] == e[i];
  }

  // ---- the reader -------------------------------------------------------------------------------------------

  ghost predicate IsReading(s: State) {
    1 in s.ws && s.ws[1].pending == Nothing && s.ws[1].pc.Read?
  }

  /** The zero tuple is in memory, and worker 1 reads it. */
  ghost predicate AtFirst(cfg: Config, s: State) {
    && Calm(cfg, s) && IsReading(s) && s.ops == [] && |s.hist| == 1 && s.hist[0] == seq(cfg.Size(), _ => 0)
  }

  lemma Begin(cfg: Config) returns (tr: seq<State>)
    requires Wraps(cfg)
    ensures Run(cfg, tr) && AtFirst(cfg, Last(tr)) && Last(tr).ws[1].pc.rd.got == {} && Last(tr).ws[1].pc.rd.round == 1
    ensures Last(tr).ws[1].pc.rd.stage == if cfg.consistency.FaRM? then Fetch else Control
  {
    var zeros: Tuple := seq(cfg.Size(), _ => 0);
    var idle := Worker(Idle, Nothing);
    var s := State(zeros, map[0 := idle, 1 := idle], None, [zeros], [], 0);
    InitInv(cfg, s);
    tr := [s];
    tr := ExtendSound(cfg, tr, 1, BeginRead(zeros));
  }

  /** The reader has the first `k` lines: line 0 of tuple `first`, the others of tuple `last`. */
  ghost predicate HasLines(cfg: Config, rd: Reading, k: nat, first: nat, last: nat)
    requires cfg.Valid()
  {
    && |rd.stamp| == cfg.lines && rd.stage == Fetch && (forall l :: l in rd.got <==> 0 <= l < k)
    && (forall l :: 0 <= l < k && l < cfg.lines ==> rd.stamp[l] == if l == 0 then first else last)
    && (cfg.consistency.FaRM? && cfg.LockIndex() / LINE < k ==> rd.free)
  }

  /** Nothing but the reader has moved since `s`. */
  ghost predicate SameButReader(cfg: Config, s: State, s': State) {
    && Calm(cfg, s') && IsReading(s') && s'.hist == s.hist && s'.ops == s.ops
  }

  /** From `rd` to `rd'`, the reader has fetched up to `k` lines at tuple `n`. */
  ghost predicate Fetched(cfg: Config, rd: Reading, rd': Reading, k: nat, first: nat, n: nat)
    requires cfg.Valid()
  {
    && HasLines(cfg, rd', k, first, n) && rd'.round == rd.round && rd'.high == n
    && (cfg.consistency.V2? ==> rd'.base == rd.base && rd'.free == rd.free)
    && rd'.low == if cfg.consistency.FaRM? && rd.got == {} then n else rd.low
  }

  lemma FetchEffect(cfg: Config, s: State, k: nat, first: nat)
    requires Calm(cfg, s) && IsReading(s) && k < cfg.lines
    requires HasLines(cfg, s.ws[1].pc.rd, k, first, Newest(s)) && (k == 0 ==> first == Newest(s))
    ensures Enabled(cfg, s, 1, FetchLine(k)) && IsReading(FetchStep(cfg, s, 1, k))
    ensures var rd' := FetchStep(cfg, s, 1, k).ws[1].pc.rd;
            Fetched(cfg, s.ws[1].pc.rd, rd', k + 1, first, Newest(s)) && rd'.got != {}
  {
    assert k in FetchStep(cfg, s, 1, k).ws[1].pc.rd.got;
  }

  lemma FetchOne(cfg: Config, tr: seq<State>, k: nat, first: nat) returns (longer: seq<State>)
    requires Run(cfg, tr) && cfg.KeepsPayload() && Calm(cfg, Last(tr)) && IsReading(Last(tr)) && k < cfg.lines
    requires HasLines(cfg, Last(tr).ws[1].pc.rd, k, first, Newest(Last(tr))) && (k == 0 ==> first == Newest(Last(tr)))
    ensures Run(cfg, longer) && SameButReader(cfg, Last(tr), Last(longer))
    ensures var rd' := Last(longer).ws[1].pc.rd;
            Fetched(cfg, Last(tr).ws[1].pc.rd, rd', k + 1, first, Newest(Last(tr))) && rd'.got != {}
  {
    FetchEffect(cfg, Last(tr), k, first);
    longer := ExtendSound(cfg, tr, 1, FetchLine(k));
  }

  lemma {:induction false} FetchAll(cfg: Config, tr: seq<State>, k: nat, first: nat) returns (longer: seq<State>)
    requires Run(cfg, tr) && cfg.KeepsPayload() && Calm(cfg, Last(tr)) && IsReading(Last(tr)) && k < cfg.lines
    requires HasLines(cfg, Last(tr).ws[1].pc.rd, k, first, Newest(Last(tr))) && (k == 0 ==> first == Newest(Last(tr)))
    ensures Run(cfg, longer) && SameButReader(cfg, Last(tr), Last(longer))
    ensures Fetched(cfg, Last(tr).ws[1].pc.rd, Last(longer).ws[1].pc.rd, cfg.lines, first, Newest(Last(tr)))
    decreases cfg.lines - k
  {
    longer := FetchOne(cfg, tr, k, first);
    if k + 1 < cfg.lines {
      longer := FetchAll(cfg, longer, k + 1, first);
    }
  }

  /** Exactly 2^64 commits overlap the accepted reader, and its copy is none of the tuples of the run. */
  ghost predicate NeverThere(s: State) {
    && 1 in s.ws && s.ws[1].pc.Accepted? && s.ws[1].pc.rd.high - s.ws[1].pc.rd.low == WORD
    && s.ws[1].pc.rd.buf !in s.hist
  }

  // ---- FaRM -------------------------------------------------------------------------------------------------

  /** The READs of the batch before the last one. */
  lemma {:induction false} Rounds(cfg: Config, tr: seq<State>) returns (longer: seq<State>)
    requires Wraps(cfg) && cfg.consistency.FaRM? && Run(cfg, tr) && AtFirst(cfg, Last(tr))
    requires var rd := Last(tr).ws[1].pc.rd; rd.stage == Fetch && rd.got == {} && 1 <= rd.round <= cfg.batch
    ensures Run(cfg, longer) && AtFirst(cfg, Last(longer))
    ensures var rd := Last(longer).ws[1].pc.rd; rd.stage == Fetch && rd.got == {} && rd.round == cfg.batch
    decreases cfg.batch - Last(tr).ws[1].pc.rd.round
  {
    longer := tr;
    if Last(tr).ws[1].pc.rd.round < cfg.batch {
      assert PcInv(cfg, Last(tr), Last(tr).ws[1].pc);
      longer := FetchAll(cfg, longer, 0, 0);
      longer := ExtendSound(cfg, longer, 1, NextRead);
      longer := Rounds(cfg, longer);
    }
  }

  /** Lines of tuples whose versions are equal as words are accepted. */
  lemma FaRMAccepts(cfg: Config, s: State, rd: Reading)
    requires Inv(cfg, s) && PcInv(cfg, s, Read(rd)) && cfg.consistency.FaRM?
    requires HasLines(cfg, rd, cfg.lines, 0, WORD) && |s.hist| == WORD + 1
    ensures Accepts(cfg, rd)
  {
    forall i | 0 <= i < cfg.Size() && i % LINE == 0 ensures rd.buf[i] == 0 {
      BufferWord(cfg, s, rd, i);
      VersionOf(cfg, s, rd.stamp[i / LINE], i);
    }
  }

  /** A FaRM reader of the first tuple has `k` lines, all but line 0 after 2^64 commits. */
  ghost predicate FaRMLate(cfg: Config, s: State, k: nat) {
    && cfg.Valid() && Inv(cfg, s) && IsReading(s) && cfg.consistency.FaRM? && cfg.lines >= 2
    && HasLines(cfg, s.ws[1].pc.rd, k, 0, WORD) && s.ws[1].pc.rd.round == cfg.batch && s.ws[1].pc.rd.low == 0
    && |s.hist| == WORD + 1 && s.hist[0] == seq(cfg.Size(), _ => 0)
    && (forall n :: 0 <= n < |s.ops| ==> s.ops[n] == Fill(7))
  }

  lemma FaRMOvertaken(cfg: Config) returns (tr: seq<State>)
    requires Wraps(cfg) && cfg.consistency.FaRM?
    ensures Run(cfg, tr) && FaRMLate(cfg, Last(tr), 1) && Calm(cfg, Last(tr))
  {
    tr := Begin(cfg);
    tr := Rounds(cfg, tr);
    assert PcInv(cfg, Last(tr), Last(tr).ws[1].pc);
    tr := FetchOne(cfg, tr, 0, 0);
    tr := Commits(cfg, tr, Fill(7), WORD);
  }

  lemma FaRMNeverThere(cfg: Config, s: State)
    requires FaRMLate(cfg, s, cfg.lines)
    ensures s.ws[1].pc.rd.buf !in s.hist
  {
    var rd := s.ws[1].pc.rd;
    assert PcInv(cfg, s, s.ws[1].pc);
    BufferWord(cfg, s, rd, 3);
    BufferWord(cfg, s, rd, 11);
    FilledWord(cfg, s, WORD, 7, 11);
    forall k | 0 <= k < |s.hist|
      ensures s.hist[k] != rd.buf
    {
      if k > 0 {
        FilledWord(cfg, s, k, 7, 3);
      }
    }
  }

  lemma FaRMWrap(cfg: Config) returns (tr: seq<State>)
    requires Wraps(cfg) && cfg.consistency.FaRM?
    ensures Run(cfg, tr) && Inv(cfg, Last(tr)) && NeverThere(Last(tr))
  {
    tr := FaRMOvertaken(cfg);
    assert 0 in Last(tr).ws[1].pc.rd.got;
    tr := FetchAll(cfg, tr, 1, 0);
    var s := Last(tr);
    assert PcInv(cfg, s, s.ws[1].pc);
    FaRMNeverThere(cfg, s);
    FaRMAccepts(cfg, s, s.ws[1].pc.rd);
    tr := ExtendSound(cfg, tr, 1, Decide);
  }

  // ---- V2 ---------------------------------------------------------------------------------------------------

  /** A V2 reader read version and lock at the first tuple and then the lines. */
  ghost predicate V2Waits(cfg: Config, s: State) {
    && cfg.Valid() && cfg.consistency.V2? && Calm(cfg, s) && IsReading(s)
    && s.ws[1].pc.rd.stage == Fetch && AllLines(cfg, s.ws[1].pc.rd.got)
    && s.ws[1].pc.rd.base == 0 == s.ws[1].pc.rd.low && s.ws[1].pc.rd.free
  }

  /** It read the lines at the second tuple. */
  ghost predicate V2Read(cfg: Config, s: State) {
    && V2Waits(cfg, s)
    && (forall l :: 0 <= l < cfg.lines && l < |s.ws[1].pc.rd.stamp| ==> s.ws[1].pc.rd.stamp[l] == 1)
    && |s.hist| >= 2 && s.hist[0] == seq(cfg.Size(), _ => 0) && s.ops[0] == Fill(1)
    && (forall n :: 1 <= n < |s.ops| ==> s.ops[n] == Fill(7))
  }

  lemma V2Starts(cfg: Config) returns (tr: seq<State>)
    requires Wraps(cfg) && cfg.consistency.V2?
    ensures Run(cfg, tr) && AtFirst(cfg, Last(tr))
    ensures var rd := Last(tr).ws[1].pc.rd; HasLines(cfg, rd, 0, 1, 1) && rd.base == 0 == rd.low && rd.free
  {
    tr := Begin(cfg);
    tr := ExtendSound(cfg, tr, 1, ReadControl);
    assert PcInv(cfg, Last(tr), Last(tr).ws[1].pc);
  }

  lemma V2Fetches(cfg: Config) returns (tr: seq<State>)
    requires Wraps(cfg) && cfg.consistency.V2?
    ensures Run(cfg, tr) && V2Read(cfg, Last(tr)) && |Last(tr).hist| == 2
  {
    tr := V2Starts(cfg);
    tr := Commit(cfg, tr, 0, Fill(1));
    tr := FetchAll(cfg, tr, 0, 1);
  }

  lemma V2Overtaken(cfg: Config) returns (tr: seq<State>)
    requires Wraps(cfg) && cfg.consistency.V2?
    ensures Run(cfg, tr) && V2Read(cfg, Last(tr)) && |Last(tr).hist| == WORD + 1
  {
    tr := V2Fetches(cfg);
    tr := Commits(cfg, tr, Fill(7), WORD - 1);
  }

  /** The version has returned to the value that the reader remembers. */
  ghost predicate V2Done(cfg: Config, s: State) {
    && cfg.Valid() && cfg.consistency.V2? && Inv(cfg, s) && IsReading(s) && s.ws[1].pc.rd.stage == Done
    && s.ws[1].pc.rd.high == WORD && s.ws[1].pc.rd.low == 0 && Accepts(cfg, s.ws[1].pc.rd)
  }

  lemma V2Checks(cfg: Config, tr: seq<State>) returns (longer: seq<State>)
    requires Run(cfg, tr) && cfg.KeepsPayload() && V2Waits(cfg, Last(tr))
    ensures Run(cfg, longer) && SameButReader(cfg, Last(tr), Last(longer))
    ensures var rd, rd' := Last(tr).ws[1].pc.rd, Last(longer).ws[1].pc.rd;
            rd' == rd.(stage := Recheck, prev := 0) && rd.buf[cfg.LockIndex()] == 0 && AllLines(cfg, rd.got)
  {
    assert PcInv(cfg, Last(tr), Last(tr).ws[1].pc);
    longer := ExtendSound(cfg, tr, 1, CheckFirst);
  }

  lemma RereadAccepts(cfg: Config, s: State)
    requires cfg.Valid() && Calm(cfg, s) && IsReading(s) && cfg.consistency.V2? && |s.hist| == WORD + 1
    requires var rd := s.ws[1].pc.rd; rd.stage == Recheck && rd.prev == 0 && rd.buf[cfg.LockIndex()] == 0
    ensures Accepts(cfg, ReadAgainStep(cfg, s, 1).ws[1].pc.rd)
  {
    VersionOf(cfg, s, WORD, cfg.VersionIndex());
  }

  lemma V2Rereads(cfg: Config, tr: seq<State>) returns (longer: seq<State>)
    requires Run(cfg, tr) && cfg.KeepsPayload() && V2Waits(cfg, Last(tr)) && |Last(tr).hist| == WORD + 1
    ensures Run(cfg, longer) && V2Done(cfg, Last(longer))
    ensures Last(longer).hist == Last(tr).hist && Last(longer).ops == Last(tr).ops
    ensures Last(longer).ws[1].pc.rd.stamp == Last(tr).ws[1].pc.rd.stamp
  {
    longer := V2Checks(cfg, tr);
    RereadAccepts(cfg, Last(longer));
    longer := ExtendSound(cfg, longer, 1, ReadAgain);
  }

  lemma V2NeverThere(cfg: Config, s: State)
    requires V2Done(cfg, s) && |s.hist| == WORD + 1
    requires forall l :: 0 <= l < cfg.lines && l < |s.ws[1].pc.rd.stamp| ==> s.ws[1].pc.rd.stamp[l] == 1
    requires s.hist[0] == seq(cfg.Size(), _ => 0) && s.ops[0] == Fill(1)
    requires forall n :: 1 <= n < |s.ops| ==> s.ops[n] == Fill(7)
    ensures s.ws[1].pc.rd.buf !in s.hist
  {
    var rd, v := s.ws[1].pc.rd, cfg.VersionIndex();
    assert PcInv(cfg, s, s.ws[1].pc);
    BufferWord(cfg, s, rd, 3);
    FilledWord(cfg, s, 1, 1, 3);
    VersionOf(cfg, s, 1, v);
    forall k | 0 <= k < |s.hist|
      ensures s.hist[k] != rd.buf
    {
      if k > 1 {
        FilledWord(cfg, s, k, 7, 3);
      }
    }
  }

  lemma V2Wrap(cfg: Config) returns (tr: seq<State>)
    requires Wraps(cfg) && cfg.consistency.V2?
    ensures Run(cfg, tr) && Inv(cfg, Last(tr)) && NeverThere(Last(tr))
  {
    tr := V2Overtaken(cfg);
    var s := Last(tr);
    tr := V2Rereads(cfg, tr);
    V2NeverThere(cfg, Last(tr));
    tr := ExtendSound(cfg, tr, 1, Decide);
  }

  /** A run in which exactly 2^64 commits overlap an accepted read of a tuple that never existed. */
  lemma ProvisoIsSharp(cfg: Config) returns (tr: seq<State>)
    requires Wraps(cfg)
    ensures Run(cfg, tr) && Inv(cfg, Last(tr)) && NeverThere(Last(tr))
  {
    if cfg.consistency.FaRM? {
      tr := FaRMWrap(cfg);
    } else {
      tr := V2Wrap(cfg);
    }
  }
}
