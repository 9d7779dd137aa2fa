/** What the optimistic tuple protocols promise over whole runs: accepted reads are linearizable, writers are
    serial and lose nothing, and the consistency experiment never finds a corrupt tuple. */
module OptimisticLinearizability {
  import opened Words
  import opened TupleLayout
  import opened OptimisticProtocol

  // ---- one state ------------------------------------------------------------------------------------------

  lemma InitInv(cfg: Config, s: State)
    requires Init(cfg, s)
    ensures Inv(cfg, s)
  {
  }

  /** A word of the local copy, traced back to the commit of its line. */
  lemma BufferWord(cfg: Config, s: State, rd: Reading, i: nat)
    requires cfg.Valid() && HistInv(cfg, s) && ReadingInv(cfg, s, rd) && AllLines(cfg, rd.got)
    requires i < cfg.Size() && InBulkRead(cfg, i) && i != cfg.LockIndex()
    ensures rd.stamp[i / LINE] < |s.hist| && rd.buf[i] == s.hist[rd.stamp[i / LINE]][i]
  {
    assert i / LINE in rd.got;
  }

  /** FaRM: agreeing line versions and a free lock word leave one commit that all lines belong to. */
  lemma FaRMLinesAgree(cfg: Config, s: State, rd: Reading, l: nat)
    requires cfg.Valid() && HistInv(cfg, s) && ReadingInv(cfg, s, rd) && AllLines(cfg, rd.got)
    requires cfg.consistency.FaRM? && VersionsAgree(rd.buf) && rd.high - rd.low < WORD && l < cfg.lines
    ensures rd.stamp[l] == rd.base
  {
    var lockLine := cfg.LockIndex() / LINE;
    BufferWord(cfg, s, rd, LINE * l);
    BufferWord(cfg, s, rd, LINE * lockLine);
    assert rd.buf[LINE * l] == rd.buf[LINE * lockLine];
    VersionOf(cfg, s, rd.stamp[l], LINE * l);
    VersionOf(cfg, s, rd.base, LINE * lockLine);
    SameCounter(rd.stamp[l], rd.base);
  }

  /** V2: an unchanged version and a free lock word pin every line to the commit of the first small READ. */
  lemma V2LinesAgree(cfg: Config, s: State, rd: Reading, l: nat)
    requires cfg.Valid() && HistInv(cfg, s) && ReadingInv(cfg, s, rd) && AllLines(cfg, rd.got)
    requires cfg.consistency.V2? && rd.stage == Done && Accepts(cfg, rd)
    requires rd.high - rd.low < WORD && l < cfg.lines
    ensures rd.stamp[l] == rd.base == rd.vstamp
  {
    SameCounter(rd.base, rd.vstamp);
  }

  /** Fewer than 2^64 commits overlap. A FaRM tuple of one line needs no bound: it is read at one instant. */
  ghost predicate InBound(cfg: Config, rd: Reading) {
    rd.high - rd.low < WORD || (cfg.consistency.FaRM? && cfg.lines == 1)
  }

  lemma AcceptedBuffer(cfg: Config, s: State, rd: Reading)
    requires Inv(cfg, s) && PcInv(cfg, s, Accepted(rd)) && InBound(cfg, rd)
    ensures rd.free && rd.base < |s.hist| && rd.buf == s.hist[rd.base]
  {
    assert 0 in rd.got && cfg.LockIndex() / LINE in rd.got;
    forall l | 0 <= l < cfg.lines ensures rd.stamp[l] == rd.base {
      if cfg.consistency.FaRM? && cfg.lines == 1 {
        assert l == 0 == cfg.LockIndex() / LINE;
      } else if cfg.consistency.FaRM? {
        FaRMLinesAgree(cfg, s, rd, l);
      } else {
        V2LinesAgree(cfg, s, rd, l);
      }
    }
    forall i | 0 <= i < cfg.Size() ensures rd.buf[i] == s.hist[rd.base][i] {
      if InBulkRead(cfg, i) && i != cfg.LockIndex() {
        BufferWord(cfg, s, rd, i);
      } else if i != cfg.LockIndex() {
        VersionOf(cfg, s, rd.base, i);
      }
    }
  }

  /** FaRM: lines of one commit have agreeing versions. */
  lemma FaRMVersionsFollow(cfg: Config, s: State, rd: Reading)
    requires cfg.Valid() && HistInv(cfg, s) && ReadingInv(cfg, s, rd) && AllLines(cfg, rd.got)
    requires cfg.consistency.FaRM? && forall l :: 0 <= l < cfg.lines ==> rd.stamp[l] == rd.base
    ensures VersionsAgree(rd.buf)
  {
    forall i | 0 <= i < cfg.Size() && i % LINE == 0 ensures rd.buf[i] == rd.base % WORD {
      BufferWord(cfg, s, rd, i);
      VersionOf(cfg, s, rd.base, i);
    }
  }

  /** Restarts are exact: the decision accepts if and only if every line and the compared versions belong to one
      commit and the lock word was read as free (with V2 and a footer, at both small READs). */
  lemma AcceptsExactly(cfg: Config, tr: seq<State>, j: nat, w: Id)
    requires Run(cfg, tr) && cfg.KeepsPayload() && j < |tr| && Enabled(cfg, tr[j], w, Decide)
    requires var rd := tr[j].ws[w].pc.rd; rd.high - rd.low < WORD
    ensures var rd := tr[j].ws[w].pc.rd; |rd.buf| == cfg.Size() && |rd.stamp| == cfg.lines
    ensures var rd := tr[j].ws[w].pc.rd;
      Accepts(cfg, rd) <==>
        && rd.free
        && (forall l :: 0 <= l < cfg.lines ==> rd.stamp[l] == rd.base)
        && (cfg.consistency.V2? ==> rd.vstamp == rd.base && rd.buf[cfg.LockIndex()] == 0)
  {
    RunInv(cfg, tr, j);
    var s, rd := tr[j], tr[j].ws[w].pc.rd;
    assert WorkerInv(cfg, s, s.ws[w]);
    assert cfg.LockIndex() / LINE in rd.got;
    if Accepts(cfg, rd) {
      forall l | 0 <= l < cfg.lines ensures rd.stamp[l] == rd.base {
        if cfg.consistency.FaRM? { FaRMLinesAgree(cfg, s, rd, l); } else { V2LinesAgree(cfg, s, rd, l); }
      }
    }
    if cfg.consistency.FaRM? {
      if forall l :: 0 <= l < cfg.lines ==> rd.stamp[l] == rd.base {
        FaRMVersionsFollow(cfg, s, rd);
      }
    } else {
      SameCounter(rd.base, rd.vstamp);
    }
  }

  // ---- refinement of an atomic tuple ------------------------------------------------------------------------

  /** The two kinds of step that hand the lock back: HeaderLock's fetch-and-add, FooterLock's last line. */
  ghost predicate Releases(cfg: Config, s: State, w: Id, a: Action)
    requires Shaped(cfg, s) && Enabled(cfg, s, w, a)
  {
    a.ExecRelease? || (a.LandLine? && cfg.position.Footer? && s.ws[w].pending.landed + 1 == cfg.lines)
  }

  lemma PublishIsInvisible(cfg: Config, s: State, w: Id)
    requires Inv(cfg, s) && Enabled(cfg, s, w, Publish)
    ensures Committed(PublishStep(cfg, s, w)) == Committed(s)
  {
    var s' := PublishStep(cfg, s, w);
    assert s.owner == Some(w);
    assert s'.hist[|s'.hist| - 2] == s.hist[Newest(s)];
  }

  lemma ReleaseCommits(cfg: Config, s: State, s': State, w: Id)
    requires Inv(cfg, s) && w in s.ws && s.ws[w].pending != Nothing
    requires s' == s.(mem := s'.mem, ws := s.ws[w := s.ws[w].(pending := Nothing)], owner := None, clock := s'.clock)
    ensures Committed(s') == AfterCommit(cfg, s.ws[w].pending.f, Committed(s))
  {
    assert WorkerInv(cfg, s, s.ws[w]) && s.owner == Some(w);
  }

  lemma ReleasingStepCommits(cfg: Config, s: State, w: Id, a: Action)
    requires Inv(cfg, s) && Enabled(cfg, s, w, a) && Releases(cfg, s, w, a)
    ensures |Apply(cfg, s, w, a).hist| >= 1
    ensures Committed(Apply(cfg, s, w, a)) == AfterCommit(cfg, s.ws[w].pending.f, Committed(s))
  {
    ReleaseCommits(cfg, s, Apply(cfg, s, w, a), w);
  }

  /** Every other step leaves the history, and who is between WRITE and release. */
  lemma OtherStepsKeepPending(cfg: Config, s: State, w: Id, a: Action)
    requires Inv(cfg, s) && Enabled(cfg, s, w, a) && !a.Publish? && !Releases(cfg, s, w, a)
    ensures var s' := Apply(cfg, s, w, a);
            && s'.hist == s.hist && w in s'.ws && s'.ws == s.ws[w := s'.ws[w]]
            && (s'.ws[w].pending == Nothing <==> s.ws[w].pending == Nothing)
            && (s'.owner == s.owner || (s.owner == None && s'.owner == Some(w) && s.ws[w].pending == Nothing))
  {
    assert Holds(s.ws[w]) ==> s.owner == Some(w);
  }

  lemma OtherStepsCommitNothing(cfg: Config, s: State, w: Id, a: Action)
    requires Inv(cfg, s) && Enabled(cfg, s, w, a) && !a.Publish? && !Releases(cfg, s, w, a)
    ensures var s' := Apply(cfg, s, w, a); |s'.hist| >= 1 && Committed(s') == Committed(s)
  {
    OtherStepsKeepPending(cfg, s, w, a);
  }

  /** Forward simulation: a releasing step applies its worker's update to the committed tuple, atomically;
      no other step changes the committed tuple. */
  lemma StepRefinesAtomicTuple(cfg: Config, s: State, w: Id, a: Action)
    requires Inv(cfg, s) && Enabled(cfg, s, w, a)
    ensures |Apply(cfg, s, w, a).hist| >= 1
    ensures Committed(Apply(cfg, s, w, a)) ==
      if Releases(cfg, s, w, a) then AfterCommit(cfg, s.ws[w].pending.f, Committed(s)) else Committed(s)
  {
    if a.Publish? {
      PublishIsInvisible(cfg, s, w);
    } else if Releases(cfg, s, w, a) {
      ReleasingStepCommits(cfg, s, w, a);
    } else {
      OtherStepsCommitNothing(cfg, s, w, a);
    }
  }

  // ---- runs -------------------------------------------------------------------------------------------------

  ghost function Last(tr: seq<State>): State
    requires |tr| >= 1
  {
    tr[|tr| - 1]
  }

  /** One more step of a run. */
  lemma Extend(cfg: Config, tr: seq<State>, w: Id, a: Action) returns (longer: seq<State>)
    requires Run(cfg, tr) && Shaped(cfg, Last(tr)) && Enabled(cfg, Last(tr), w, a)
    ensures Run(cfg, longer) && longer == tr + [Apply(cfg, Last(tr), w, a)] && Shaped(cfg, Last(longer))
  {
    longer := tr + [Apply(cfg, Last(tr), w, a)];
    StepKeepsShape(cfg, Last(tr), w, a);
    assert StepBy(cfg, Last(tr), w, a, Last(longer));
    assert Next(cfg, Last(tr), Last(longer));
    forall i | 0 <= i < |longer| - 1
      ensures StepAt(cfg, longer, i)
    {
      if i < |tr| - 1 {
        assert StepAt(cfg, tr, i);
      }
    }
  }

  lemma {:induction false} RunInv(cfg: Config, tr: seq<State>, j: nat)
    requires Run(cfg, tr) && cfg.KeepsPayload() && j < |tr|
    ensures Inv(cfg, tr[j]) && tr[j].clock == j
  {
    if j == 0 {
      InitInv(cfg, tr[0]);
    } else {
      RunInv(cfg, tr, j - 1);
      assert StepAt(cfg, tr, j - 1);
      NextKeepsInv(cfg, tr[j - 1], tr[j]);
    }
  }

  /** A run of the protocol is a run of an atomic tuple: each step is silent or applies one update to the whole
      committed tuple. */
  lemma RunRefinesAtomicTuple(cfg: Config, tr: seq<State>, i: nat) returns (w: Id, a: Action)
    requires Run(cfg, tr) && cfg.KeepsPayload() && i + 1 < |tr|
    ensures StepBy(cfg, tr[i], w, a, tr[i + 1]) && |tr[i + 1].hist| >= 1
    ensures |Committed(tr[i])| == cfg.Size()
    ensures Committed(tr[i + 1]) ==
      if Releases(cfg, tr[i], w, a) then AfterCommit(cfg, tr[i].ws[w].pending.f, Committed(tr[i])) else Committed(tr[i])
  {
    RunInv(cfg, tr, i);
    assert StepAt(cfg, tr, i);
    w, a :| StepBy(cfg, tr[i], w, a, tr[i + 1]);
    StepRefinesAtomicTuple(cfg, tr[i], w, a);
  }

  /** Published tuples are never rewritten. */
  lemma {:induction false} HistoryPrefix(cfg: Config, tr: seq<State>, i: nat, j: nat)
    requires Run(cfg, tr) && i <= j < |tr|
    ensures tr[i].hist <= tr[j].hist && tr[i].ops <= tr[j].ops
    decreases j - i
  {
    if i < j {
      HistoryPrefix(cfg, tr, i, j - 1);
      assert StepAt(cfg, tr, j - 1);
      var w, a :| StepBy(cfg, tr[j - 1], w, a, tr[j]);
      StepTicks(cfg, tr[j - 1], w, a);
    }
  }

  ghost predicate Reads(x: Worker) {
    x.pc.Read? || x.pc.Accepted?
  }

  ghost predicate Opened(cfg: Config, rd: Reading) {
    if cfg.consistency.FaRM? then rd.got != {} else rd.stage != Control
  }

  ghost predicate SawLock(cfg: Config, rd: Reading)
    requires cfg.Valid()
  {
    if cfg.consistency.FaRM? then cfg.LockIndex() / LINE in rd.got else rd.stage != Control
  }

  /** The reader's history variables mean what they are called, in terms of the states of the run. */
  ghost predicate Dated(cfg: Config, tr: seq<State>, j: nat, w: Id)
    requires cfg.Valid() && j < |tr| && w in tr[j].ws && Reads(tr[j].ws[w])
  {
    var rd := tr[j].ws[w].pc.rd;
    && rd.began < j
    && (forall i :: rd.began < i <= j ==> w in tr[i].ws && Reads(tr[i].ws[w]) && tr[i].ws[w].pc.rd.began == rd.began)
    && (Opened(cfg, rd) ==>
          && rd.began < rd.first <= rd.last < j
          && |tr[rd.first].hist| >= 1 && rd.low == CommittedIndex(tr[rd.first])
          && |tr[rd.last].hist| >= 1 && rd.high == Newest(tr[rd.last]))
    && (SawLock(cfg, rd) ==>
          && rd.first <= rd.at <= rd.last && (cfg.consistency.V2? ==> rd.at == rd.first)
          && |tr[rd.at].hist| >= 1 && rd.base == Epoch(tr[rd.at], cfg.LockIndex() / LINE)
          && (rd.free <==> tr[rd.at].owner == None))
  }

  lemma OtherWorkers(cfg: Config, s: State, u: Id, a: Action, w: Id)
    requires Shaped(cfg, s) && Enabled(cfg, s, u, a) && u != w
    ensures var ws' := Apply(cfg, s, u, a).ws; w in ws' <==> w in s.ws
    ensures w in s.ws ==> Apply(cfg, s, u, a).ws[w] == s.ws[w]
  {
  }

  /** Somebody else's step. */
  lemma DatedOther(cfg: Config, tr: seq<State>, j: nat, w: Id)
    requires cfg.Valid() && j + 1 < |tr|
    requires w in tr[j].ws && w in tr[j + 1].ws && tr[j + 1].ws[w] == tr[j].ws[w]
    requires Reads(tr[j].ws[w]) && Dated(cfg, tr, j, w)
    ensures Dated(cfg, tr, j + 1, w)
  {
  }

  /** The first step of a reader. */
  lemma DatedBegin(cfg: Config, tr: seq<State>, j: nat, a: Action, w: Id)
    requires cfg.Valid() && j + 1 < |tr| && Inv(cfg, tr[j]) && tr[j].clock == j
    requires StepBy(cfg, tr[j], w, a, tr[j + 1])
    requires Reads(tr[j + 1].ws[w]) && !Reads(tr[j].ws[w])
    ensures Dated(cfg, tr, j + 1, w)
  {
  }

  /** One step of a reader: each history variable is kept or set to what the present state says. */
  ghost predicate Follows(cfg: Config, s: State, rd: Reading, rd': Reading)
    requires cfg.Valid() && |s.hist| >= 1
  {
    && rd'.began == rd.began
    && (Opened(cfg, rd') ==>
          || (Opened(cfg, rd) && rd'.first == rd.first && rd'.low == rd.low)
          || (rd'.first == rd'.last == s.clock && rd'.low == CommittedIndex(s) && rd'.high == Newest(s)))
    && (Opened(cfg, rd') ==>
          || (Opened(cfg, rd) && rd'.last == rd.last && rd'.high == rd.high)
          || (rd'.last == s.clock && rd'.high == Newest(s)))
    && (SawLock(cfg, rd') ==>
          || (SawLock(cfg, rd) && rd'.first == rd.first && rd'.at == rd.at
              && rd'.base == rd.base && rd'.free == rd.free)
          || (rd'.at == s.clock == rd'.last && rd'.base == Epoch(s, cfg.LockIndex() / LINE)
              && rd'.free == (s.owner == None) && (cfg.consistency.V2? ==> rd'.first == s.clock)))
  }

  lemma FetchFollows(cfg: Config, s: State, w: Id, l: nat)
    requires Inv(cfg, s) && Enabled(cfg, s, w, FetchLine(l))
    ensures Follows(cfg, s, s.ws[w].pc.rd, FetchStep(cfg, s, w, l).ws[w].pc.rd)
  {
    assert WorkerInv(cfg, s, s.ws[w]);
  }

  lemma ReaderFollows(cfg: Config, s: State, w: Id, a: Action)
    requires Inv(cfg, s) && Enabled(cfg, s, w, a) && Reads(s.ws[w]) && Reads(Apply(cfg, s, w, a).ws[w])
    ensures Follows(cfg, s, s.ws[w].pc.rd, Apply(cfg, s, w, a).ws[w].pc.rd)
  {
    if a.FetchLine? {
      FetchFollows(cfg, s, w, a.line);
    } else {
      assert WorkerInv(cfg, s, s.ws[w]);
    }
  }

  lemma DatedStep(cfg: Config, tr: seq<State>, j: nat, w: Id)
    requires cfg.Valid() && j + 1 < |tr| && |tr[j].hist| >= 1 && tr[j].clock == j
    requires w in tr[j].ws && w in tr[j + 1].ws && Reads(tr[j].ws[w]) && Reads(tr[j + 1].ws[w])
    requires Follows(cfg, tr[j], tr[j].ws[w].pc.rd, tr[j + 1].ws[w].pc.rd) && Dated(cfg, tr, j, w)
    ensures Dated(cfg, tr, j + 1, w)
  {
  }

  lemma DatedNext(cfg: Config, tr: seq<State>, j: nat, w: Id)
    requires cfg.Valid() && j + 1 < |tr| && Inv(cfg, tr[j]) && tr[j].clock == j && StepAt(cfg, tr, j)
    requires w in tr[j + 1].ws && Reads(tr[j + 1].ws[w])
    requires w in tr[j].ws && Reads(tr[j].ws[w]) ==> Dated(cfg, tr, j, w)
    ensures Dated(cfg, tr, j + 1, w)
  {
    var u, a :| StepBy(cfg, tr[j], u, a, tr[j + 1]);
    if u != w {
      OtherWorkers(cfg, tr[j], u, a, w);
      DatedOther(cfg, tr, j, w);
    } else if Reads(tr[j].ws[w]) {
      ReaderFollows(cfg, tr[j], w, a);
      DatedStep(cfg, tr, j, w);
    } else {
      DatedBegin(cfg, tr, j, a, w);
    }
  }

  lemma NobodyReadsAtFirst(cfg: Config, s: State, w: Id)
    requires Init(cfg, s) && w in s.ws
    ensures !Reads(s.ws[w])
  {
    assert s.ws[w] == Worker(Idle, Nothing);
  }

  /** One step of a run. */
  lemma DatedInRun(cfg: Config, tr: seq<State>, j: nat, w: Id)
    requires Run(cfg, tr) && cfg.KeepsPayload() && j + 1 < |tr| && w in tr[j + 1].ws && Reads(tr[j + 1].ws[w])
    requires w in tr[j].ws && Reads(tr[j].ws[w]) ==> Dated(cfg, tr, j, w)
    ensures Dated(cfg, tr, j + 1, w)
  {
    RunInv(cfg, tr, j);
    assert StepAt(cfg, tr, j);
    DatedNext(cfg, tr, j, w);
  }

  lemma {:induction false} RunDated(cfg: Config, tr: seq<State>, j: nat, w: Id)
    requires Run(cfg, tr) && cfg.KeepsPayload() && j < |tr| && w in tr[j].ws && Reads(tr[j].ws[w])
    ensures Dated(cfg, tr, j, w)
  {
    if j == 0 {
      NobodyReadsAtFirst(cfg, tr[0], w);
    } else {
      if w in tr[j - 1].ws && Reads(tr[j - 1].ws[w]) {
        RunDated(cfg, tr, j - 1, w);
      }
      DatedInRun(cfg, tr, j - 1, w);
    }
  }

  /** Linearizability of accepted reads. The local copy of an accepted reader is, word for word, the memory and the
      committed tuple at the instant at which the lock word was fetched. That instant lies between the first and the
      last fetch of the last READ, inside the reader's own operation; for V2 it is the first fetch, the small READ of
      version and lock. The proviso is that fewer than 2^64 commits overlap: published by the last fetch but not
      finished at the first. A FaRM tuple of one line needs none (`OptimisticPromises.UnboundedExactly`). */
  lemma AcceptedReadIsLinearizable(cfg: Config, tr: seq<State>, j: nat, w: Id)
    requires Run(cfg, tr) && cfg.KeepsPayload() && j < |tr| && w in tr[j].ws && tr[j].ws[w].pc.Accepted?
    requires InBound(cfg, tr[j].ws[w].pc.rd)
    ensures var rd := tr[j].ws[w].pc.rd;
      && rd.began < rd.first <= rd.at <= rd.last < j && (cfg.consistency.V2? ==> rd.at == rd.first)
      && (forall i :: rd.began < i <= j ==>
            w in tr[i].ws && Reads(tr[i].ws[w]) && tr[i].ws[w].pc.rd.began == rd.began)
      && |tr[rd.first].hist| >= 1 && rd.low == CommittedIndex(tr[rd.first])
      && |tr[rd.last].hist| >= 1 && rd.high == Newest(tr[rd.last])
      && |tr[rd.at].hist| >= 1 && tr[rd.at].owner == None
      && rd.buf == tr[rd.at].mem == Committed(tr[rd.at])
  {
    var rd := tr[j].ws[w].pc.rd;
    RunInv(cfg, tr, j);
    RunDated(cfg, tr, j, w);
    assert WorkerInv(cfg, tr[j], tr[j].ws[w]);
    assert 0 in rd.got && cfg.LockIndex() / LINE in rd.got;
    AcceptedBuffer(cfg, tr[j], rd);
    RunInv(cfg, tr, rd.at);
    FreeMemory(cfg, tr[rd.at]);
    HistoryPrefix(cfg, tr, rd.at, j);
  }

  // ---- writers ----------------------------------------------------------------------------------------------

  /** All updates applied one after the other to the zero tuple. */
  ghost function Replay(cfg: Config, ops: seq<Update>): (t: Tuple)
    requires cfg.Valid()
    ensures |t| == cfg.Size()
  {
    if ops == [] then seq(cfg.Size(), _ => 0)
    else AfterCommit(cfg, ops[|ops| - 1], Replay(cfg, ops[..|ops| - 1]))
  }

  lemma {:induction false} HistoryIsReplay(cfg: Config, s: State, k: nat)
    requires Inv(cfg, s) && k < |s.hist| && s.hist[0] == seq(cfg.Size(), _ => 0)
    ensures s.hist[k] == Replay(cfg, s.ops[..k])
  {
    if k > 0 {
      HistoryIsReplay(cfg, s, k - 1);
      assert s.ops[..k][..k - 1] == s.ops[..k - 1];
    }
  }

  /** Writers are serial where no store reaches a pending WRITE: in every reachable state tuple number n is, with its
      version, the result of the first n published updates in order, and a free tuple holds the result of all. */
  lemma WritersAreSerial(cfg: Config, tr: seq<State>, j: nat)
    requires Run(cfg, tr) && cfg.KeepsPayload() && j < |tr|
    ensures |tr[j].hist| == |tr[j].ops| + 1
    ensures forall k :: 0 <= k < |tr[j].hist| ==> tr[j].hist[k] == Replay(cfg, tr[j].ops[..k])
    ensures tr[j].owner == None ==> tr[j].mem == Replay(cfg, tr[j].ops)
  {
    RunInv(cfg, tr, j);
    HistoryPrefix(cfg, tr, 0, j);
    var s := tr[j];
    forall k | 0 <= k < |s.hist| ensures s.hist[k] == Replay(cfg, s.ops[..k]) {
      HistoryIsReplay(cfg, s, k);
    }
    assert s.ops[..|s.ops|] == s.ops;
    if s.owner == None {
      FreeMemory(cfg, s);
    }
  }

  /** FaRM: in every reachable state the line versions are a prefix at n + 1 and a suffix at n, for the number n
      of the committed tuple; with a free lock all of them are n. */
  lemma FaRMVersionsArePrefix(cfg: Config, tr: seq<State>, j: nat) returns (k: nat)
    requires Run(cfg, tr) && j < |tr| && cfg.consistency.FaRM?
    ensures |tr[j].mem| == cfg.Size() && |tr[j].hist| >= 1 && k <= cfg.lines
    ensures forall l :: 0 <= l < cfg.lines ==>
      tr[j].mem[LINE * l] == (CommittedIndex(tr[j]) + if l < k then 1 else 0) % WORD
    ensures tr[j].owner == None ==> k == 0
  {
    RunInv(cfg, tr, j);
    var s := tr[j];
    k := if IsLanding(s) then s.ws[s.owner.value].pending.landed else if Committing(s) then cfg.lines else 0;
    forall l | 0 <= l < cfg.lines
      ensures s.mem[LINE * l] == (CommittedIndex(s) + if l < k then 1 else 0) % WORD
    {
      VersionOf(cfg, s, Epoch(s, l), LINE * l);
    }
  }

  // ---- the consistency experiment ---------------------------------------------------------------------------

  /** `f` is run_check's update: it increments words 3, 4 and 5 of every line. */
  ghost predicate IsIncrement(f: Update) {
    forall t: Tuple, i: nat :: i < |t| ==> f(t, i) == Incremented(t)[i]
  }

  /** run_check's update. */
  const INCREMENT: Update := (t: Tuple, i: nat) => if i >= |t| then 0 else if IsField(i) then Plus(t[i], 1) else t[i]

  lemma IncrementBumpsField(cfg: Config, f: Update, t: Tuple, i: nat)
    requires cfg.Valid() && |t| == cfg.Size() && IsIncrement(f) && i < cfg.Size() && IsField(i)
    ensures AfterCommit(cfg, f, t)[i] == Plus(t[i], 1)
  {
    var locked := t[cfg.LockIndex() := 1];
    var e := Edited(cfg, f, locked);
    assert cfg.IsData(i) && locked[i] == t[i];
    assert e[i] == f(locked, i) == Incremented(locked)[i];
    assert Payload(cfg, e)[i] == e[i];
  }

  /** Every field counts the increments, as the versions do. */
  lemma {:induction false} FieldsCount(cfg: Config, ops: seq<Update>, i: nat)
    requires cfg.Valid() && (forall k :: 0 <= k < |ops| ==> IsIncrement(ops[k])) && i < cfg.Size() && IsField(i)
    ensures Replay(cfg, ops)[i] == |ops| % WORD
  {
    if ops != [] {
      var n := |ops| - 1;
      FieldsCount(cfg, ops[..n], i);
      IncrementBumpsField(cfg, ops[n], Replay(cfg, ops[..n]), i);
      PlusMod(n, 1);
    }
  }

  /** A field of tuple `k`. */
  lemma FieldOf(cfg: Config, s: State, k: nat, i: nat)
    requires Inv(cfg, s) && k < |s.hist| && s.hist[0] == seq(cfg.Size(), _ => 0) && i < cfg.Size() && IsField(i)
    requires forall n :: 0 <= n < |s.ops| ==> IsIncrement(s.ops[n])
    ensures s.hist[k][i] == k % WORD
  {
    HistoryIsReplay(cfg, s, k);
    FieldsCount(cfg, s.ops[..k], i);
  }

  /** A field of the reader's copy is the number of its line's tuple. */
  lemma FieldRead(cfg: Config, s: State, rd: Reading, i: nat)
    requires Inv(cfg, s) && ReadingInv(cfg, s, rd) && AllLines(cfg, rd.got)
    requires s.hist[0] == seq(cfg.Size(), _ => 0) && i < cfg.Size() && IsField(i)
    requires forall n :: 0 <= n < |s.ops| ==> IsIncrement(s.ops[n])
    ensures rd.buf[i] == rd.stamp[i / LINE] % WORD
  {
    assert cfg.IsData(i);
    BufferWord(cfg, s, rd, i);
    FieldOf(cfg, s, rd.stamp[i / LINE], i);
  }

  /** FaRM compares in each line a version that counts as the line's fields do. */
  lemma FaRMFieldsEqual(cfg: Config, s: State, rd: Reading)
    requires Inv(cfg, s) && PcInv(cfg, s, Accepted(rd)) && cfg.consistency.FaRM?
    requires s.hist[0] == seq(cfg.Size(), _ => 0) && forall n :: 0 <= n < |s.ops| ==> IsIncrement(s.ops[n])
    ensures FieldsEqual(rd.buf)
  {
    forall i | 0 <= i < cfg.Size() && IsField(i)
      ensures rd.buf[i] == rd.buf[0]
    {
      var v := LINE * (i / LINE);
      FieldRead(cfg, s, rd, i);
      BufferWord(cfg, s, rd, v);
      VersionOf(cfg, s, rd.stamp[i / LINE], v);
    }
    assert IsField(3);
  }

  /** All fields of the copy are as old as line 0. */
  lemma FieldsOfLineZero(cfg: Config, s: State, rd: Reading)
    requires Inv(cfg, s) && ReadingInv(cfg, s, rd) && AllLines(cfg, rd.got)
    requires s.hist[0] == seq(cfg.Size(), _ => 0) && forall n :: 0 <= n < |s.ops| ==> IsIncrement(s.ops[n])
    requires forall l :: 0 <= l < cfg.lines ==> rd.stamp[l] == rd.stamp[0]
    ensures FieldsEqual(rd.buf)
  {
    forall i | 0 <= i < cfg.Size() && IsField(i)
      ensures rd.buf[i] == rd.stamp[0] % WORD
    {
      FieldRead(cfg, s, rd, i);
    }
    assert IsField(3);
  }

  lemma V2FieldsEqual(cfg: Config, s: State, rd: Reading)
    requires Inv(cfg, s) && PcInv(cfg, s, Accepted(rd)) && cfg.consistency.V2?
    requires s.hist[0] == seq(cfg.Size(), _ => 0) && forall n :: 0 <= n < |s.ops| ==> IsIncrement(s.ops[n])
    requires cfg.lines == 1 || rd.high - rd.low < WORD
    ensures FieldsEqual(rd.buf)
  {
    if cfg.lines > 1 {
      forall l | 0 <= l < cfg.lines ensures rd.stamp[l] == rd.base {
        V2LinesAgree(cfg, s, rd, l);
      }
    }
    FieldsOfLineZero(cfg, s, rd);
  }

  /** Where the experiment needs no bound: FaRM's versions or the single line keep the fields together. */
  predicate Unbounded(cfg: Config) {
    cfg.consistency.FaRM? || cfg.lines == 1
  }

  /** When every writer runs run_check's increments, no accepted reader reaches "Read consistency check failed", in any
      run. V2 with several lines needs the bound on overlapping commits (`OptimisticThrow`), FaRM and a single line
      none. */
  lemma ConsistencyCheckNeverFails(cfg: Config, tr: seq<State>, j: nat, w: Id)
    requires Run(cfg, tr) && cfg.KeepsPayload() && j < |tr| && w in tr[j].ws && tr[j].ws[w].pc.Accepted?
    requires Unbounded(cfg) || tr[j].ws[w].pc.rd.high - tr[j].ws[w].pc.rd.low < WORD
    requires forall k :: 0 <= k < |tr[j].ops| ==> IsIncrement(tr[j].ops[k])
    ensures |tr[j].ws[w].pc.rd.buf| >= LINE && FieldsEqual(tr[j].ws[w].pc.rd.buf)
  {
    RunInv(cfg, tr, j);
    var rd := tr[j].ws[w].pc.rd;
    assert WorkerInv(cfg, tr[j], tr[j].ws[w]);
    HistoryPrefix(cfg, tr, 0, j);
    if cfg.consistency.FaRM? {
      FaRMFieldsEqual(cfg, tr[j], rd);
    } else {
      V2FieldsEqual(cfg, tr[j], rd);
    }
  }
}
