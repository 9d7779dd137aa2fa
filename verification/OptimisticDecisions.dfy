/** The decisions of the optimistic protocols, in both directions: who wins the compare-and-swap, when a reader's
    checks of the lock restart it, traced back to the instant at which it fetched the lock word, and that nobody
    restarts without a cause. */
module OptimisticDecisions {
  import opened Words
  import opened TupleLayout
  import opened OptimisticProtocol
  import opened OptimisticLinearizability
  import opened OptimisticExclusion

  // ---- writers ----------------------------------------------------------------------------------------------

  /** The compare-and-swap wins if and only if nobody owns the lock, in every configuration; a winner may publish
      once it has all lines, and a loser can only give up. */
  lemma WinsExactly(cfg: Config, tr: seq<State>, j: nat, w: Id)
    requires Run(cfg, tr) && j < |tr| && Enabled(cfg, tr[j], w, ExecCas)
    ensures Shaped(cfg, tr[j])
    ensures CasStep(cfg, tr[j], w).ws[w].pc ==
      Load(tr[j].owner == None, tr[j].ws[w].pc.f, {}, tr[j].mem)
    ensures CasStep(cfg, tr[j], w).owner == if tr[j].owner == None then Some(w) else tr[j].owner
  {
    RunKeepsLock(cfg, tr, j);
  }

  lemma LoadersGoOn(cfg: Config, s: State, w: Id)
    requires Shaped(cfg, s) && w in s.ws && s.ws[w].pc.Load? && AllLines(cfg, s.ws[w].pc.got)
    ensures Enabled(cfg, s, w, Publish) <==> s.ws[w].pc.won
    ensures Enabled(cfg, s, w, Lose) <==> !s.ws[w].pc.won
    ensures !s.ws[w].pc.won ==> Apply(cfg, s, w, Lose) == PutPc(s, w, Idle)
  {
  }

  /** What one commit makes of each word: the user's words what the update says of the locked tuple, versions one more,
      the lock word free. */
  lemma CommitWords(cfg: Config, f: Update, t: Tuple, i: nat)
    requires cfg.Valid() && |t| == cfg.Size() && i < cfg.Size()
    ensures AfterCommit(cfg, f, t)[i] ==
      if cfg.IsData(i) then f(t[cfg.LockIndex() := 1], i) else if cfg.IsVersion(i) then Plus(t[i], 1) else 0
  {
    var locked := t[cfg.LockIndex() := 1];
    var e := Edited(cfg, f, locked);
    if cfg.IsData(i) {
      assert e[i] == f(locked, i);
      assert Payload(cfg, e)[i] == e[i];
    } else if cfg.IsVersion(i) {
      AfterCommitBumps(cfg, f, t, i);
    }
  }

  // ---- what the network may do ------------------------------------------------------------------------------

  /** A worker may start its next operation while its WRITE or its release is pending, with anything in another copy,
      but what it posts then takes effect after that. */
  lemma PendingComesFirst(cfg: Config, s: State, w: Id, f: Update, junk: Tuple)
    requires Shaped(cfg, s) && w in s.ws && |junk| == cfg.Size()
    ensures s.ws[w].pc == Idle ==> Enabled(cfg, s, w, BeginUpdate(f)) && Enabled(cfg, s, w, ReadElsewhere)
    ensures s.ws[w].pc == Idle && (cfg.buffers >= 2 || !s.ws[w].pending.Landing?) ==>
      Enabled(cfg, s, w, BeginRead(junk))
    ensures s.ws[w].pc == Idle && s.ws[w].pending.Landing? ==> Enabled(cfg, s, w, BeginRead(s.ws[w].pending.bytes))
    ensures s.ws[w].pc.Cas? ==> (Enabled(cfg, s, w, ExecCas) <==> s.ws[w].pending == Nothing)
    ensures s.ws[w].pc.Read? && s.ws[w].pc.rd.stage == Control ==>
      (Enabled(cfg, s, w, ReadControl) <==> s.ws[w].pending == Nothing)
  {
    assert WorkerShaped(cfg, s.ws[w]);
  }

  /** Any line that is missing may be fetched next. */
  lemma AnyLineMayBeNext(cfg: Config, s: State, w: Id, l: nat)
    requires Shaped(cfg, s) && w in s.ws && s.ws[w].pending == Nothing
    ensures s.ws[w].pc.Read? && s.ws[w].pc.rd.stage == Fetch ==>
      (Enabled(cfg, s, w, FetchLine(l)) <==> l < cfg.lines && l !in s.ws[w].pc.rd.got)
    ensures s.ws[w].pc.Load? ==> (Enabled(cfg, s, w, LoadLine(l)) <==> l < cfg.lines && l !in s.ws[w].pc.got)
  {
  }

  // ---- V2's checks of the lock ------------------------------------------------------------------------------

  /** The lock word that READ `a` fetched is in the reader's copy: of the first small READ, or with a footer of the
      one in `unlock`. */
  ghost predicate HasLock(cfg: Config, s: State, w: Id, a: Action) {
    && Shaped(cfg, s) && cfg.consistency.V2? && w in s.ws && s.ws[w].pc.Read?
    && var stage := s.ws[w].pc.rd.stage;
       match a
       case ReadControl => stage == Fetch || stage == Recheck || (stage == Done && cfg.position.Header?)
       case ReadAgain => stage == Done && cfg.position.Footer?
       case _ => false
  }

  /** When. */
  function Instant(rd: Reading, a: Action): nat {
    if a.ReadControl? then rd.at else rd.last
  }

  ghost predicate SameLock(cfg: Config, rd: Reading, rd': Reading, a: Action)
    requires cfg.Valid() && |rd.buf| == cfg.Size() == |rd'.buf|
  {
    rd'.buf[cfg.LockIndex()] == rd.buf[cfg.LockIndex()] && Instant(rd', a) == Instant(rd, a)
  }

  lemma OwnStepKeepsLock(cfg: Config, s: State, w: Id, b: Action, a: Action)
    requires Shaped(cfg, s) && Enabled(cfg, s, w, b) && HasLock(cfg, Apply(cfg, s, w, b), w, a) && b != a
    ensures HasLock(cfg, s, w, a) && SameLock(cfg, s.ws[w].pc.rd, Apply(cfg, s, w, b).ws[w].pc.rd, a)
  {
  }

  lemma OldOrNew(cfg: Config, s: State, s': State, w: Id, a: Action)
    requires Next(cfg, s, s') && HasLock(cfg, s', w, a)
    ensures StepBy(cfg, s, w, a, s') || (HasLock(cfg, s, w, a) && SameLock(cfg, s.ws[w].pc.rd, s'.ws[w].pc.rd, a))
  {
    var u, b :| StepBy(cfg, s, u, b, s');
    if u != w { OtherWorkers(cfg, s, u, b, w); } else if b != a { OwnStepKeepsLock(cfg, s, w, b, a); }
  }

  lemma Fetched(cfg: Config, s: State, w: Id, a: Action)
    requires Shaped(cfg, s) && Enabled(cfg, s, w, a) && HasLock(cfg, Apply(cfg, s, w, a), w, a)
    ensures var rd' := Apply(cfg, s, w, a).ws[w].pc.rd;
            rd'.buf[cfg.LockIndex()] == s.mem[cfg.LockIndex()] && Instant(rd', a) == s.clock
  {
  }

  lemma {:induction false} RunClock(cfg: Config, tr: seq<State>, j: nat)
    requires Run(cfg, tr) && j < |tr|
    ensures tr[j].clock == j
  {
    if j > 0 {
      RunClock(cfg, tr, j - 1);
      assert StepAt(cfg, tr, j - 1);
      var w, a :| StepBy(cfg, tr[j - 1], w, a, tr[j]);
      StepTicks(cfg, tr[j - 1], w, a);
    }
  }

  lemma NoLockAtFirst(cfg: Config, s: State, w: Id, a: Action)
    requires Init(cfg, s)
    ensures !HasLock(cfg, s, w, a)
  {
  }

  /** The lock word in a reader's copy says whether the lock was owned when it was fetched, in every configuration. */
  lemma {:induction false} LockWasFetched(cfg: Config, tr: seq<State>, j: nat, w: Id, a: Action)
    requires Run(cfg, tr) && j < |tr| && HasLock(cfg, tr[j], w, a)
    ensures var rd := tr[j].ws[w].pc.rd;
      && Instant(rd, a) < j && |tr[Instant(rd, a)].mem| == cfg.Size()
      && rd.buf[cfg.LockIndex()] == (if tr[Instant(rd, a)].owner == None then 0 else 1)
  {
    NoLockAtFirst(cfg, tr[0], w, a);
    assert StepAt(cfg, tr, j - 1);
    OldOrNew(cfg, tr[j - 1], tr[j], w, a);
    if StepBy(cfg, tr[j - 1], w, a, tr[j]) {
      Fetched(cfg, tr[j - 1], w, a);
      RunClock(cfg, tr, j - 1);
      RunKeepsLock(cfg, tr, j - 1);
    } else {
      LockWasFetched(cfg, tr, j - 1, w, a);
    }
  }

  /** V2's check in `lock`: the reader goes on, and remembers the version, if and only if nobody owned the lock at its
      first small READ, whatever the version is. */
  lemma ChecksFirstExactly(cfg: Config, tr: seq<State>, j: nat, w: Id)
    requires Run(cfg, tr) && j < |tr| && Enabled(cfg, tr[j], w, CheckFirst)
    ensures Shaped(cfg, tr[j]) && tr[j].ws[w].pc.rd.at < j
    ensures var rd := tr[j].ws[w].pc.rd;
      CheckFirstStep(cfg, tr[j], w).ws[w].pc ==
        if tr[rd.at].owner == None then Read(rd.(stage := Recheck, prev := rd.buf[cfg.VersionIndex()])) else Idle
  {
    RunKeepsLock(cfg, tr, j);
    LockWasFetched(cfg, tr, j, w, ReadControl);
  }

  /** V2's last check of the lock: with a header the word of the first small READ, with a footer that of the last. */
  lemma ChecksLastExactly(cfg: Config, tr: seq<State>, j: nat, w: Id)
    requires Run(cfg, tr) && j < |tr| && cfg.consistency.V2? && Enabled(cfg, tr[j], w, Decide)
    ensures Shaped(cfg, tr[j]) && tr[j].ws[w].pc.rd.at < |tr| && tr[j].ws[w].pc.rd.last < |tr|
    ensures var rd := tr[j].ws[w].pc.rd;
      rd.buf[cfg.LockIndex()] == 0 <==> tr[if cfg.position.Header? then rd.at else rd.last].owner == None
  {
    RunKeepsLock(cfg, tr, j);
    DatesAreStates(cfg, tr, j, w);
    LockWasFetched(cfg, tr, j, w, if cfg.position.Header? then ReadControl else ReadAgain);
  }

  lemma DatesStep(cfg: Config, s: State, w: Id, a: Action)
    requires Shaped(cfg, s) && Enabled(cfg, s, w, a) && Apply(cfg, s, w, a).ws[w].pc.Read?
    ensures var rd' := Apply(cfg, s, w, a).ws[w].pc.rd;
      || (rd'.at == s.clock == rd'.last)
      || (s.ws[w].pc.Read? && (rd'.at == s.clock || rd'.at == s.ws[w].pc.rd.at)
          && (rd'.last == s.clock || rd'.last == s.ws[w].pc.rd.last))
  {
  }

  lemma {:induction false} DatesAreStates(cfg: Config, tr: seq<State>, j: nat, w: Id)
    requires Run(cfg, tr) && j < |tr| && w in tr[j].ws && tr[j].ws[w].pc.Read?
    ensures tr[j].ws[w].pc.rd.at < |tr| && tr[j].ws[w].pc.rd.last < |tr|
  {
    assert j > 0;
    RunClock(cfg, tr, j - 1);
    assert StepAt(cfg, tr, j - 1);
    var u, a :| StepBy(cfg, tr[j - 1], u, a, tr[j]);
    if u != w { OtherWorkers(cfg, tr[j - 1], u, a, w); } else { DatesStep(cfg, tr[j - 1], w, a); }
    if w in tr[j - 1].ws && tr[j - 1].ws[w].pc.Read? {
      DatesAreStates(cfg, tr, j - 1, w);
    }
  }

  // ---- nobody restarts without a cause ----------------------------------------------------------------------

  lemma OnlyOwnersPublish(cfg: Config, s: State, u: Id, a: Action)
    requires Inv(cfg, s) && s.owner == None && Enabled(cfg, s, u, a)
    ensures Apply(cfg, s, u, a).hist == s.hist
  {
    assert !Holds(s.ws[u]);
  }

  /** While nobody owns the lock nothing is published. */
  lemma {:induction false} NoCommits(cfg: Config, tr: seq<State>, i: nat, j: nat)
    requires Run(cfg, tr) && cfg.KeepsPayload() && i <= j < |tr|
    requires forall k :: i <= k <= j ==> tr[k].owner == None
    ensures tr[j].hist == tr[i].hist
    decreases j - i
  {
    if i < j {
      NoCommits(cfg, tr, i, j - 1);
      RunInv(cfg, tr, j - 1);
      assert StepAt(cfg, tr, j - 1);
      var u, a :| StepBy(cfg, tr[j - 1], u, a, tr[j]);
      OnlyOwnersPublish(cfg, tr[j - 1], u, a);
    }
  }

  /** Then all that a reader has fetched is of one commit. */
  lemma OneCommit(cfg: Config, s: State, rd: Reading)
    requires Inv(cfg, s) && ReadingInv(cfg, s, rd) && AllLines(cfg, rd.got) && rd.low == rd.high
    requires cfg.consistency.V2? ==> rd.stage == Done
    ensures forall l :: 0 <= l < cfg.lines ==> rd.stamp[l] == rd.base
    ensures cfg.consistency.V2? ==> rd.vstamp == rd.base
  {
    assert cfg.LockIndex() / LINE in rd.got;
  }

  /** A reader accepts after its last check if nobody owned the lock in any state of its operation. */
  lemma UndisturbedAccepts(cfg: Config, tr: seq<State>, j: nat, w: Id)
    requires Run(cfg, tr) && cfg.KeepsPayload() && j < |tr| && Enabled(cfg, tr[j], w, Decide)
    requires forall k :: tr[j].ws[w].pc.rd.began < k <= j ==> tr[k].owner == None
    ensures Shaped(cfg, tr[j]) && DecideStep(cfg, tr[j], w).ws[w].pc == Accepted(tr[j].ws[w].pc.rd)
    ensures tr[j].ws[w].pc.rd.low == tr[j].ws[w].pc.rd.high
  {
    var s, rd := tr[j], tr[j].ws[w].pc.rd;
    RunInv(cfg, tr, j);
    RunDated(cfg, tr, j, w);
    assert PcInv(cfg, s, s.ws[w].pc);
    assert cfg.LockIndex() / LINE in rd.got && 0 in rd.got;
    NoCommits(cfg, tr, rd.first, rd.last);
    OneCommit(cfg, s, rd);
    AcceptsExactly(cfg, tr, j, w);
    if cfg.consistency.V2? {
      ChecksLastExactly(cfg, tr, j, w);
    }
  }
}
