/** Whom the reader/writer lock admits, in both directions: the outcome of every test, traced back to the instant of its
    atomic, and runs in which an undisturbed reader or writer completes. */
module ReaderWriterDecisions {
  import opened Words
  import opened ReaderWriterLock
  import opened ReaderWriterRuns

  // ---- the tests --------------------------------------------------------------------------------------------

  /** Between the fetch-and-add and the test of its result. */
  ghost predicate Testing(cfg: Config, x: Worker) {
    x.pc.STest? || (cfg.speculativeRead && x.pc.SRead?)
  }

  /** Between the compare-and-swap and the test of its result. */
  ghost predicate Trying(cfg: Config, x: Worker) {
    x.pc.XTest? || (cfg.speculativeRead && x.pc.XRead?)
  }

  /** The result has been there before this step, or is the lock word of this step's atomic. */
  ghost predicate Keeps(x: Worker, x': Worker)
    requires |x.buf| >= 1 && |x'.buf| >= 1
  {
    x.pc != Idle && x'.pc != Idle && x'.pc.t == x.pc.t && x'.buf[0] == x.buf[0]
  }

  lemma OtherKeeps(cfg: Config, s: State, u: Id, a: Action, w: Id)
    requires Shaped(cfg, s) && Enabled(cfg, s, u, a) && u != w
    ensures var ws' := Apply(cfg, s, u, a).ws; (w in ws' <==> w in s.ws) && (w in s.ws ==> ws'[w] == s.ws[w])
  {
  }

  lemma OwnStepTests(cfg: Config, s: State, w: Id, a: Action)
    requires Shaped(cfg, s) && Enabled(cfg, s, w, a) && WorkerShaped(cfg, Apply(cfg, s, w, a).ws[w])
    ensures var x, x' := s.ws[w], Apply(cfg, s, w, a).ws[w];
      && (Testing(cfg, x') ==> a.ExecAdd? || (Testing(cfg, x) && Keeps(x, x')))
      && (Trying(cfg, x') ==> a.ExecCas? || (Trying(cfg, x) && Keeps(x, x')))
  {
  }

  /** The result of atomic `a` is waiting for its test. */
  ghost predicate Attempting(cfg: Config, s: State, w: Id, a: Action) {
    && Shaped(cfg, s) && w in s.ws && s.ws[w].pc != Idle
    && if a.ExecAdd? then Testing(cfg, s.ws[w]) else a.ExecCas? && Trying(cfg, s.ws[w])
  }

  /** The state `i` whose step is the atomic of the attempt that worker `w` is in at `j`, at tuple `t`. */
  ghost predicate AtomicAt(cfg: Config, tr: seq<State>, i: nat, j: nat, w: Id, a: Action, t: nat) {
    && i < j < |tr| && StepBy(cfg, tr[i], w, a, tr[i + 1]) && Attempting(cfg, tr[j], w, a)
    && tr[j].ws[w].pc.t == t < |tr[i].mem| && tr[i].ws[w].pc == (if a.ExecAdd? then SAdd(t) else XCas(t))
    && tr[j].ws[w].buf[0] == tr[i].mem[t].lock
    && (forall k :: i < k <= j ==> Attempting(cfg, tr[k], w, a))
  }

  lemma AtomicGoesOn(cfg: Config, tr: seq<State>, i: nat, j: nat, w: Id, a: Action, t: nat)
    requires AtomicAt(cfg, tr, i, j, w, a, t) && j + 1 < |tr| && Attempting(cfg, tr[j + 1], w, a)
    requires Keeps(tr[j].ws[w], tr[j + 1].ws[w])
    ensures AtomicAt(cfg, tr, i, j + 1, w, a, t) && tr[j + 1].ws[w].pc.t == t
  {
  }

  lemma AtomicStarts(cfg: Config, tr: seq<State>, i: nat, w: Id, a: Action)
    requires i + 1 < |tr| && StepBy(cfg, tr[i], w, a, tr[i + 1]) && Attempting(cfg, tr[i + 1], w, a)
    ensures AtomicAt(cfg, tr, i, i + 1, w, a, tr[i + 1].ws[w].pc.t)
  {
  }

  /** In the state after a step, the result is an old one or the step was the atomic. */
  lemma OldOrNew(cfg: Config, s: State, s': State, w: Id, a: Action)
    requires Next(cfg, s, s') && Attempting(cfg, s', w, a)
    ensures StepBy(cfg, s, w, a, s') || (Attempting(cfg, s, w, a) && Keeps(s.ws[w], s'.ws[w]))
  {
    var u, b :| StepBy(cfg, s, u, b, s');
    if u != w { OtherKeeps(cfg, s, u, b, w); } else { OwnStepTests(cfg, s, w, b); }
  }

  lemma NoAttemptAtFirst(cfg: Config, s: State, w: Id, a: Action)
    requires Init(cfg, s)
    ensures !Attempting(cfg, s, w, a)
  {
  }

  lemma {:induction false} FindAtomic(cfg: Config, tr: seq<State>, j: nat, w: Id, a: Action) returns (i: nat)
    requires Run(cfg, tr) && j < |tr| && Attempting(cfg, tr[j], w, a)
    ensures AtomicAt(cfg, tr, i, j, w, a, tr[j].ws[w].pc.t)
  {
    NoAttemptAtFirst(cfg, tr[0], w, a);
    assert StepAt(cfg, tr, j - 1);
    OldOrNew(cfg, tr[j - 1], tr[j], w, a);
    if StepBy(cfg, tr[j - 1], w, a, tr[j]) {
      i := j - 1;
      AtomicStarts(cfg, tr, i, w, a);
    } else {
      i := FindAtomic(cfg, tr, j - 1, w, a);
      AtomicGoesOn(cfg, tr, i, j - 1, w, a, tr[j - 1].ws[w].pc.t);
    }
  }

  /** Every reader's test, plain or after a speculative READ: admitted if and only if the tuple had no owner when the
      fetch-and-add of this attempt took effect, however many readers were registered; otherwise it is turned away. */
  lemma AdmittedExactly(cfg: Config, tr: seq<State>, j: nat, w: Id, a: Action) returns (i: nat)
    requires Run(cfg, tr) && j < |tr| && Enabled(cfg, tr[j], w, a)
    requires a.TestShared? || (a.EndRead? && cfg.speculativeRead && tr[j].ws[w].pc.SRead?)
    ensures Shaped(cfg, tr[j]) && AtomicAt(cfg, tr, i, j, w, ExecAdd, tr[j].ws[w].pc.t)
    ensures var t := tr[j].ws[w].pc.t;
      Apply(cfg, tr[j], w, a).ws[w].pc ==
        if tr[i].mem[t].owner.Some? then SUndo(t) else if a.TestShared? then SRead(t, {}) else SGot(t)
  {
    RunInv(cfg, tr, j);
    i := FindAtomic(cfg, tr, j, w, ExecAdd);
    RunInv(cfg, tr, i);
    LockWord(cfg, tr[i], tr[j].ws[w].pc.t);
  }

  /** Every writer's test: it has won if and only if the tuple had neither owner nor registered reader when the
      compare-and-swap of this attempt took effect; otherwise it tries again. */
  lemma WinsExactly(cfg: Config, tr: seq<State>, j: nat, w: Id, a: Action) returns (i: nat)
    requires Run(cfg, tr) && j < |tr| && Enabled(cfg, tr[j], w, a)
    requires a.TestExclusive? || (a.EndRead? && cfg.speculativeRead && tr[j].ws[w].pc.XRead?)
    ensures Shaped(cfg, tr[j]) && AtomicAt(cfg, tr, i, j, w, ExecCas, tr[j].ws[w].pc.t)
    ensures var t := tr[j].ws[w].pc.t; var free := tr[i].mem[t].owner == None && tr[i].mem[t].readers == {};
      && (tr[i + 1].mem[t].owner == if free then Some(w) else tr[i].mem[t].owner)
      && Apply(cfg, tr[j], w, a).ws[w].pc ==
        if !free then XCas(t) else if a.TestExclusive? then XRead(t, {}) else XGot(t)
  {
    RunInv(cfg, tr, j);
    i := FindAtomic(cfg, tr, j, w, ExecCas);
    RunInv(cfg, tr, i);
    LockWord(cfg, tr[i], tr[j].ws[w].pc.t);
  }

  /** Without speculation a completed READ is used as it is. */
  lemma PlainReadsAreUsed(cfg: Config, s: State, w: Id)
    requires Shaped(cfg, s) && Enabled(cfg, s, w, EndRead) && !cfg.speculativeRead
    ensures var t := s.ws[w].pc.t; EndReadStep(cfg, s, w).ws[w].pc == if s.ws[w].pc.SRead? then SGot(t) else XGot(t)
  {
  }

  /** A reader that is turned away takes itself off and tries again. */
  lemma TurnedAwayRetries(cfg: Config, s: State, w: Id)
    requires Shaped(cfg, s) && Enabled(cfg, s, w, ExecUndo)
    ensures var t := s.ws[w].pc.t; var s' := Apply(cfg, s, w, ExecUndo);
      && s'.ws[w].pc == SAdd(t) && s'.mem[t].readers == s.mem[t].readers - {w}
      && s'.mem[t].lock == Plus(s.mem[t].lock, -1)
  {
  }

  // ---- what the network may do ------------------------------------------------------------------------------

  /** A worker may start its next operation at any tuple while its last release is still in the send queue, but its
      atomic waits for that. */
  lemma ReleaseComesFirst(cfg: Config, s: State, w: Id, t: nat)
    requires Shaped(cfg, s) && w in s.ws && t < cfg.tuples
    ensures s.ws[w].pc == Idle ==> Enabled(cfg, s, w, StartShared(t)) && Enabled(cfg, s, w, StartExclusive(t))
    ensures s.ws[w].pc == Idle ==>
      && Apply(cfg, s, w, StartShared(t)) == Put(s, w, s.ws[w].(pc := SAdd(t)))
      && Apply(cfg, s, w, StartExclusive(t)) == Put(s, w, s.ws[w].(pc := XCas(t)))
    ensures s.ws[w].pc == SAdd(t) ==> (Enabled(cfg, s, w, ExecAdd) <==> s.ws[w].late == Nothing)
    ensures s.ws[w].pc == XCas(t) ==> (Enabled(cfg, s, w, ExecCas) <==> s.ws[w].late == Nothing)
  {
  }

  /** Any word that is missing may be the next one, and the transfer ends when none is. */
  lemma AnyWordMayBeNext(cfg: Config, s: State, w: Id)
    requires Shaped(cfg, s) && w in s.ws
    ensures var x := s.ws[w]; x.pc.SRead? || x.pc.XRead? ==>
      && (forall i: nat :: Enabled(cfg, s, w, ReadWord(i)) <==> FirstRead(cfg) <= i <= cfg.words && i !in x.pc.done)
      && (Enabled(cfg, s, w, EndRead) <==> !exists i: nat :: Enabled(cfg, s, w, ReadWord(i)))
    ensures var x := s.ws[w]; x.pc.XWrite? ==>
      && (forall i: nat :: Enabled(cfg, s, w, WriteWord(i)) <==> 1 <= i <= cfg.words && i !in x.pc.done)
      && (Enabled(cfg, s, w, EndWrite) <==> !exists i: nat :: Enabled(cfg, s, w, WriteWord(i)))
    ensures var x := s.ws[w]; x.late.LateWrite? ==>
      && (forall i: nat :: Enabled(cfg, s, w, LateWriteWord(i)) <==> 1 <= i <= cfg.words && i !in x.late.done)
      && (Enabled(cfg, s, w, EndLateWrite) <==> !exists i: nat :: Enabled(cfg, s, w, LateWriteWord(i)))
  {
    var x := s.ws[w];
    if (x.pc.SRead? || x.pc.XRead?) && !Enabled(cfg, s, w, EndRead) {
      var i: nat :| FirstRead(cfg) <= i <= cfg.words && i !in x.pc.done;
      assert Enabled(cfg, s, w, ReadWord(i));
    }
    if x.pc.XWrite? && !Enabled(cfg, s, w, EndWrite) {
      var i: nat :| 1 <= i <= cfg.words && i !in x.pc.done;
      assert Enabled(cfg, s, w, WriteWord(i));
    }
    if x.late.LateWrite? && !Enabled(cfg, s, w, EndLateWrite) {
      var i: nat :| 1 <= i <= cfg.words && i !in x.late.done;
      assert Enabled(cfg, s, w, LateWriteWord(i));
    }
  }
}
