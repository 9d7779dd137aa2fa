/** Whom the tail lock admits, in both directions: the outcome of every test, traced back to the instant of its
    atomic, and runs in which an undisturbed reader or writer completes. */
module TailDecisions {
  import opened Words
  import opened TailLock

  // ---- the tests --------------------------------------------------------------------------------------------

  /** The result of atomic `a` is waiting for its test. */
  ghost predicate Attempting(cfg: Config, s: State, w: Id, a: Action) {
    && Shaped(s) && w in s.ws
    && match a
       case ExecAdd => s.ws[w].pc.STest? || (cfg.speculativeRead && s.ws[w].pc.SRead?)
       case ExecCas => s.ws[w].pc.XTest? || (cfg.speculativeRead && s.ws[w].pc.XRead?)
       case _ => false
  }

  lemma OtherKeeps(cfg: Config, s: State, u: Id, a: Action, w: Id)
    requires Shaped(s) && Enabled(cfg, s, u, a) && u != w
    ensures var ws' := Apply(cfg, s, u, a).ws; (w in ws' <==> w in s.ws) && (w in s.ws ==> ws'[w] == s.ws[w])
  {
  }

  lemma OwnKeeps(cfg: Config, s: State, w: Id, b: Action, a: Action)
    requires Shaped(s) && Enabled(cfg, s, w, b) && Attempting(cfg, Apply(cfg, s, w, b), w, a) && b != a
    ensures Attempting(cfg, s, w, a) && Apply(cfg, s, w, b).ws[w].buf[LOCK] == s.ws[w].buf[LOCK]
  {
  }

  lemma OldOrNew(cfg: Config, s: State, s': State, w: Id, a: Action)
    requires Next(cfg, s, s') && Attempting(cfg, s', w, a)
    ensures StepBy(cfg, s, w, a, s') || (Attempting(cfg, s, w, a) && s'.ws[w].buf[LOCK] == s.ws[w].buf[LOCK])
  {
    var u, b :| StepBy(cfg, s, u, b, s');
    if u != w { OtherKeeps(cfg, s, u, b, w); } else if b != a { OwnKeeps(cfg, s, w, b, a); }
  }

  /** The state `i` whose step is the atomic of the attempt that worker `w` is in at `j`. */
  ghost predicate AtomicAt(cfg: Config, tr: seq<State>, i: nat, j: nat, w: Id, a: Action) {
    && i < j < |tr| && StepBy(cfg, tr[i], w, a, tr[i + 1]) && Attempting(cfg, tr[j], w, a)
    && tr[j].ws[w].buf[LOCK] == tr[i].lock
    && (forall k :: i < k <= j ==> Attempting(cfg, tr[k], w, a))
  }

  lemma {:induction false} FindAtomic(cfg: Config, tr: seq<State>, j: nat, w: Id, a: Action) returns (i: nat)
    requires Run(cfg, tr) && j < |tr| && Attempting(cfg, tr[j], w, a)
    ensures AtomicAt(cfg, tr, i, j, w, a)
  {
    assert !Attempting(cfg, tr[0], w, a);
    assert StepAt(cfg, tr, j - 1);
    OldOrNew(cfg, tr[j - 1], tr[j], w, a);
    if StepBy(cfg, tr[j - 1], w, a, tr[j]) {
      i := j - 1;
    } else {
      i := FindAtomic(cfg, tr, j - 1, w, a);
    }
  }

  /** Every reader's test: admitted if and only if nobody owned the tuple when the fetch-and-add of this attempt took
      effect, however many readers were admitted; otherwise it gives up. */
  lemma AdmittedExactly(cfg: Config, tr: seq<State>, j: nat, w: Id, a: Action) returns (i: nat)
    requires Run(cfg, tr) && j < |tr| && Enabled(cfg, tr[j], w, a)
    requires a.TestShared? || (a.EndRead? && cfg.speculativeRead && tr[j].ws[w].pc.SRead?)
    ensures Shaped(tr[j]) && AtomicAt(cfg, tr, i, j, w, ExecAdd)
    ensures Apply(cfg, tr[j], w, a).ws[w].pc ==
      if tr[i].owner.Some? then Idle else if a.TestShared? then SRead({}) else SGot
  {
    RunInv(cfg, tr, j);
    i := FindAtomic(cfg, tr, j, w, ExecAdd);
    RunInv(cfg, tr, i);
    LockWord(cfg, tr[i]);
  }

  /** Every writer's test: it has won if and only if there was neither an owner nor an admitted reader when the
      compare-and-swap of this attempt took effect; otherwise it gives up. */
  lemma WinsExactly(cfg: Config, tr: seq<State>, j: nat, w: Id, a: Action) returns (i: nat)
    requires Run(cfg, tr) && j < |tr| && Enabled(cfg, tr[j], w, a)
    requires a.TestExclusive? || (a.EndRead? && cfg.speculativeRead && tr[j].ws[w].pc.XRead?)
    ensures Shaped(tr[j]) && AtomicAt(cfg, tr, i, j, w, ExecCas)
    ensures var free := tr[i].owner == None && tr[i].admitted == {};
      && tr[i + 1].owner == (if free then Some(w) else tr[i].owner)
      && Apply(cfg, tr[j], w, a).ws[w].pc ==
        if !free then Idle else if a.TestExclusive? then XRead({}) else XGot
  {
    RunInv(cfg, tr, j);
    i := FindAtomic(cfg, tr, j, w, ExecCas);
    RunInv(cfg, tr, i);
    LockWord(cfg, tr[i]);
  }

  /** Any word that is missing may be the next one; a WRITE releases the lock when no other is. */
  lemma AnyWordMayBeNext(cfg: Config, s: State, w: Id)
    requires Shaped(s) && w in s.ws
    ensures var x := s.ws[w]; x.pc.SRead? || x.pc.XRead? ==>
      && (forall i: nat :: Enabled(cfg, s, w, ReadWord(i)) <==> i <= LastRead(cfg, x.pc) && i !in x.pc.done)
      && (Enabled(cfg, s, w, EndRead) <==> !exists i: nat :: Enabled(cfg, s, w, ReadWord(i)))
    ensures var x := s.ws[w]; x.pc.XWrite? ==>
      && (forall i: nat :: Enabled(cfg, s, w, WriteWord(i)) <==> i < LOCK && i !in x.pc.done)
      && (Enabled(cfg, s, w, ExecRelease) <==> !exists i: nat :: Enabled(cfg, s, w, WriteWord(i)))
  {
    var x := s.ws[w];
    if (x.pc.SRead? || x.pc.XRead?) && !Enabled(cfg, s, w, EndRead) {
      var i: nat :| 0 <= i <= LastRead(cfg, x.pc) && i !in x.pc.done;
      assert Enabled(cfg, s, w, ReadWord(i));
    }
    if x.pc.XWrite? && !Enabled(cfg, s, w, ExecRelease) {
      var i: nat :| 0 <= i < LOCK && i !in x.pc.done;
      assert Enabled(cfg, s, w, WriteWord(i));
    }
  }

  // ---- undisturbed operations -------------------------------------------------------------------------------

  ghost function Last(tr: seq<State>): State
    requires |tr| >= 1
  {
    tr[|tr| - 1]
  }

  ghost predicate Good(cfg: Config, tr: seq<State>) {
    Run(cfg, tr) && Shaped(Last(tr))
  }

  /** One more step of a run. */
  lemma Extend(cfg: Config, tr: seq<State>, w: Id, a: Action) returns (longer: seq<State>)
    requires Good(cfg, tr) && Enabled(cfg, Last(tr), w, a)
    ensures Good(cfg, longer) && longer == tr + [Apply(cfg, Last(tr), w, a)]
  {
    longer := tr + [Apply(cfg, Last(tr), w, a)];
    assert StepBy(cfg, Last(tr), w, a, Last(longer));
    forall i | 0 <= i < |longer| - 1
      ensures StepAt(cfg, longer, i)
    {
      if i < |tr| - 1 {
        assert StepAt(cfg, tr, i);
      } else {
        assert Next(cfg, longer[i], longer[i + 1]);
      }
    }
    RunInv(cfg, longer, |longer| - 1);
  }

  /** What a free tuple and an idle worker are. */
  lemma Facts(cfg: Config, tr: seq<State>, w: Id)
    requires Good(cfg, tr) && w in Last(tr).ws
    ensures Last(tr).owner == None ==> Last(tr).lock == 2 * |Last(tr).admitted| && Last(tr).rejected == 0
    ensures Last(tr).owner == None ==> Last(tr).data == seq(LOCK, _ => Last(tr).val % WORD)
    ensures Last(tr).lock == 0 ==> Last(tr).owner == None && Last(tr).admitted == {}
    ensures Last(tr).ws[w].pc == Idle ==> w !in Last(tr).admitted
  {
    RunInv(cfg, tr, |tr| - 1);
    LockWord(cfg, Last(tr));
    assert WorkerOk(cfg, Last(tr), w);
  }

  ghost predicate IsRange(done: set<nat>, k: nat) {
    forall i :: i in done <==> 0 <= i < k
  }

  /** Since `s`, worker `w` reads as an admitted reader. */
  ghost predicate Reading(cfg: Config, s: State, s': State, w: Id, k: nat) {
    && w in s'.ws && |s'.ws[w].buf| == LOCK + 1 && s'.ws[w].pc.SRead? && IsRange(s'.ws[w].pc.done, k)
    && s' == s.(lock := s'.lock, ws := s.ws[w := s'.ws[w]], admitted := s.admitted + {w}) && s.owner == None
    && (cfg.speculativeRead ==> s'.ws[w].buf[LOCK] % 2 == 0)
  }

  lemma Add(cfg: Config, tr: seq<State>, w: Id) returns (longer: seq<State>)
    requires Good(cfg, tr) && w in Last(tr).ws && Last(tr).ws[w].pc == Idle && Last(tr).owner == None
    ensures Good(cfg, longer) && tr < longer && w in Last(longer).ws && Last(longer).ws[w].buf[LOCK] % 2 == 0
    ensures Last(longer).ws[w].pc == if cfg.speculativeRead then SRead({}) else STest
    ensures var s, s' := Last(tr), Last(longer);
      s' == s.(lock := s'.lock, ws := s.ws[w := s'.ws[w]], admitted := s.admitted + {w})
  {
    Facts(cfg, tr, w);
    longer := Extend(cfg, tr, w, StartShared(seq(LOCK + 1, _ => 0)));
    longer := Extend(cfg, longer, w, ExecAdd);
  }

  lemma Register(cfg: Config, tr: seq<State>, w: Id) returns (longer: seq<State>)
    requires Good(cfg, tr) && w in Last(tr).ws && Last(tr).ws[w].pc == Idle && Last(tr).owner == None
    ensures Good(cfg, longer) && tr < longer && Reading(cfg, Last(tr), Last(longer), w, 0)
  {
    longer := Add(cfg, tr, w);
    if !cfg.speculativeRead {
      longer := Extend(cfg, longer, w, TestShared);
    }
  }

  lemma {:induction false} ReadAll(cfg: Config, tr: seq<State>, s: State, w: Id, k: nat) returns (longer: seq<State>)
    requires Good(cfg, tr) && Reading(cfg, s, Last(tr), w, k) && k <= LOCK
    ensures Good(cfg, longer) && tr <= longer && Reading(cfg, s, Last(longer), w, LOCK)
    decreases LOCK - k
  {
    longer := tr;
    if k < LOCK {
      longer := Extend(cfg, longer, w, ReadWord(k));
      longer := ReadAll(cfg, longer, s, w, k + 1);
    }
  }

  lemma ReaderReads(cfg: Config, tr: seq<State>, w: Id) returns (longer: seq<State>)
    requires Good(cfg, tr) && w in Last(tr).ws && Last(tr).ws[w].pc == Idle && Last(tr).owner == None
    ensures Good(cfg, longer) && tr < longer && w in Last(longer).ws && Last(longer).ws[w].pc == SGot
    ensures var s, s' := Last(tr), Last(longer);
      s' == s.(lock := s'.lock, ws := s.ws[w := s'.ws[w]], admitted := s.admitted + {w})
  {
    longer := Register(cfg, tr, w);
    longer := ReadAll(cfg, longer, Last(tr), w, 0);
    longer := Extend(cfg, longer, w, EndRead);
  }

  /** A reader of a tuple without owner, alone: in state `k` it releases its checked copy, and in the end everything but
      its own buffer is as before. */
  lemma ReaderCompletes(cfg: Config, tr: seq<State>, w: Id) returns (longer: seq<State>, k: nat)
    requires Good(cfg, tr) && w in Last(tr).ws && Last(tr).ws[w].pc == Idle && Last(tr).owner == None
    ensures Good(cfg, longer) && tr < longer && w in Last(longer).ws && Last(longer).ws[w].pc == Idle
    ensures Last(longer) == Last(tr).(ws := Last(tr).ws[w := Last(longer).ws[w]])
    ensures |tr| <= k < |longer| && Enabled(cfg, longer[k], w, ReleaseShared)
  {
    var s := Last(tr);
    Facts(cfg, tr, w);
    longer := ReaderReads(cfg, tr, w);
    k := |longer| - 1;
    var got := longer;
    longer := Extend(cfg, longer, w, ReleaseShared);
    longer := Extend(cfg, longer, w, ExecSub);
    assert longer[k] == got[k] && s.admitted + {w} - {w} == s.admitted;
    Facts(cfg, longer, w);
  }

  /** Since `s`, worker `w` has won the free tuple. */
  ghost predicate Won(cfg: Config, s: State, s': State, w: Id) {
    && w in s'.ws && |s'.ws[w].buf| == LOCK + 1 && s'.owner == Some(w) && s.owner == None
    && s' == s.(lock := s'.lock, data := s'.data, ws := s.ws[w := s'.ws[w]], owner := Some(w))
  }

  ghost predicate Loading(cfg: Config, s: State, s': State, w: Id, k: nat) {
    && Won(cfg, s, s', w) && s'.ws[w].pc.XRead? && IsRange(s'.ws[w].pc.done, k)
    && (cfg.speculativeRead ==> s'.ws[w].buf[LOCK] == 0)
  }

  lemma Win(cfg: Config, tr: seq<State>, w: Id) returns (longer: seq<State>)
    requires Good(cfg, tr) && w in Last(tr).ws && Last(tr).ws[w].pc == Idle && Last(tr).lock == 0
    ensures Good(cfg, longer) && tr < longer && Loading(cfg, Last(tr), Last(longer), w, 0)
  {
    Facts(cfg, tr, w);
    longer := Extend(cfg, tr, w, StartExclusive(seq(LOCK + 1, _ => 0)));
    longer := Extend(cfg, longer, w, ExecCas);
    if !cfg.speculativeRead {
      longer := Extend(cfg, longer, w, TestExclusive);
    }
  }

  /** The number of words that the writer reads. */
  function ReadWords(cfg: Config): nat {
    if cfg.speculativeRead then LOCK else LOCK + 1
  }

  lemma {:induction false} LoadAll(cfg: Config, tr: seq<State>, s: State, w: Id, k: nat) returns (longer: seq<State>)
    requires Good(cfg, tr) && Loading(cfg, s, Last(tr), w, k) && k <= ReadWords(cfg)
    ensures Good(cfg, longer) && tr <= longer && Loading(cfg, s, Last(longer), w, ReadWords(cfg))
    decreases ReadWords(cfg) - k
  {
    longer := tr;
    if k < ReadWords(cfg) {
      longer := Extend(cfg, longer, w, ReadWord(k));
      longer := LoadAll(cfg, longer, s, w, k + 1);
    }
  }

  ghost predicate Storing(cfg: Config, s: State, s': State, w: Id, k: nat) {
    Won(cfg, s, s', w) && s'.ws[w].pc.XWrite? && IsRange(s'.ws[w].pc.done, k)
  }

  lemma Fill(cfg: Config, tr: seq<State>, s: State, w: Id) returns (longer: seq<State>)
    requires Good(cfg, tr) && Loading(cfg, s, Last(tr), w, ReadWords(cfg))
    ensures Good(cfg, longer) && tr < longer && Storing(cfg, s, Last(longer), w, 0)
  {
    longer := Extend(cfg, tr, w, EndRead);
    longer := Extend(cfg, longer, w, Refill);
  }

  lemma {:induction false} StoreAll(cfg: Config, tr: seq<State>, s: State, w: Id, k: nat) returns (longer: seq<State>)
    requires Good(cfg, tr) && Storing(cfg, s, Last(tr), w, k) && k <= LOCK
    ensures Good(cfg, longer) && tr <= longer && Storing(cfg, s, Last(longer), w, LOCK)
    decreases LOCK - k
  {
    longer := tr;
    if k < LOCK {
      longer := Extend(cfg, longer, w, WriteWord(k));
      longer := StoreAll(cfg, longer, s, w, k + 1);
    }
  }

  /** A writer of a free tuple, alone: in the end the tuple is free again, its counter and every payload word are one
      more, and nothing else has changed but the writer's buffer. */
  lemma WriterCompletes(cfg: Config, tr: seq<State>, w: Id) returns (longer: seq<State>)
    requires Good(cfg, tr) && w in Last(tr).ws && Last(tr).ws[w].pc == Idle && Last(tr).lock == 0
    ensures Good(cfg, longer) && tr < longer && w in Last(longer).ws && Last(longer).ws[w].pc == Idle
    ensures var s, s' := Last(tr), Last(longer); var n := s.val + 1;
      s' == s.(val := n, data := seq(LOCK, _ => n % WORD), ws := s.ws[w := s'.ws[w]])
  {
    var s := Last(tr);
    Facts(cfg, tr, w);
    longer := Win(cfg, tr, w);
    longer := LoadAll(cfg, longer, s, w, 0);
    longer := Fill(cfg, longer, s, w);
    longer := StoreAll(cfg, longer, s, w, 0);
    longer := Extend(cfg, longer, w, ExecRelease);
    Facts(cfg, longer, w);
  }
}
