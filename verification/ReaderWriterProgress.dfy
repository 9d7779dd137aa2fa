/** An undisturbed operation of the reader/writer lock completes, in every variant and from every reachable state: a
    reader whenever its tuple has no owner, a writer whenever its tuple is free. */
module ReaderWriterProgress {
  import opened Words
  import opened ReaderWriterLock
  import opened ReaderWriterRuns

  ghost function Last(tr: seq<State>): State
    requires |tr| >= 1
  {
    tr[|tr| - 1]
  }

  /** A run whose last state has the sizes that the step functions need. */
  ghost predicate Good(cfg: Config, tr: seq<State>) {
    Run(cfg, tr) && Shaped(cfg, Last(tr))
  }

  lemma RunIsGood(cfg: Config, tr: seq<State>)
    requires Run(cfg, tr)
    ensures Good(cfg, tr)
  {
    RunInv(cfg, tr, |tr| - 1);
  }

  /** One more step of a run. */
  lemma Extend(cfg: Config, tr: seq<State>, w: Id, a: Action) returns (longer: seq<State>)
    requires Good(cfg, tr) && Enabled(cfg, Last(tr), w, a)
    ensures Good(cfg, longer) && longer == tr + [Apply(cfg, Last(tr), w, a)]
  {
    longer := tr + [Apply(cfg, Last(tr), w, a)];
    assert StepBy(cfg, Last(tr), w, a, Last(longer));
    forall i | 0 <= i < |longer| - 1
      ensures StepAt(cfg, longer, i)
    {
      if i < |tr| - 1 {
        assert StepAt(cfg, tr, i);
      } else {
        assert Next(cfg, longer[i], longer[i + 1]);
      }
    }
    RunIsGood(cfg, longer);
  }

  /** A reachable state in which worker `w` is at `pc`, with nothing left in its send queue. */
  ghost predicate At(cfg: Config, tr: seq<State>, w: Id, pc: Pc) {
    && Good(cfg, tr) && w in Last(tr).ws
    && Last(tr).ws[w].pc == pc && Last(tr).ws[w].late == Nothing
  }

  /** From `s` to `s'`, only worker `w` and tuple `t` have changed, and of the tuple only lock word, owner, readers and
      payload. */
  ghost predicate Only(s: State, s': State, w: Id, t: nat) {
    && w in s'.ws && s'.ws == s.ws[w := s'.ws[w]] && t < |s.mem| == |s'.mem| && s'.mem == s.mem[t := s'.mem[t]]
    && s'.mem[t].val == s.mem[t].val && s'.updates == s.updates && s'.uncounted == s.uncounted
  }

  /** The lock word and payload of a tuple that nobody owns. */
  lemma Unowned(cfg: Config, tr: seq<State>, t: nat)
    requires Good(cfg, tr) && t < cfg.tuples && Last(tr).mem[t].owner == None
    ensures Last(tr).mem[t].lock == |Last(tr).mem[t].readers| < EXCLUSIVE_LOCKED
    ensures Last(tr).mem[t].data == seq(cfg.words, _ => Last(tr).mem[t].val % WORD)
  {
    RunInv(cfg, tr, |tr| - 1);
    LockWord(cfg, Last(tr), t);
    assert CellOk(cfg, Last(tr), t);
  }

  // ---- a reader ---------------------------------------------------------------------------------------------

  /** Words `lo` to `k - 1` have been read. */
  ghost predicate IsRange(done: set<nat>, lo: nat, k: nat) {
    forall i :: i in done <==> lo <= i < k
  }

  /** Since `s`, worker `w` has registered at `t` and may read. */
  ghost predicate Reading(cfg: Config, s: State, s': State, w: Id, t: nat, k: nat) {
    && Only(s, s', w, t) && s'.mem[t].data == s.mem[t].data && s'.mem[t].owner == None == s.mem[t].owner
    && s'.mem[t].readers == s.mem[t].readers + {w}
    && s'.ws[w].late == Nothing && s'.ws[w].pc.SRead? && s'.ws[w].pc.t == t && |s'.ws[w].buf| >= 1
    && IsRange(s'.ws[w].pc.done, FirstRead(cfg), k) && (cfg.speculativeRead ==> s'.ws[w].buf[0] < EXCLUSIVE_LOCKED)
  }

  lemma Register(cfg: Config, tr: seq<State>, w: Id, t: nat) returns (longer: seq<State>)
    requires At(cfg, tr, w, Idle) && t < cfg.tuples && Last(tr).mem[t].owner == None
    ensures Good(cfg, longer) && tr < longer
    ensures Reading(cfg, Last(tr), Last(longer), w, t, FirstRead(cfg))
  {
    Unowned(cfg, tr, t);
    longer := Extend(cfg, tr, w, StartShared(t));
    longer := Extend(cfg, longer, w, ExecAdd);
    if !cfg.speculativeRead {
      longer := Extend(cfg, longer, w, TestShared);
    }
  }

  lemma ReadOne(cfg: Config, tr: seq<State>, s: State, w: Id, t: nat, k: nat) returns (longer: seq<State>)
    requires Good(cfg, tr) && Reading(cfg, s, Last(tr), w, t, k) && FirstRead(cfg) <= k <= cfg.words
    ensures Good(cfg, longer) && tr < longer && Reading(cfg, s, Last(longer), w, t, k + 1)
  {
    longer := Extend(cfg, tr, w, ReadWord(k));
  }

  lemma {:induction false} ReadAll(cfg: Config, tr: seq<State>, s: State, w: Id, t: nat, k: nat)
    returns (longer: seq<State>)
    requires Good(cfg, tr) && Reading(cfg, s, Last(tr), w, t, k)
    requires FirstRead(cfg) <= k <= cfg.words + 1
    ensures Good(cfg, longer) && tr <= longer
    ensures Reading(cfg, s, Last(longer), w, t, cfg.words + 1)
    decreases cfg.words + 1 - k
  {
    longer := tr;
    if k <= cfg.words {
      longer := ReadOne(cfg, longer, s, w, t, k);
      longer := ReadAll(cfg, longer, s, w, t, k + 1);
    }
  }

  /** Since `s`, worker `w` has a checked copy of tuple `t`. */
  ghost predicate HasCopy(cfg: Config, s: State, s': State, w: Id, t: nat) {
    && Only(s, s', w, t) && s'.mem[t].data == s.mem[t].data && s'.mem[t].owner == None
    && s'.mem[t].readers == s.mem[t].readers + {w}
    && s'.ws[w].late == Nothing && s'.ws[w].pc == SGot(t)
  }

  lemma CheckCopy(cfg: Config, tr: seq<State>, s: State, w: Id, t: nat) returns (longer: seq<State>)
    requires Good(cfg, tr) && Reading(cfg, s, Last(tr), w, t, cfg.words + 1)
    ensures Good(cfg, longer) && tr < longer && HasCopy(cfg, s, Last(longer), w, t)
  {
    longer := Extend(cfg, tr, w, EndRead);
  }

  /** The checked copy is released: waited for, or left in the send queue and executed there. */
  lemma Release(cfg: Config, tr: seq<State>, s: State, w: Id, t: nat) returns (longer: seq<State>)
    requires Good(cfg, tr) && HasCopy(cfg, s, Last(tr), w, t)
    ensures Good(cfg, longer) && tr < longer && At(cfg, longer, w, Idle) && Only(s, Last(longer), w, t)
    ensures Last(longer).mem[t].data == s.mem[t].data && Last(longer).mem[t].owner == None
    ensures Last(longer).mem[t].readers == s.mem[t].readers - {w}
  {
    longer := Extend(cfg, tr, w, ReleaseShared);
    longer := Extend(cfg, longer, w, if cfg.orderRelease then ExecLateShared else ExecDrop);
  }

  /** An idle worker is not registered. */
  lemma IdleIsNobody(cfg: Config, tr: seq<State>, w: Id, t: nat)
    requires At(cfg, tr, w, Idle) && t < cfg.tuples
    ensures w !in Last(tr).mem[t].readers && w !in Last(tr).uncounted
  {
    RunInv(cfg, tr, |tr| - 1);
    Facts(cfg, Last(tr), w, t);
  }

  lemma ReaderReads(cfg: Config, tr: seq<State>, w: Id, t: nat) returns (longer: seq<State>)
    requires At(cfg, tr, w, Idle) && t < cfg.tuples && Last(tr).mem[t].owner == None
    ensures Good(cfg, longer) && tr < longer && HasCopy(cfg, Last(tr), Last(longer), w, t)
  {
    var s := Last(tr);
    longer := Register(cfg, tr, w, t);
    longer := ReadAll(cfg, longer, s, w, t, FirstRead(cfg));
    longer := CheckCopy(cfg, longer, s, w, t);
  }

  /** A reader of a tuple without owner, alone: in state `k` it releases its checked copy of the tuple, and in the end
      everything but its own buffer is as before. */
  lemma ReaderCompletes(cfg: Config, tr: seq<State>, w: Id, t: nat) returns (longer: seq<State>, k: nat)
    requires At(cfg, tr, w, Idle) && t < cfg.tuples && Last(tr).mem[t].owner == None
    ensures Good(cfg, longer) && tr < longer && At(cfg, longer, w, Idle)
    ensures var s, s' := Last(tr), Last(longer);
      s'.mem == s.mem && s'.ws == s.ws[w := s'.ws[w]] && s'.updates == s.updates && s'.uncounted == s.uncounted
    ensures |tr| <= k < |longer| && Enabled(cfg, longer[k], w, ReleaseShared) && longer[k].ws[w].pc.t == t
  {
    var s := Last(tr);
    IdleIsNobody(cfg, tr, w, t);
    longer := ReaderReads(cfg, tr, w, t);
    k := |longer| - 1;
    var checked := longer;
    longer := Release(cfg, longer, s, w, t);
    assert longer[k] == checked[k];
    Unowned(cfg, tr, t);
    Unowned(cfg, longer, t);
    assert Last(longer).mem[t] == s.mem[t];
  }

  // ---- a writer ---------------------------------------------------------------------------------------------

  /** Since `s`, worker `w` has won tuple `t`; `counted` says whether the update is in the count. */
  ghost predicate Won(cfg: Config, s: State, s': State, w: Id, t: nat, counted: bool) {
    && w in s'.ws && s'.ws == s.ws[w := s'.ws[w]] && t < |s.mem| == |s'.mem| && s'.mem == s.mem[t := s'.mem[t]]
    && s'.mem[t].val == s.mem[t].val + 1 && s'.mem[t].readers == {}
    && (if counted then s'.updates == s.updates + 1 && s'.uncounted == s.uncounted - {w}
        else s'.updates == s.updates && s'.uncounted == s.uncounted + {w})
  }

  /** It may read, and has read words up to `k - 1`. */
  ghost predicate Loading(cfg: Config, s: State, s': State, w: Id, t: nat, k: nat) {
    && Won(cfg, s, s', w, t, false) && s'.ws[w].late == Nothing && s'.ws[w].pc.XRead? && s'.ws[w].pc.t == t
    && |s'.ws[w].buf| >= 1 && IsRange(s'.ws[w].pc.done, FirstRead(cfg), k)
    && (cfg.speculativeRead ==> s'.ws[w].buf[0] == 0)
  }

  lemma FreeNow(cfg: Config, tr: seq<State>, t: nat)
    requires Good(cfg, tr) && t < cfg.tuples && Last(tr).mem[t].lock == 0
    ensures Last(tr).mem[t].readers == {} && Last(tr).mem[t].owner == None
  {
    RunInv(cfg, tr, |tr| - 1);
    FreeCell(cfg, Last(tr), t);
  }

  lemma Win(cfg: Config, tr: seq<State>, w: Id, t: nat) returns (longer: seq<State>)
    requires At(cfg, tr, w, Idle) && t < cfg.tuples && Last(tr).mem[t].lock == 0
    ensures Good(cfg, longer) && tr < longer
    ensures Loading(cfg, Last(tr), Last(longer), w, t, FirstRead(cfg))
  {
    FreeNow(cfg, tr, t);
    longer := Extend(cfg, tr, w, StartExclusive(t));
    longer := Extend(cfg, longer, w, ExecCas);
    if !cfg.speculativeRead {
      longer := Extend(cfg, longer, w, TestExclusive);
    }
  }

  lemma LoadOne(cfg: Config, tr: seq<State>, s: State, w: Id, t: nat, k: nat) returns (longer: seq<State>)
    requires Good(cfg, tr) && Loading(cfg, s, Last(tr), w, t, k) && FirstRead(cfg) <= k <= cfg.words
    ensures Good(cfg, longer) && tr < longer && Loading(cfg, s, Last(longer), w, t, k + 1)
  {
    longer := Extend(cfg, tr, w, ReadWord(k));
  }

  lemma {:induction false} LoadAll(cfg: Config, tr: seq<State>, s: State, w: Id, t: nat, k: nat)
    returns (longer: seq<State>)
    requires Good(cfg, tr) && Loading(cfg, s, Last(tr), w, t, k)
    requires FirstRead(cfg) <= k <= cfg.words + 1
    ensures Good(cfg, longer) && tr <= longer
    ensures Loading(cfg, s, Last(longer), w, t, cfg.words + 1)
    decreases cfg.words + 1 - k
  {
    longer := tr;
    if k <= cfg.words {
      longer := LoadOne(cfg, longer, s, w, t, k);
      longer := LoadAll(cfg, longer, s, w, t, k + 1);
    }
  }

  /** x_order_release leaves the WRITE in the send queue. */
  ghost predicate Leaves(cfg: Config) {
    cfg.writeCombining && cfg.orderRelease
  }

  /** The WRITE has transferred words up to `k - 1`. */
  ghost predicate Storing(cfg: Config, s: State, s': State, w: Id, t: nat, k: nat) {
    && Won(cfg, s, s', w, t, Leaves(cfg))
    && if Leaves(cfg)
       then s'.ws[w].pc == Idle && s'.ws[w].late.LateWrite? && s'.ws[w].late.t == t && IsRange(s'.ws[w].late.done, 1, k)
       else s'.ws[w].pc.XWrite? && s'.ws[w].pc.t == t && IsRange(s'.ws[w].pc.done, 1, k) && s'.ws[w].late == Nothing
  }

  lemma FinishLoad(cfg: Config, tr: seq<State>, s: State, w: Id, t: nat) returns (longer: seq<State>)
    requires Good(cfg, tr) && Loading(cfg, s, Last(tr), w, t, cfg.words + 1)
    ensures Good(cfg, longer) && tr < longer && Won(cfg, s, Last(longer), w, t, false)
    ensures Last(longer).ws[w].pc == XGot(t) && Last(longer).ws[w].late == Nothing
  {
    longer := Extend(cfg, tr, w, EndRead);
  }

  lemma PostIt(cfg: Config, tr: seq<State>, s: State, w: Id, t: nat) returns (longer: seq<State>)
    requires Good(cfg, tr) && Won(cfg, s, Last(tr), w, t, false)
    requires Last(tr).ws[w].pc == XGot(t) && Last(tr).ws[w].late == Nothing
    ensures Good(cfg, longer) && tr < longer && Storing(cfg, s, Last(longer), w, t, 1)
  {
    longer := Extend(cfg, tr, w, Post);
  }

  lemma StoreOneLate(cfg: Config, tr: seq<State>, s: State, w: Id, t: nat, k: nat) returns (longer: seq<State>)
    requires Good(cfg, tr) && Storing(cfg, s, Last(tr), w, t, k) && 1 <= k <= cfg.words && Leaves(cfg)
    ensures Good(cfg, longer) && tr < longer && Storing(cfg, s, Last(longer), w, t, k + 1)
  {
    longer := Extend(cfg, tr, w, LateWriteWord(k));
  }

  lemma StoreOneNow(cfg: Config, tr: seq<State>, s: State, w: Id, t: nat, k: nat) returns (longer: seq<State>)
    requires Good(cfg, tr) && Storing(cfg, s, Last(tr), w, t, k) && 1 <= k <= cfg.words && !Leaves(cfg)
    ensures Good(cfg, longer) && tr < longer && Storing(cfg, s, Last(longer), w, t, k + 1)
  {
    longer := Extend(cfg, tr, w, WriteWord(k));
  }

  lemma {:induction false} StoreAll(cfg: Config, tr: seq<State>, s: State, w: Id, t: nat, k: nat)
    returns (longer: seq<State>)
    requires Good(cfg, tr) && Storing(cfg, s, Last(tr), w, t, k) && 1 <= k <= cfg.words + 1
    ensures Good(cfg, longer) && tr <= longer
    ensures Storing(cfg, s, Last(longer), w, t, cfg.words + 1)
    decreases cfg.words + 1 - k
  {
    longer := tr;
    if k <= cfg.words {
      if Leaves(cfg) {
        longer := StoreOneLate(cfg, longer, s, w, t, k);
      } else {
        longer := StoreOneNow(cfg, longer, s, w, t, k);
      }
      longer := StoreAll(cfg, longer, s, w, t, k + 1);
    }
  }

  /** The release of the lock. */
  ghost predicate Unlocked(cfg: Config, s: State, tr: seq<State>, w: Id, t: nat) {
    At(cfg, tr, w, Idle) && Won(cfg, s, Last(tr), w, t, true) && Last(tr).mem[t].owner == None
  }

  lemma UnlockLate(cfg: Config, tr: seq<State>, s: State, w: Id, t: nat) returns (longer: seq<State>)
    requires Good(cfg, tr) && Storing(cfg, s, Last(tr), w, t, cfg.words + 1) && Leaves(cfg)
    ensures Good(cfg, longer) && tr < longer && Unlocked(cfg, s, longer, w, t)
  {
    longer := Extend(cfg, tr, w, EndLateWrite);
    longer := Extend(cfg, longer, w, ExecLateExclusive);
  }

  lemma ReleaseNow(cfg: Config, tr: seq<State>, s: State, w: Id, t: nat) returns (longer: seq<State>)
    requires Good(cfg, tr) && Storing(cfg, s, Last(tr), w, t, cfg.words + 1) && !Leaves(cfg)
    ensures Good(cfg, longer) && tr < longer && At(cfg, longer, w, XDone(t))
    ensures Won(cfg, s, Last(longer), w, t, false) && Last(longer).mem[t].owner == None
  {
    longer := Extend(cfg, tr, w, EndWrite);
    longer := Extend(cfg, longer, w, ExecXAdd);
  }

  lemma UnlockNow(cfg: Config, tr: seq<State>, s: State, w: Id, t: nat) returns (longer: seq<State>)
    requires Good(cfg, tr) && Storing(cfg, s, Last(tr), w, t, cfg.words + 1) && !Leaves(cfg)
    ensures Good(cfg, longer) && tr < longer && Unlocked(cfg, s, longer, w, t)
  {
    longer := ReleaseNow(cfg, tr, s, w, t);
    longer := Extend(cfg, longer, w, Count);
  }

  lemma WriterStores(cfg: Config, tr: seq<State>, w: Id, t: nat) returns (longer: seq<State>)
    requires At(cfg, tr, w, Idle) && t < cfg.tuples && Last(tr).mem[t].lock == 0
    ensures Good(cfg, longer) && tr < longer && Storing(cfg, Last(tr), Last(longer), w, t, cfg.words + 1)
  {
    var s := Last(tr);
    longer := Win(cfg, tr, w, t);
    longer := LoadAll(cfg, longer, s, w, t, FirstRead(cfg));
    longer := FinishLoad(cfg, longer, s, w, t);
    longer := PostIt(cfg, longer, s, w, t);
    longer := StoreAll(cfg, longer, s, w, t, 1);
  }

  lemma WriterUnlocks(cfg: Config, tr: seq<State>, s: State, w: Id, t: nat) returns (longer: seq<State>)
    requires Good(cfg, tr) && Storing(cfg, s, Last(tr), w, t, cfg.words + 1)
    ensures Good(cfg, longer) && tr < longer && Unlocked(cfg, s, longer, w, t)
  {
    if Leaves(cfg) {
      longer := UnlockLate(cfg, tr, s, w, t);
    } else {
      longer := UnlockNow(cfg, tr, s, w, t);
    }
  }

  /** A writer of a free tuple, alone: in the end the tuple is free again and its counter and every payload word are one
      more, the update is counted, and nothing else has changed but the writer's buffer. */
  lemma WriterCompletes(cfg: Config, tr: seq<State>, w: Id, t: nat) returns (longer: seq<State>)
    requires At(cfg, tr, w, Idle) && t < cfg.tuples && Last(tr).mem[t].lock == 0
    ensures Good(cfg, longer) && tr < longer && At(cfg, longer, w, Idle)
    ensures var s, s' := Last(tr), Last(longer); var n := s.mem[t].val + 1;
      && s'.mem == s.mem[t := Cell(0, seq(cfg.words, _ => n % WORD), None, {}, n)]
      && s'.ws == s.ws[w := s'.ws[w]] && s'.updates == s.updates + 1 && s'.uncounted == s.uncounted
  {
    var s := Last(tr);
    IdleIsNobody(cfg, tr, w, t);
    longer := WriterStores(cfg, tr, w, t);
    longer := WriterUnlocks(cfg, longer, s, w, t);
    Unowned(cfg, longer, t);
  }

  // ---- a release that was left in the send queue ------------------------------------------------------------

  ghost predicate LateOnly(s: State, s': State, w: Id) {
    w in s.ws && w in s'.ws && s'.ws == s.ws[w := s'.ws[w]] && s'.ws[w].pc == s.ws[w].pc
  }

  lemma {:induction false} LateStores(cfg: Config, tr: seq<State>, w: Id, k: nat) returns (longer: seq<State>)
    requires Good(cfg, tr) && w in Last(tr).ws && Last(tr).ws[w].late.LateWrite? && 1 <= k <= cfg.words + 1
    requires DoneFrom(1, k - 1, Last(tr).ws[w].late.done)
    ensures Good(cfg, longer) && tr <= longer && LateOnly(Last(tr), Last(longer), w)
    ensures Last(longer).ws[w].late.LateWrite? && DoneFrom(1, cfg.words, Last(longer).ws[w].late.done)
    decreases cfg.words + 1 - k
  {
    longer := tr;
    if k <= cfg.words {
      if k !in Last(longer).ws[w].late.done {
        longer := Extend(cfg, longer, w, LateWriteWord(k));
      }
      longer := LateStores(cfg, longer, w, k + 1);
    }
  }

  lemma LateReleases(cfg: Config, tr: seq<State>, w: Id) returns (longer: seq<State>)
    requires Good(cfg, tr) && w in Last(tr).ws
    requires Last(tr).ws[w].late.LateExclusive? || Last(tr).ws[w].late.LateShared?
    ensures Good(cfg, longer) && tr <= longer && LateOnly(Last(tr), Last(longer), w)
    ensures Last(longer).ws[w].late == Nothing
  {
    longer := Extend(cfg, tr, w, if Last(tr).ws[w].late.LateShared? then ExecLateShared else ExecLateExclusive);
  }

  /** It executes without a step of anybody else, whatever its worker is doing. */
  lemma SendQueueDrains(cfg: Config, tr: seq<State>, w: Id) returns (longer: seq<State>)
    requires Good(cfg, tr) && w in Last(tr).ws
    ensures Good(cfg, longer) && tr <= longer && LateOnly(Last(tr), Last(longer), w)
    ensures Last(longer).ws[w].late == Nothing
  {
    longer := tr;
    if Last(tr).ws[w].late.LateWrite? {
      longer := LateStores(cfg, longer, w, 1);
      longer := Extend(cfg, longer, w, EndLateWrite);
    }
    if Last(longer).ws[w].late != Nothing {
      longer := LateReleases(cfg, longer, w);
    }
  }
}
