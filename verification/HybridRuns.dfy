/** Runs of the HybridLatch: every call ends as it should if nobody disturbs it, and the bound on latch cycles is
    sharp. */
module HybridRuns {
  import opened Words
  import opened HybridLatch

  ghost function Last(tr: seq<State>): State
    requires |tr| >= 1
  {
    tr[|tr| - 1]
  }

  /** One more step of a run. */
  lemma Extend(tr: seq<State>, w: Id, a: Action) returns (longer: seq<State>)
    requires Run(tr) && Enabled(Last(tr), w, a)
    ensures Run(longer) && longer == tr + [Apply(Last(tr), w, a)] && Inv(Last(longer))
  {
    longer := tr + [Apply(Last(tr), w, a)];
    assert StepBy(Last(tr), w, a, Last(longer));
    forall i | 0 <= i < |longer| - 1
      ensures StepAt(longer, i)
    {
      assert i < |tr| - 1 ==> StepAt(tr, i);
    }
    RunInv(longer, |longer| - 1);
  }

  /** A reachable state in which thread `w` is at `pc`. */
  ghost predicate At(tr: seq<State>, w: Id, pc: Pc) {
    Run(tr) && Inv(Last(tr)) && w in Last(tr).th && Last(tr).th[w] == pc
  }

  /** A run that goes on with steps of thread `w` only, to `pc`; the count has grown by `d`. */
  ghost predicate To(tr: seq<State>, longer: seq<State>, w: Id, pc: Pc, d: nat) {
    && |tr| >= 1 && At(longer, w, pc) && tr < longer
    && Last(longer).th == Last(tr).th[w := pc] && Last(longer).count == Last(tr).count + d
  }

  // ---- exclusive --------------------------------------------------------------------------------------------

  /** The mutex has been taken; the version is loaded and stored. */
  lemma OpenAlone(tr: seq<State>, w: Id, goal: Goal) returns (longer: seq<State>)
    requires At(tr, w, Locked(goal))
    ensures To(tr, longer, w, Stored(goal), 2) && Last(longer).shared == Last(tr).shared
  {
    longer := Extend(tr, w, Advance);
    longer := Extend(longer, w, Advance);
  }

  lemma LatchAlone(tr: seq<State>, w: Id) returns (longer: seq<State>)
    requires At(tr, w, Out) && MutexFree(Last(tr))
    ensures To(tr, longer, w, Held(Plain), 2)
  {
    longer := Extend(tr, w, LatchExclusive);
    longer := OpenAlone(longer, w, Plain);
    LatchedIffSection(Last(longer));
    longer := Extend(longer, w, Advance);
  }

  /** The comparison succeeds when only the thread itself has changed the version. */
  lemma HoldAlone(tr: seq<State>, w: Id, start: Ref) returns (longer: seq<State>)
    requires At(tr, w, Stored(Upgrade(start))) && Last(tr).count == start.at + 2
    ensures To(tr, longer, w, Held(Upgrade(start)), 0)
  {
    assert WorkerOk(Last(tr), w);
    PlusMod(start.at, 2);
    LatchedIffSection(Last(tr));
    longer := Extend(tr, w, Advance);
  }

  /** optimisticUpgradeToExclusive on an unchanged version. */
  lemma UpgradeAlone(tr: seq<State>, w: Id, start: Ref) returns (longer: seq<State>)
    requires At(tr, w, Optimistic(start)) && MutexFree(Last(tr)) && Last(tr).count == start.at
    ensures To(tr, longer, w, Held(Upgrade(start)), 2)
  {
    UpgradesGoOnExactly(tr, |tr| - 1, w, start);
    longer := Extend(tr, w, UpgradeToExclusive);
    longer := Extend(longer, w, Advance);
    longer := OpenAlone(longer, w, Upgrade(start));
    longer := HoldAlone(longer, w, start);
  }

  /** The section is closed, up to the release of the mutex ... */
  lemma StoreClosed(tr: seq<State>, w: Id, after: After) returns (longer: seq<State>, r: Ref)
    requires At(tr, w, Closing(after))
    ensures To(tr, longer, w, Closed(after, r), 2) && r == Now(Last(longer))
  {
    LatchedIffSection(Last(tr));
    assert WorkerOk(Last(tr), w);
    longer := Extend(tr, w, Advance);
    longer := Extend(longer, w, Advance);
    longer := Extend(longer, w, Advance);
    assert WorkerOk(Last(longer), w);
    r := Now(Last(longer));
  }

  /** Where a thread is after its section. */
  function Behind(after: After, r: Ref): Pc {
    if after.Leave? then Out else if after.ToShared? then Relock(r) else Optimistic(r)
  }

  /** ... which follows. */
  lemma CloseAlone(tr: seq<State>, w: Id, after: After) returns (longer: seq<State>, r: Ref)
    requires At(tr, w, Closing(after))
    ensures To(tr, longer, w, Behind(after, r), 2) && r == Now(Last(longer)) && MutexFree(Last(longer))
  {
    longer, r := StoreClosed(tr, w, after);
    LatchedIffSection(Last(longer));
    assert WorkerOk(Last(longer), w);
    longer := Extend(longer, w, Advance);
    assert WorkerOk(Last(longer), w);
    longer := Extend(longer, w, Advance);
  }

  lemma UnlatchAlone(tr: seq<State>, w: Id, goal: Goal) returns (longer: seq<State>)
    requires At(tr, w, Held(goal))
    ensures To(tr, longer, w, Out, 2) && MutexFree(Last(longer))
  {
    var r;
    longer := Extend(tr, w, UnlatchExclusive);
    longer, r := CloseAlone(longer, w, Leave);
  }

  lemma DowngradeToOptimisticAlone(tr: seq<State>, w: Id, goal: Goal) returns (longer: seq<State>, r: Ref)
    requires At(tr, w, Held(goal))
    ensures To(tr, longer, w, Optimistic(r), 2) && r == Now(Last(longer)) && MutexFree(Last(longer))
  {
    longer := Extend(tr, w, DowngradeToOptimistic);
    longer, r := CloseAlone(longer, w, Last(longer).th[w].after);
  }

  /** latchShared inside the downgrade, on the version that was just stored. */
  lemma RelockAlone(tr: seq<State>, w: Id, r: Ref) returns (longer: seq<State>)
    requires At(tr, w, Relock(r)) && r == Now(Last(tr)) && MutexFree(Last(tr))
    ensures To(tr, longer, w, SharedHeld(Some(r)), 0) && Last(longer).shared == {w}
  {
    longer := Extend(tr, w, Advance);
    LatchedIffSection(Last(longer));
    longer := Extend(longer, w, Advance);
    longer := Extend(longer, w, Advance);
  }

  lemma DowngradeAlone(tr: seq<State>, w: Id, goal: Goal) returns (longer: seq<State>, r: Ref)
    requires At(tr, w, Held(goal))
    ensures To(tr, longer, w, SharedHeld(Some(r)), 2) && r == Now(Last(longer)) && Last(longer).shared == {w}
  {
    longer := Extend(tr, w, Downgrade);
    longer, r := CloseAlone(longer, w, ToShared);
    longer := RelockAlone(longer, w, r);
  }

  // ---- shared -----------------------------------------------------------------------------------------------

  /** However many others hold the latch shared. */
  lemma SharedAlone(tr: seq<State>, w: Id) returns (longer: seq<State>)
    requires At(tr, w, Out) && Last(tr).excl == None
    ensures To(tr, longer, w, SharedHeld(None), 0) && Last(longer).shared == Last(tr).shared + {w}
  {
    longer := Extend(tr, w, LatchShared);
    LatchedIffSection(Last(longer));
    longer := Extend(longer, w, Advance);
  }

  /** optimisticUpgradeToShared on an unchanged version. */
  lemma UpgradeToSharedAlone(tr: seq<State>, w: Id, start: Ref) returns (longer: seq<State>)
    requires At(tr, w, Optimistic(start)) && Last(tr).excl == None && Last(tr).count == start.at
    ensures To(tr, longer, w, SharedHeld(Some(start)), 0) && Last(longer).shared == Last(tr).shared + {w}
  {
    UpgradesGoOnExactly(tr, |tr| - 1, w, start);
    assert WorkerOk(Last(tr), w);
    longer := Extend(tr, w, UpgradeToShared);
    longer := Extend(longer, w, Advance);
    longer := Extend(longer, w, Advance);
  }

  lemma UnlatchSharedAlone(tr: seq<State>, w: Id, since: Option<Ref>) returns (longer: seq<State>)
    requires At(tr, w, SharedHeld(since))
    ensures To(tr, longer, w, Out, 0) && Last(longer).shared == Last(tr).shared - {w}
  {
    longer := Extend(tr, w, UnlatchShared);
    longer := Extend(longer, w, Advance);
  }

  lemma SharedToOptimisticAlone(tr: seq<State>, w: Id, since: Option<Ref>) returns (longer: seq<State>)
    requires At(tr, w, SharedHeld(since))
    ensures To(tr, longer, w, Optimistic(Now(Last(tr))), 0) && Last(longer).shared == Last(tr).shared - {w}
  {
    longer := Extend(tr, w, SharedToOptimistic);
    longer := Extend(longer, w, Advance);
  }

  // ---- the bound is sharp -----------------------------------------------------------------------------------

  /** The latch is free, thread 0 is outside, and thread 1 keeps a reference to the first version. */
  ghost predicate Waiting(s: State, count: nat) {
    && Inv(s) && MutexFree(s) && s.count == count && s.th == map[0 := Out, 1 := Optimistic(Ref(4, 4))]
  }

  lemma {:induction false} Cycles(tr: seq<State>, n: nat) returns (longer: seq<State>)
    requires Run(tr) && Waiting(Last(tr), Last(tr).count)
    ensures Run(longer) && tr <= longer && Waiting(Last(longer), Last(tr).count + 4 * n)
  {
    longer := tr;
    if n > 0 {
      longer := Cycles(longer, n - 1);
      longer := LatchAlone(longer, 0);
      longer := UnlatchAlone(longer, 0, Plain);
    }
  }

  lemma FirstReference() returns (tr: seq<State>)
    ensures Run(tr) && |tr| == 2 && Waiting(Last(tr), 4)
  {
    tr := [State(4, None, {}, map[0 := Out, 1 := Out], 4)];
    assert !IsLatched(4);
    tr := Extend(tr, 1, LatchOptimistic);
  }

  /** Exactly 2^62 latch cycles are too many: the version of state 1 has returned at `j`, thread 1 takes it for
      unchanged and its upgrade succeeds, although thread 0 was inside at `k`. */
  lemma VersionReturns() returns (tr: seq<State>, k: nat, j: nat)
    ensures Run(tr) && 1 <= k <= j < |tr| && !IsLatched(tr[1].version) && tr[j].version == tr[1].version
    ensures tr[j].count - tr[1].count == WORD
    ensures Comparing(tr[j], 1, Now(tr[1])) && Succeeds(tr[j], 1)
    ensures 0 in tr[k].th && InSection(tr[k].th[0])
  {
    tr := FirstReference();
    tr := LatchAlone(tr, 0);
    k := |tr| - 1;
    var start := tr;
    tr := UnlatchAlone(tr, 0, Plain);
    tr := Cycles(tr, WORD / 4 - 1);
    var s := Last(tr);
    assert s.count == 4 + WORD && s.version == 4;
    tr := Extend(tr, 1, UpgradeToShared);
    tr := Extend(tr, 1, Advance);
    j := |tr| - 1;
    assert tr[k] == start[k];
  }
}
