/** The reusable Barrier of backend/nam/threads/Concurrency.hpp, used by exactly `threadCount` threads for any
    number of rounds. Every access to `cntr` and `round` is one step; `round` has eight bits.

    `rounds` is the round without wrap-around, `arrived` who has decremented the counter in this round, `leader`
    who got the last ticket, `arrivals` how often each thread has arrived, `finals` how often a finalizer ran;
    all are history variables, like the second component of a waiting thread. */
module Barrier {
  import opened Words

  type Id = nat

  const ROUNDS: int := 256

  datatype Pc =
    | Out
    | Entered(prevRound: int, g: nat)        // round loaded, counter not yet decremented
    | Waiting(prevRound: int, g: nat)        // spinning while round == prevRound
    | Reset | Finalize | Bump                // the last thread: cntr = threadCount; finalizer(); round++

  datatype State = State(
    cntr: Word, round: int, th: map<Id, Pc>,
    rounds: nat, arrived: set<Id>, leader: Option<Id>, arrivals: map<Id, nat>, finals: nat)

  datatype Action = Load | FetchSub | StoreCounter | RunFinalizer | NextRound | Leave

  ghost predicate Init(s: State) {
    && 1 <= |s.th| < WORD && s.cntr == |s.th| && s.round == 0
    && (forall w <- s.th :: s.th[w] == Out)
    && s.rounds == 0 && s.arrived == {} && s.leader == None && s.finals == 0
    && s.arrivals == map w | w in s.th :: 0
  }

  ghost predicate Enabled(s: State, w: Id, a: Action) {
    w in s.th && w in s.arrivals &&
    match (a, s.th[w])
    case (Load, Out) => true
    case (FetchSub, Entered(_, _)) => true
    case (StoreCounter, Reset) => true
    case (RunFinalizer, Finalize) => true
    case (NextRound, Bump) => true
    case (Leave, Waiting(prevRound, _)) => s.round != prevRound
    case _ => false
  }

  ghost function Put(s: State, w: Id, pc: Pc): State {
    s.(th := s.th[w := pc])
  }

  ghost function FetchSubStep(s: State, w: Id): State
    requires Enabled(s, w, FetchSub)
  {
    var s' := s.(cntr := Plus(s.cntr, -1), arrived := s.arrived + {w}, arrivals := s.arrivals[w := s.arrivals[w] + 1]);
    if s.cntr == 1 then Put(s', w, Reset).(leader := Some(w))
    else Put(s', w, Waiting(s.th[w].prevRound, s.th[w].g))
  }

  ghost function Apply(s: State, w: Id, a: Action): State
    requires Enabled(s, w, a) && |s.th| < WORD
  {
    match a
    case Load => Put(s, w, Entered(s.round, s.rounds))
    case FetchSub => FetchSubStep(s, w)
    case StoreCounter => Put(s, w, Finalize).(cntr := |s.th|)
    case RunFinalizer => Put(s, w, Bump).(finals := s.finals + 1)
    case NextRound =>
      Put(s, w, Out).(round := (s.round + 1) % ROUNDS, rounds := s.rounds + 1, arrived := {}, leader := None)
    case Leave => Put(s, w, Out)
  }

  // ---- the invariant --------------------------------------------------------------------------------------

  predicate IsLast(pc: Pc) {
    pc.Reset? || pc.Finalize? || pc.Bump?
  }

  ghost predicate ThreadOk(s: State, w: Id)
  {
    w in s.th ==>
      && w in s.arrivals
      && (s.leader == Some(w) <==> IsLast(s.th[w]))
      && s.arrivals[w] == s.rounds + (if w in s.arrived then 1 else 0)
      && (match s.th[w]
          case Out => w !in s.arrived
          case Entered(prevRound, g) => w !in s.arrived && g == s.rounds && prevRound == s.round
          case Waiting(prevRound, g) =>
            prevRound == g % ROUNDS && (if w in s.arrived then g == s.rounds else g + 1 == s.rounds)
          case _ => w in s.arrived)
  }

  ghost predicate Inv(s: State) {
    && 1 <= |s.th| < WORD
    && s.round == s.rounds % ROUNDS
    && s.arrived <= s.th.Keys && s.arrivals.Keys == s.th.Keys
    && (match s.leader
        case None => |s.arrived| < |s.th| && s.cntr == |s.th| - |s.arrived| && s.finals == s.rounds
        case Some(w) =>
          && w in s.th && IsLast(s.th[w]) && s.arrived == s.th.Keys
          && s.cntr == (if s.th[w].Reset? then 0 else |s.th|)
          && s.finals == s.rounds + (if s.th[w].Bump? then 1 else 0))
    && (forall w: Id :: ThreadOk(s, w))
  }

  lemma SubsetSize(a: set<Id>, b: set<Id>)
    requires a <= b
    ensures |a| <= |b| && (|a| == |b| ==> a == b)
  {
    if a != {} {
      var x :| x in a;
      SubsetSize(a - {x}, b - {x});
    }
  }

  /** While a round counter is at most one ahead of a waiter, eight bits are enough to tell the rounds apart. */
  lemma EightBitsSuffice(g: nat)
    ensures (g + 1) % ROUNDS != g % ROUNDS
  {
  }

  lemma NextRoundWord(g: nat)
    ensures (g % ROUNDS + 1) % ROUNDS == (g + 1) % ROUNDS
  {
  }

  lemma FetchSubKeepsInv(s: State, w: Id)
    requires Inv(s) && Enabled(s, w, FetchSub)
    ensures Inv(FetchSubStep(s, w))
  {
    var s' := FetchSubStep(s, w);
    assert ThreadOk(s, w);
    assert s.leader == None;
    SubsetSize(s.arrived + {w}, s.th.Keys);
    assert |s.arrived + {w}| == |s.arrived| + 1 && s'.th.Keys == s.th.Keys && |s.th.Keys| == |s.th|;
    forall u: Id ensures ThreadOk(s', u) {
      assert ThreadOk(s, u);
    }
  }

  lemma NextRoundKeepsInv(s: State, w: Id)
    requires Inv(s) && Enabled(s, w, NextRound)
    ensures Inv(Apply(s, w, NextRound))
  {
    var s' := Apply(s, w, NextRound);
    NextRoundWord(s.rounds);
    assert ThreadOk(s, w);
    assert s'.th.Keys == s.th.Keys && |s'.th| == |s.th|;
    forall u: Id ensures ThreadOk(s', u) {
      assert ThreadOk(s, u);
    }
  }

  lemma OtherKeepsInv(s: State, w: Id, a: Action)
    requires Inv(s) && Enabled(s, w, a) && (a.Load? || a.StoreCounter? || a.RunFinalizer? || a.Leave?)
    ensures Inv(Apply(s, w, a))
  {
    var s' := Apply(s, w, a);
    assert ThreadOk(s, w);
    assert s'.th.Keys == s.th.Keys && |s'.th| == |s.th|;
    forall u: Id ensures ThreadOk(s', u) {
      assert ThreadOk(s, u);
    }
  }

  lemma StepKeepsInv(s: State, w: Id, a: Action)
    requires Inv(s) && Enabled(s, w, a)
    ensures Inv(Apply(s, w, a))
  {
    if a.FetchSub? { FetchSubKeepsInv(s, w); }
    else if a.NextRound? { NextRoundKeepsInv(s, w); }
    else { OtherKeepsInv(s, w, a); }
  }

  // ---- runs -------------------------------------------------------------------------------------------------

  ghost predicate StepBy(s: State, w: Id, a: Action, s': State) {
    Enabled(s, w, a) && |s.th| < WORD && s' == Apply(s, w, a)
  }

  ghost predicate Next(s: State, s': State) {
    exists w, a :: StepBy(s, w, a, s')
  }

  ghost predicate StepAt(tr: seq<State>, i: nat)
    requires i + 1 < |tr|
  {
    Next(tr[i], tr[i + 1])
  }

  ghost predicate Run(tr: seq<State>) {
    && |tr| >= 1 && Init(tr[0])
    && (forall i :: 0 <= i < |tr| - 1 ==> StepAt(tr, i))
  }

  lemma {:induction false} RunInv(tr: seq<State>, j: nat)
    requires Run(tr) && j < |tr|
    ensures Inv(tr[j])
  {
    if j == 0 {
      forall w: Id ensures ThreadOk(tr[0], w) {}
    } else {
      RunInv(tr, j - 1);
      assert StepAt(tr, j - 1);
      var w, a :| StepBy(tr[j - 1], w, a, tr[j]);
      StepKeepsInv(tr[j - 1], w, a);
    }
  }

  /** Nobody leaves before all have arrived: when a thread may leave, by the spin test or as the last one, every
      thread has arrived at least as often as it has, and so many finalizers have run. */
  lemma NobodyLeavesEarly(tr: seq<State>, j: nat, w: Id, a: Action, u: Id)
    requires Run(tr) && j < |tr| && Enabled(tr[j], w, a) && (a.Leave? || a.NextRound?)
    requires u in tr[j].th
    ensures u in tr[j].arrivals && tr[j].arrivals[u] >= tr[j].arrivals[w]
    ensures w in tr[j].arrivals && tr[j].finals >= tr[j].arrivals[w]
  {
    RunInv(tr, j);
    assert ThreadOk(tr[j], w) && ThreadOk(tr[j], u);
  }

  /** The spin test is exact in spite of the eight bits: a waiting thread sees a different round if and only if
      its own round is over, and the round counter is never more than one ahead of it. */
  lemma SpinTestIsExact(tr: seq<State>, j: nat, w: Id)
    requires Run(tr) && j < |tr| && w in tr[j].th && tr[j].th[w].Waiting?
    ensures tr[j].th[w].g <= tr[j].rounds <= tr[j].th[w].g + 1
    ensures tr[j].round != tr[j].th[w].prevRound <==> tr[j].rounds == tr[j].th[w].g + 1
  {
    RunInv(tr, j);
    assert ThreadOk(tr[j], w);
    EightBitsSuffice(tr[j].th[w].g);
  }

  /** A waiting thread may leave if and only if its round is over. */
  lemma LeavesExactly(tr: seq<State>, j: nat, w: Id)
    requires Run(tr) && j < |tr| && w in tr[j].th && tr[j].th[w].Waiting?
    ensures Enabled(tr[j], w, Leave) <==> tr[j].rounds == tr[j].th[w].g + 1
  {
    RunInv(tr, j);
    assert ThreadOk(tr[j], w);
    EightBitsSuffice(tr[j].th[w].g);
  }

  /** A thread ends the round if and only if all others have arrived before it; otherwise it waits for that round. */
  lemma LastExactly(tr: seq<State>, j: nat, w: Id)
    requires Run(tr) && j < |tr| && Enabled(tr[j], w, FetchSub)
    ensures w !in tr[j].arrived
    ensures var pc' := FetchSubStep(tr[j], w).th[w];
            if tr[j].arrived + {w} == tr[j].th.Keys then pc' == Reset else pc'.Waiting? && pc'.g == tr[j].rounds
  {
    var s := tr[j];
    RunInv(tr, j);
    assert ThreadOk(s, w) && s.leader == None;
    SubsetSize(s.arrived + {w}, s.th.Keys);
    assert |s.arrived + {w}| == |s.arrived| + 1 && |s.th.Keys| == |s.th|;
  }

  /** The finalizer runs exactly once per round: as many have run as rounds are over, plus one while the last
      thread stands between its finalizer and the end of its round. */
  lemma OneFinalizerPerRound(tr: seq<State>, j: nat)
    requires Run(tr) && j < |tr|
    ensures tr[j].finals == tr[j].rounds + (if exists w :: w in tr[j].th && tr[j].th[w] == Bump then 1 else 0)
  {
    RunInv(tr, j);
    forall w | w in tr[j].th ensures ThreadOk(tr[j], w) {}
  }

  /** The finalizer runs while everybody else waits: all threads have arrived and none has left. */
  lemma FinalizerRunsAlone(tr: seq<State>, j: nat, w: Id, u: Id)
    requires Run(tr) && j < |tr| && Enabled(tr[j], w, RunFinalizer) && u in tr[j].th && u != w
    ensures tr[j].th[u].Waiting? && tr[j].round == tr[j].th[u].prevRound
    ensures tr[j].finals == tr[j].rounds
  {
    RunInv(tr, j);
    assert ThreadOk(tr[j], w) && ThreadOk(tr[j], u);
  }

  // ---- nobody waits in vain ---------------------------------------------------------------------------------

  ghost function Last(tr: seq<State>): State
    requires |tr| >= 1
  {
    tr[|tr| - 1]
  }

  /** One more step of a run. */
  lemma Extend(tr: seq<State>, w: Id, a: Action) returns (longer: seq<State>)
    requires Run(tr) && Enabled(Last(tr), w, a)
    ensures |Last(tr).th| < WORD && Run(longer) && tr <= longer && Last(longer) == Apply(Last(tr), w, a)
    ensures Inv(Last(longer))
  {
    RunInv(tr, |tr| - 1);
    longer := tr + [Apply(Last(tr), w, a)];
    assert StepBy(Last(tr), w, a, Last(longer));
    forall i | 0 <= i < |longer| - 1
      ensures StepAt(longer, i)
    {
      assert i < |tr| - 1 ==> StepAt(tr, i);
    }
    RunInv(longer, |longer| - 1);
  }

  /** The last thread ends the round. */
  lemma EndRound(tr: seq<State>, w: Id) returns (longer: seq<State>)
    requires Run(tr) && Inv(Last(tr)) && Last(tr).leader == Some(w)
    ensures Run(longer) && tr <= longer && Inv(Last(longer)) && w in Last(tr).th
    ensures Last(longer).th == Last(tr).th[w := Out] && Last(longer).rounds == Last(tr).rounds + 1
  {
    longer := tr;
    assert ThreadOk(Last(tr), w);
    if Last(longer).th[w].Reset? {
      longer := Extend(longer, w, StoreCounter);
    }
    if Last(longer).th[w].Finalize? {
      longer := Extend(longer, w, RunFinalizer);
    }
    longer := Extend(longer, w, NextRound);
  }

  /** A thread that has not arrived leaves the round before, if it is still there, and loads the round ... */
  lemma Enter(tr: seq<State>, w: Id) returns (longer: seq<State>)
    requires Run(tr) && Inv(Last(tr)) && Last(tr).leader == None && w in Last(tr).th && w !in Last(tr).arrived
    ensures Run(longer) && tr <= longer && Inv(Last(longer)) && Enabled(Last(longer), w, FetchSub)
    ensures var s, s' := Last(tr), Last(longer); s' == s.(th := s.th[w := s'.th[w]])
  {
    longer := tr;
    assert ThreadOk(Last(tr), w);
    if Last(longer).th[w].Waiting? {
      EightBitsSuffice(Last(longer).th[w].g);
      longer := Extend(longer, w, Leave);
    }
    if Last(longer).th[w].Out? {
      longer := Extend(longer, w, Load);
    }
  }

  /** ... and arrives. */
  lemma Arrive(tr: seq<State>, w: Id) returns (longer: seq<State>)
    requires Run(tr) && Inv(Last(tr)) && Last(tr).leader == None && w in Last(tr).th && w !in Last(tr).arrived
    ensures Run(longer) && tr <= longer && Inv(Last(longer)) && Last(longer).rounds == Last(tr).rounds
    ensures w in Last(longer).th && Last(longer).th == Last(tr).th[w := Last(longer).th[w]]
    ensures Last(longer).arrived == Last(tr).arrived + {w}
  {
    longer := Enter(tr, w);
    longer := Extend(longer, w, FetchSub);
  }

  lemma Missing(s: State) returns (u: Id)
    requires Inv(s) && s.leader == None
    ensures u in s.th && u !in s.arrived
  {
    assert |s.th.Keys - s.arrived| == |s.th.Keys| - |s.arrived| && |s.th.Keys| == |s.th|;
    u :| u in s.th.Keys - s.arrived;
  }

  /** All arrive; thread `w` waits meanwhile. */
  lemma {:induction false} ArriveAll(tr: seq<State>, w: Id) returns (longer: seq<State>)
    requires Run(tr) && Inv(Last(tr)) && w in Last(tr).arrived && w in Last(tr).th && !IsLast(Last(tr).th[w])
    ensures Run(longer) && tr <= longer && Inv(Last(longer)) && Last(longer).leader.Some?
    ensures w in Last(longer).th && Last(longer).th[w] == Last(tr).th[w] && Last(longer).rounds == Last(tr).rounds
    decreases |Last(tr).th| - |Last(tr).arrived|
  {
    longer := tr;
    var s := Last(tr);
    if s.leader == None {
      var u := Missing(s);
      longer := Arrive(longer, u);
      assert |s.arrived + {u}| == |s.arrived| + 1 && Last(longer).th.Keys == s.th.Keys;
      assert |Last(longer).th.Keys| == |Last(longer).th| && |s.th.Keys| == |s.th|;
      SubsetSize(Last(longer).arrived, s.th.Keys);
      longer := ArriveAll(longer, w);
    }
  }

  /** From every reachable state in which a thread waits, the other threads can go on until it may leave, without any
      step of its own. */
  lemma CanAlwaysLeave(tr: seq<State>, w: Id) returns (longer: seq<State>)
    requires Run(tr) && w in Last(tr).th && Last(tr).th[w].Waiting?
    ensures Run(longer) && tr <= longer && w in Last(longer).th && Last(longer).th[w] == Last(tr).th[w]
    ensures Enabled(Last(longer), w, Leave)
  {
    longer := tr;
    RunInv(tr, |tr| - 1);
    assert ThreadOk(Last(tr), w);
    var g := Last(tr).th[w].g;
    if Last(tr).rounds == g {
      longer := ArriveAll(longer, w);
      assert ThreadOk(Last(longer), w);
      longer := EndRound(longer, Last(longer).leader.value);
    }
    LeavesExactly(longer, |longer| - 1, w);
  }
}
