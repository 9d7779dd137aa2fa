/** rdma_barrier_wait and rdma_barrier_nam_wait of frontend/BenchmarkHelper.hpp: all workers fetch-and-add one remote
    word and re-read it until it is their number times the stage.

    Passing the barrier of a stage and arriving at the next one are separate steps, so the workers of a run are
    spread over stages. The word and the expected value wrap at 2^64. */
module RdmaBarrier {
  import opened Words

  /** `arrived` and `passed` count stages, worker by worker; `buf` are the local barrier buffers. */
  datatype State = State(mem: Word, buf: seq<Word>, arrived: seq<nat>, passed: seq<nat>)

  datatype Action = Arrive | Reread | Pass

  /** `workers` times `stage`. */
  function Times(workers: nat, stage: nat): nat {
    if workers == 0 then 0 else Times(workers - 1, stage) + stage
  }

  function Expected(workers: nat, stage: nat): Word {
    Times(workers, stage) % WORD
  }

  ghost predicate Shaped(n: nat, s: State) {
    |s.buf| == |s.arrived| == |s.passed| == n
  }

  ghost predicate Init(n: nat, s: State) {
    && Shaped(n, s) && s.mem == 0
    && forall w :: 0 <= w < n ==> s.arrived[w] == 0 == s.passed[w]
  }

  ghost predicate Waiting(s: State, w: nat)
    requires w < |s.arrived| && w < |s.passed|
  {
    s.arrived[w] == s.passed[w] + 1
  }

  ghost predicate Enabled(n: nat, s: State, w: nat, a: Action)
    requires Shaped(n, s)
  {
    w < n &&
    match a
    case Arrive => s.arrived[w] == s.passed[w]
    case Reread => Waiting(s, w) && s.buf[w] != Expected(n, s.arrived[w])
    case Pass => Waiting(s, w) && s.buf[w] == Expected(n, s.arrived[w])
  }

  /** The fetch-and-add leaves the old value in the buffer that the loop then compares. */
  ghost function Apply(n: nat, s: State, w: nat, a: Action): State
    requires Shaped(n, s) && Enabled(n, s, w, a)
  {
    match a
    case Arrive => s.(mem := Plus(s.mem, 1), buf := s.buf[w := s.mem], arrived := s.arrived[w := s.arrived[w] + 1])
    case Reread => s.(buf := s.buf[w := s.mem])
    case Pass => s.(passed := s.passed[w := s.passed[w] + 1])
  }

  ghost predicate StepBy(n: nat, s: State, w: nat, a: Action, s': State) {
    Shaped(n, s) && Enabled(n, s, w, a) && s' == Apply(n, s, w, a)
  }

  ghost predicate Next(n: nat, s: State, s': State) {
    exists w, a :: StepBy(n, s, w, a, s')
  }

  ghost predicate StepAt(n: nat, tr: seq<State>, i: nat)
    requires i + 1 < |tr|
  {
    Next(n, tr[i], tr[i + 1])
  }

  ghost predicate Run(n: nat, tr: seq<State>) {
    && |tr| >= 1 && Init(n, tr[0])
    && (forall i :: 0 <= i < |tr| - 1 ==> StepAt(n, tr, i))
  }

  // ---- counting arrivals ----------------------------------------------------------------------------------

  ghost function Sum(a: seq<nat>): nat {
    if a == [] then 0 else Sum(a[..|a| - 1]) + a[|a| - 1]
  }

  /** How far the arrivals are from everyone being at `stage`. */
  ghost function Excess(a: seq<nat>, stage: nat): int {
    if a == [] then 0 else Excess(a[..|a| - 1], stage) + a[|a| - 1] - stage
  }

  lemma {:induction false} SumAtStage(a: seq<nat>, stage: nat)
    ensures Sum(a) == Times(|a|, stage) + Excess(a, stage)
  {
    if a != [] {
      SumAtStage(a[..|a| - 1], stage);
    }
  }

  lemma {:induction false} SumUpdate(a: seq<nat>, w: nat)
    requires w < |a|
    ensures Sum(a[w := a[w] + 1]) == Sum(a) + 1
  {
    var n := |a| - 1;
    if w == n {
      assert a[w := a[w] + 1][..n] == a[..n];
    } else {
      assert a[w := a[w] + 1][..n] == a[..n][w := a[w] + 1];
      SumUpdate(a[..n], w);
    }
  }

  lemma {:induction false} ExcessBounds(a: seq<nat>, stage: nat)
    requires forall w :: 0 <= w < |a| ==> stage <= a[w] + 1 && a[w] <= stage + 1
    ensures -|a| <= Excess(a, stage) <= |a|
  {
    if a != [] {
      ExcessBounds(a[..|a| - 1], stage);
    }
  }

  /** If nobody is beyond the stage, somebody before it would show. */
  lemma {:induction false} NobodyMissing(a: seq<nat>, stage: nat)
    requires forall w :: 0 <= w < |a| ==> a[w] <= stage
    ensures Excess(a, stage) <= 0
    ensures Excess(a, stage) == 0 ==> forall w :: 0 <= w < |a| ==> a[w] == stage
  {
    if a != [] {
      NobodyMissing(a[..|a| - 1], stage);
    }
  }

  // ---- the invariant --------------------------------------------------------------------------------------

  ghost predicate AllReached(s: State, stage: nat) {
    forall u :: 0 <= u < |s.arrived| ==> s.arrived[u] >= stage
  }

  ghost predicate WorkerInv(n: nat, s: State, w: nat)
    requires Shaped(n, s) && w < n
  {
    && s.passed[w] <= s.arrived[w] <= s.passed[w] + 1
    && AllReached(s, s.passed[w])
    && (Waiting(s, w) && s.buf[w] == Expected(n, s.arrived[w]) ==> AllReached(s, s.arrived[w]))
  }

  ghost predicate Inv(n: nat, s: State) {
    && Shaped(n, s) && s.mem == Sum(s.arrived) % WORD
    && (forall w :: 0 <= w < n ==> WorkerInv(n, s, w))
  }

  /** Whoever waits at `stage` and finds the expected value in the word knows that everybody has arrived. */
  lemma ExpectedMeansAll(n: nat, arrived: seq<nat>, w: nat, stage: nat)
    requires n < WORD && |arrived| == n && w < n && arrived[w] == stage
    requires forall u :: 0 <= u < n ==> stage <= arrived[u] + 1 && arrived[u] <= stage + 1
    requires (exists u :: 0 <= u < n && arrived[u] > stage) ==> forall u :: 0 <= u < n ==> arrived[u] >= stage
    requires Sum(arrived) % WORD == Expected(n, stage)
    ensures forall u :: 0 <= u < n ==> arrived[u] >= stage
  {
    SumAtStage(arrived, stage);
    ExcessBounds(arrived, stage);
    SameCounter(Sum(arrived), Times(n, stage));
    if forall u :: 0 <= u < n ==> arrived[u] <= stage {
      NobodyMissing(arrived, stage);
    }
  }

  /** The old value that a fetch-and-add returns is never the expected one: the worker itself was missing. */
  lemma ArrivalMisses(n: nat, arrived: seq<nat>, w: nat, stage: nat)
    requires n < WORD && |arrived| == n && w < n && arrived[w] + 1 == stage
    requires forall u :: 0 <= u < n ==> stage <= arrived[u] + 1 && arrived[u] <= stage
    ensures Sum(arrived) % WORD != Expected(n, stage)
  {
    SumAtStage(arrived, stage);
    ExcessBounds(arrived, stage);
    SameCounter(Sum(arrived), Times(n, stage));
    NobodyMissing(arrived, stage);
  }

  /** Workers are at most one stage apart. */
  lemma Spread(n: nat, s: State, w: nat, u: nat)
    requires Inv(n, s) && w < n && u < n
    ensures s.arrived[u] <= s.arrived[w] + 1 && s.arrived[u] >= s.passed[w]
  {
    assert WorkerInv(n, s, u) && WorkerInv(n, s, w);
  }

  lemma ArriveKeepsInv(n: nat, s: State, w: nat)
    requires Inv(n, s) && Enabled(n, s, w, Arrive) && n < WORD
    ensures Inv(n, Apply(n, s, w, Arrive))
  {
    var s' := Apply(n, s, w, Arrive);
    SumUpdate(s.arrived, w);
    PlusMod(Sum(s.arrived), 1);
    forall u | 0 <= u < n
      ensures s.arrived[w] <= s.arrived[u] <= s.arrived[w] + 1
    {
      Spread(n, s, w, u);
    }
    ArrivalMisses(n, s.arrived, w, s.arrived[w] + 1);
    forall u | 0 <= u < n
      ensures WorkerInv(n, s', u)
    {
      assert WorkerInv(n, s, u);
    }
  }

  lemma RereadKeepsInv(n: nat, s: State, w: nat)
    requires Inv(n, s) && Enabled(n, s, w, Reread) && n < WORD
    ensures Inv(n, Apply(n, s, w, Reread))
  {
    var s', stage := Apply(n, s, w, Reread), s.arrived[w];
    forall u | 0 <= u < n
      ensures stage <= s.arrived[u] + 1 && s.arrived[u] <= stage + 1
      ensures s.arrived[u] > stage ==> AllReached(s, stage)
    {
      Spread(n, s, w, u);
      assert WorkerInv(n, s, u);
    }
    if s.mem == Expected(n, stage) {
      ExpectedMeansAll(n, s.arrived, w, stage);
    }
    forall u | 0 <= u < n
      ensures WorkerInv(n, s', u)
    {
      assert WorkerInv(n, s, u);
    }
  }

  lemma PassKeepsInv(n: nat, s: State, w: nat)
    requires Inv(n, s) && Enabled(n, s, w, Pass)
    ensures Inv(n, Apply(n, s, w, Pass))
  {
    var s' := Apply(n, s, w, Pass);
    forall u | 0 <= u < n
      ensures WorkerInv(n, s', u)
    {
      assert WorkerInv(n, s, u);
    }
  }

  lemma NextKeepsInv(n: nat, s: State, s': State)
    requires Inv(n, s) && Next(n, s, s') && n < WORD
    ensures Inv(n, s')
  {
    var w, a :| StepBy(n, s, w, a, s');
    match a
    case Arrive => ArriveKeepsInv(n, s, w);
    case Reread => RereadKeepsInv(n, s, w);
    case Pass => PassKeepsInv(n, s, w);
  }

  lemma {:induction false} InitSum(a: seq<nat>)
    requires forall w :: 0 <= w < |a| ==> a[w] == 0
    ensures Sum(a) == 0
  {
    if a != [] {
      InitSum(a[..|a| - 1]);
    }
  }

  lemma {:induction false} RunInv(n: nat, tr: seq<State>, j: nat)
    requires Run(n, tr) && j < |tr| && n < WORD
    ensures Inv(n, tr[j])
  {
    if j == 0 {
      InitSum(tr[0].arrived);
      assert forall w :: 0 <= w < n ==> tr[0].passed[w] == 0;
    } else {
      RunInv(n, tr, j - 1);
      assert StepAt(n, tr, j - 1);
      NextKeepsInv(n, tr[j - 1], tr[j]);
    }
  }

  /** Nobody is past a stage at which somebody has not arrived, in any run, whatever the wrap of the word; the word
      counts all arrivals. */
  lemma NobodyPassesEarly(n: nat, tr: seq<State>, j: nat, w: nat, u: nat)
    requires Run(n, tr) && j < |tr| && n < WORD && w < n && u < n
    ensures Shaped(n, tr[j]) && tr[j].passed[w] <= tr[j].arrived[u]
    ensures tr[j].mem == Sum(tr[j].arrived) % WORD
  {
    RunInv(n, tr, j);
    Spread(n, tr[j], w, u);
  }

  // ---- the exact comparison can miss ----------------------------------------------------------------------

  /** `w` waits without having seen the expected value, and `u` has already arrived at the next stage. */
  ghost predicate Overtaken(n: nat, s: State, w: nat, u: nat) {
    && Shaped(n, s) && w < n && u < n
    && Waiting(s, w) && s.buf[w] != Expected(n, s.arrived[w]) && s.arrived[u] > s.arrived[w]
  }

  lemma {:induction false} SomebodyAhead(a: seq<nat>, stage: nat, u: nat)
    requires u < |a| && a[u] > stage && forall w :: 0 <= w < |a| ==> a[w] >= stage
    ensures Excess(a, stage) > 0
  {
    var n := |a| - 1;
    if u < n {
      SomebodyAhead(a[..n], stage, u);
    } else {
      NobodyBehind(a[..n], stage);
    }
  }

  lemma {:induction false} NobodyBehind(a: seq<nat>, stage: nat)
    requires forall w :: 0 <= w < |a| ==> a[w] >= stage
    ensures Excess(a, stage) >= 0
  {
    if a != [] {
      NobodyBehind(a[..|a| - 1], stage);
    }
  }

  lemma AheadMisses(n: nat, arrived: seq<nat>, u: nat, stage: nat)
    requires n < WORD && |arrived| == n && u < n && arrived[u] > stage
    requires forall v :: 0 <= v < n ==> stage <= arrived[v] <= stage + 1
    ensures Sum(arrived) % WORD != Expected(n, stage)
  {
    SumAtStage(arrived, stage);
    ExcessBounds(arrived, stage);
    SomebodyAhead(arrived, stage, u);
    SameCounter(Sum(arrived), Times(n, stage));
  }

  lemma OvertakenStays(n: nat, s: State, s': State, w: nat, u: nat)
    requires Inv(n, s) && Next(n, s, s') && n < WORD && Overtaken(n, s, w, u)
    ensures Overtaken(n, s', w, u) && s'.passed[w] == s.passed[w]
  {
    var stage := s.arrived[w];
    forall v | 0 <= v < n
      ensures stage <= s.arrived[v] <= stage + 1
    {
      Spread(n, s, w, v);
      Spread(n, s, u, v);
      assert WorkerInv(n, s, u);
    }
    AheadMisses(n, s.arrived, u, stage);
  }

  /** An overtaken worker never passes. */
  lemma {:induction false} OvertakenForever(n: nat, tr: seq<State>, i: nat, j: nat, w: nat, u: nat)
    requires Run(n, tr) && i <= j < |tr| && n < WORD && Overtaken(n, tr[i], w, u)
    ensures Overtaken(n, tr[j], w, u) && tr[j].passed[w] == tr[i].passed[w]
    decreases j
  {
    if i < j {
      OvertakenForever(n, tr, i, j - 1, w, u);
      RunInv(n, tr, j - 1);
      assert StepAt(n, tr, j - 1);
      OvertakenStays(n, tr[j - 1], tr[j], w, u);
    }
  }

  /** Two workers: the second passes stage 1 and arrives at stage 2 before the first reads again. */
  lemma WaiterCanBeOvertaken() returns (tr: seq<State>)
    ensures Run(2, tr) && Overtaken(2, tr[|tr| - 1], 0, 1)
  {
    var s0 := State(0, [0, 0], [0, 0], [0, 0]);
    var s1 := State(1, [0, 0], [1, 0], [0, 0]);
    var s2 := State(2, [0, 1], [1, 1], [0, 0]);
    var s3 := State(2, [0, 2], [1, 1], [0, 0]);
    var s4 := State(2, [0, 2], [1, 1], [0, 1]);
    var s5 := State(3, [0, 2], [1, 2], [0, 1]);
    tr := [s0, s1, s2, s3, s4, s5];
    assert StepBy(2, s0, 0, Arrive, s1);
    assert StepBy(2, s1, 1, Arrive, s2);
    assert StepBy(2, s2, 1, Reread, s3);
    assert StepBy(2, s3, 1, Pass, s4);
    assert StepBy(2, s4, 1, Arrive, s5);
    forall i | 0 <= i < |tr| - 1
      ensures StepAt(2, tr, i)
    {
      assert i == 0 || i == 1 || i == 2 || i == 3 || i == 4;
    }
  }

  // ---- exactly who can still pass -------------------------------------------------------------------------

  /** `v` waits, and somebody has arrived at the next stage before it saw the expected value. */
  ghost predicate IsOvertaken(n: nat, s: State, v: nat)
    requires Shaped(n, s) && v < n
  {
    exists u :: Overtaken(n, s, v, u)
  }

  /** Nobody at the stage of `w` or before it is overtaken. */
  ghost predicate PathIsClear(n: nat, s: State, w: nat)
    requires Shaped(n, s) && w < n
  {
    forall v :: 0 <= v < n && s.arrived[v] <= s.arrived[w] ==> !IsOvertaken(n, s, v)
  }

  ghost function Last(tr: seq<State>): State
    requires |tr| >= 1
  {
    tr[|tr| - 1]
  }

  /** Some continuation of the run lets `w` pass. */
  ghost predicate CanPass(n: nat, tr: seq<State>, w: nat)
    requires |tr| >= 1
  {
    exists more: seq<State> :: Run(n, more) && tr <= more && Passes(n, Last(tr), Last(more), w)
  }

  ghost predicate Passes(n: nat, s: State, s': State, w: nat) {
    w < |s.passed| && w < |s'.passed| && s'.passed[w] > s.passed[w]
  }

  lemma Extend(n: nat, tr: seq<State>, w: nat, a: Action) returns (longer: seq<State>)
    requires Run(n, tr) && n < WORD && Inv(n, Last(tr)) && Enabled(n, Last(tr), w, a)
    ensures Run(n, longer) && longer == tr + [Apply(n, Last(tr), w, a)] && Inv(n, Last(longer))
  {
    longer := tr + [Apply(n, Last(tr), w, a)];
    assert StepBy(n, Last(tr), w, a, Last(longer));
    assert Next(n, Last(tr), Last(longer));
    forall i | 0 <= i < |longer| - 1
      ensures StepAt(n, longer, i)
    {
      if i < |tr| - 1 {
        assert StepAt(n, tr, i);
      }
    }
    NextKeepsInv(n, Last(tr), Last(longer));
  }

  /** An overtaken worker before `w` holds `w` back. */
  lemma BlockedForever(n: nat, tr: seq<State>, more: seq<State>, w: nat, v: nat, u: nat)
    requires Run(n, tr) && Run(n, more) && tr <= more && n < WORD && w < n
    requires Shaped(n, Last(tr)) && Waiting(Last(tr), w) && Last(tr).buf[w] != Expected(n, Last(tr).arrived[w])
    requires Overtaken(n, Last(tr), v, u) && Last(tr).arrived[v] <= Last(tr).arrived[w]
    ensures !Passes(n, Last(tr), Last(more), w)
  {
    var i, j := |tr| - 1, |more| - 1;
    assert more[i] == tr[i];
    if Last(tr).arrived[v] == Last(tr).arrived[w] {
      OvertakenForever(n, more, i, j, w, u);
    } else {
      OvertakenForever(n, more, i, j, v, u);
      NobodyPassesEarly(n, more, j, w, v);
      RunInv(n, more, i);
      Spread(n, more[i], v, w);
      RunInv(n, more, j);
      assert WorkerInv(n, more[j], v) && WorkerInv(n, more[i], v);
    }
  }

  /** `w` waits at `stage`, nobody is beyond it, and whoever is behind can come. */
  ghost predicate Gathering(n: nat, s: State, w: nat, stage: nat, k: nat) {
    && Inv(n, s) && w < n && Waiting(s, w) && s.arrived[w] == stage && k <= n
    && (forall v :: 0 <= v < n ==> s.arrived[v] <= stage)
    && (forall v :: 0 <= v < k ==> s.arrived[v] == stage)
    && (forall v :: k <= v < n && s.arrived[v] < stage && Waiting(s, v) ==> s.buf[v] == Expected(n, s.arrived[v]))
  }

  /** Worker `k` comes to the stage of `w`. */
  lemma Come(n: nat, tr: seq<State>, w: nat, stage: nat, k: nat) returns (longer: seq<State>)
    requires Run(n, tr) && n < WORD && k < n && Gathering(n, Last(tr), w, stage, k)
    ensures Run(n, longer) && tr <= longer && Gathering(n, Last(longer), w, stage, k + 1)
    ensures Last(longer).passed[w] == Last(tr).passed[w]
  {
    longer := tr;
    Spread(n, Last(tr), w, k);
    assert WorkerInv(n, Last(tr), k) && WorkerInv(n, Last(tr), w);
    if Last(tr).arrived[k] < stage {
      if Waiting(Last(tr), k) {
        longer := Extend(n, longer, k, Pass);
      }
      longer := Extend(n, longer, k, Arrive);
    }
  }

  lemma {:induction false} ComeAll(n: nat, tr: seq<State>, w: nat, stage: nat, k: nat) returns (longer: seq<State>)
    requires Run(n, tr) && n < WORD && Gathering(n, Last(tr), w, stage, k)
    ensures Run(n, longer) && tr <= longer && Gathering(n, Last(longer), w, stage, n)
    ensures Last(longer).passed[w] == Last(tr).passed[w]
    decreases n - k
  {
    longer := tr;
    if k < n {
      longer := Come(n, longer, w, stage, k);
      longer := ComeAll(n, longer, w, stage, k + 1);
    }
  }

  lemma {:induction false} NoExcess(a: seq<nat>, stage: nat)
    requires forall v :: 0 <= v < |a| ==> a[v] == stage
    ensures Excess(a, stage) == 0
  {
    if a != [] {
      NoExcess(a[..|a| - 1], stage);
    }
  }

  /** When all have come, the word has the expected value. */
  lemma AllCame(n: nat, s: State, w: nat, stage: nat)
    requires Gathering(n, s, w, stage, n)
    ensures s.mem == Expected(n, stage)
  {
    SumAtStage(s.arrived, stage);
    NoExcess(s.arrived, stage);
  }

  lemma PassAfterAll(n: nat, tr: seq<State>, w: nat, stage: nat) returns (longer: seq<State>)
    requires Run(n, tr) && n < WORD && Gathering(n, Last(tr), w, stage, n)
    ensures Run(n, longer) && tr <= longer && Passes(n, Last(tr), Last(longer), w)
  {
    AllCame(n, Last(tr), w, stage);
    longer := tr;
    if Last(tr).buf[w] != Expected(n, stage) {
      longer := Extend(n, longer, w, Reread);
    }
    longer := Extend(n, longer, w, Pass);
  }

  lemma StartGathering(n: nat, s: State, w: nat)
    requires Inv(n, s) && w < n && Waiting(s, w) && s.buf[w] != Expected(n, s.arrived[w]) && PathIsClear(n, s, w)
    ensures Gathering(n, s, w, s.arrived[w], 0)
  {
    var stage := s.arrived[w];
    forall v | 0 <= v < n
      ensures s.arrived[v] <= stage
      ensures s.arrived[v] < stage && Waiting(s, v) ==> s.buf[v] == Expected(n, s.arrived[v])
    {
      assert !IsOvertaken(n, s, w) && !Overtaken(n, s, w, v);
      if s.arrived[v] < stage {
        assert !IsOvertaken(n, s, v) && !Overtaken(n, s, v, w);
      }
    }
  }

  /** From a reachable state, a waiting worker can still pass if and only if it has seen the expected value or nobody at
      its stage or before it has been overtaken. */
  lemma CanPassExactly(n: nat, tr: seq<State>, w: nat)
    requires Run(n, tr) && n < WORD && w < n && Shaped(n, Last(tr)) && Waiting(Last(tr), w)
    ensures CanPass(n, tr, w) <==> Last(tr).buf[w] == Expected(n, Last(tr).arrived[w]) || PathIsClear(n, Last(tr), w)
  {
    RunInv(n, tr, |tr| - 1);
    var s := Last(tr);
    if s.buf[w] == Expected(n, s.arrived[w]) {
      var more := Extend(n, tr, w, Pass);
      assert Passes(n, s, Last(more), w);
    } else if PathIsClear(n, s, w) {
      StartGathering(n, s, w);
      var more := ComeAll(n, tr, w, s.arrived[w], 0);
      more := PassAfterAll(n, more, w, s.arrived[w]);
      assert Passes(n, s, Last(more), w);
    } else {
      var v :| 0 <= v < n && s.arrived[v] <= s.arrived[w] && IsOvertaken(n, s, v);
      var u :| Overtaken(n, s, v, u);
      forall more: seq<State> | Run(n, more) && tr <= more
        ensures !Passes(n, s, Last(more), w)
      {
        BlockedForever(n, tr, more, w, v, u);
      }
    }
  }
}
