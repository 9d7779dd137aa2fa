/** Threads that share a BatchQueue. What a method does under the latch is one step, as each writes the counter once;
    the counter that guards the pops of full batches is read in a step of its own, before the latch is taken. `Lists`
    says, here and in the contracts of the queue's methods, what becomes of the lists. Batches are numbers below
    `count`.

    `place` is a history variable that says where each batch is. */
module BatchClients {
  import opened Words
  import opened BatchQueue

  type Id = nat

  datatype Config = Config(count: nat, batchSize: nat)
  {
    ghost predicate Valid() {
      Capacity(count, batchSize) < WORD
    }
  }

  datatype Place = InFull | InEmpty | With(c: Id)

  /** A thread: the batches that it was given and has not returned, and the counter that it read for a pop in
      progress. */
  datatype Caller = Caller(held: set<nat>, guard: Option<Word>)

  /** `sizes` are the elements in each batch's container. */
  datatype State = State(
    lists: Lists<nat>, elements: Word, sizes: seq<nat>, th: map<Id, Caller>, place: seq<Place>)

  datatype Action =
    | PushFull(b: nat) | PushEmpty(b: nat) | PopEmpty | PushFullPopEmpty(b: nat)
    | ReadGuard | PopFull(contended: bool) | PushEmptyPopFull(b: nat, contended: bool)
    | Fill(b: nat, n: nat)                     // the holder changes the container

  // ---- the machine ------------------------------------------------------------------------------------------

  ghost predicate Init(cfg: Config, s: State) {
    && cfg.Valid() && s.lists == Lists([], seq(cfg.count, k requires 0 <= k < cfg.count => cfg.count - 1 - k))
    && s.elements == 0 && s.sizes == seq(cfg.count, _ => 0) && s.place == seq(cfg.count, _ => InEmpty)
    && forall c <- s.th :: s.th[c] == Caller({}, None)
  }

  /** A thread returns only what it holds, and asserts that a batch it returns as empty is. */
  ghost predicate Enabled(cfg: Config, s: State, c: Id, a: Action) {
    c in s.th && |s.sizes| == |s.place| == cfg.count &&
    var held, guard := s.th[c].held, s.th[c].guard;
    match a
    case PushFull(b) => guard.None? && b in held && b < cfg.count
    case PushEmpty(b) => guard.None? && b in held && b < cfg.count && s.sizes[b] == 0
    case PopEmpty => guard.None?
    case PushFullPopEmpty(b) => guard.None? && b in held && b < cfg.count
    case ReadGuard => guard.None?
    case PopFull(_) => guard.Some?
    case PushEmptyPopFull(b, _) => guard.Some? && b in held && b < cfg.count && s.sizes[b] == 0
    case Fill(b, n) => guard.None? && b in held && b < cfg.count && n <= cfg.batchSize
  }

  function Put(s: State, c: Id, held: set<nat>): State {
    s.(th := s.th[c := Caller(held, None)])
  }

  function Move(s: State, b: nat, p: Place): State
    requires b < |s.place|
  {
    s.(place := s.place[b := p])
  }

  function Count(s: State, d: int): State {
    s.(elements := Plus(s.elements, d))
  }

  ghost predicate AllBelow(list: seq<nat>, n: nat) {
    forall i :: 0 <= i < |list| ==> list[i] < n
  }

  /** The numbers in the lists are batches. */
  ghost predicate InRange(cfg: Config, s: State) {
    && |s.sizes| == |s.place| == cfg.count
    && AllBelow(s.lists.full, cfg.count) && AllBelow(s.lists.empty, cfg.count)
  }

  ghost function GiveFull(cfg: Config, s: State, c: Id, b: nat): State
    requires InRange(cfg, s) && c in s.th && b < cfg.count
  {
    Move(Count(Put(s, c, s.th[c].held - {b}), s.sizes[b]), b, InFull).(lists := s.lists.PushFull(b))
  }

  ghost function GiveEmpty(cfg: Config, s: State, c: Id, b: nat): State
    requires InRange(cfg, s) && c in s.th && b < cfg.count
  {
    Move(Put(s, c, s.th[c].held - {b}), b, InEmpty).(lists := s.lists.PushEmpty(b))
  }

  ghost function TakeFull(cfg: Config, s: State, c: Id): State
    requires InRange(cfg, s) && c in s.th && s.lists.full != []
  {
    var b := s.lists.full[0];
    var size: int := s.sizes[b];
    Move(Count(Put(s, c, s.th[c].held + {b}), -size), b, With(c)).(lists := s.lists.PopFull())
  }

  ghost function TakeEmpty(cfg: Config, s: State, c: Id): State
    requires InRange(cfg, s) && c in s.th && s.lists.empty != []
  {
    var b := s.lists.empty[0];
    Move(Put(s, c, s.th[c].held + {b}), b, With(c)).(lists := s.lists.PopEmpty())
  }

  ghost function Apply(cfg: Config, s: State, c: Id, a: Action): State
    requires InRange(cfg, s) && Enabled(cfg, s, c, a)
  {
    var x := s.th[c];
    match a
    case PushFull(b) => GiveFull(cfg, s, c, b)
    case PushEmpty(b) => GiveEmpty(cfg, s, c, b)
    case PopEmpty => if s.lists.empty == [] then s else TakeEmpty(cfg, s, c)
    case PushFullPopEmpty(b) => if s.lists.empty == [] then s else TakeEmpty(cfg, GiveFull(cfg, s, c, b), c)
    case ReadGuard => s.(th := s.th[c := x.(guard := Some(s.elements))])
    case PopFull(contended) =>
      if s.lists.PopsFull(x.guard.value, contended) then TakeFull(cfg, s, c) else Put(s, c, x.held)
    case PushEmptyPopFull(b, contended) =>
      if s.lists.PopsFull(x.guard.value, contended) then TakeFull(cfg, GiveEmpty(cfg, s, c, b), c)
      else Put(s, c, x.held)
    case Fill(b, n) => s.(sizes := s.sizes[b := n])
  }

  // ---- the invariant ----------------------------------------------------------------------------------------

  ghost function Total(list: seq<nat>, sizes: seq<nat>): nat
    requires AllBelow(list, |sizes|)
  {
    if list == [] then 0 else sizes[list[0]] + Total(list[1..], sizes)
  }

  ghost predicate Distinct(list: seq<nat>) {
    forall i, j :: 0 <= i < j < |list| ==> list[i] != list[j]
  }

  /** Batch `b` is where `place` says, and nowhere else. */
  ghost predicate Placed(cfg: Config, s: State, b: nat)
    requires b < |s.place|
  {
    && (b in s.lists.full <==> s.place[b] == InFull)
    && (b in s.lists.empty <==> s.place[b] == InEmpty)
    && (forall c <- s.th :: b in s.th[c].held <==> s.place[b] == With(c))
    && (s.place[b].With? ==> s.place[b].c in s.th)
  }

  ghost predicate OwnInv(cfg: Config, s: State) {
    && cfg.Valid() && InRange(cfg, s)
    && Distinct(s.lists.full) && Distinct(s.lists.empty)
    && (forall c <- s.th :: forall b <- s.th[c].held :: b < cfg.count)
    && (forall b :: 0 <= b < cfg.count ==> Placed(cfg, s, b))
  }

  ghost predicate SizeInv(cfg: Config, s: State)
    requires InRange(cfg, s)
  {
    && (forall b :: 0 <= b < cfg.count ==> s.sizes[b] <= cfg.batchSize)
    && (forall i :: 0 <= i < |s.lists.empty| ==> s.sizes[s.lists.empty[i]] == 0)
    && s.elements == Total(s.lists.full, s.sizes) % WORD
  }

  ghost predicate Inv(cfg: Config, s: State) {
    OwnInv(cfg, s) && SizeInv(cfg, s)
  }

  /** A batch goes from its holder to the head of a list. */
  lemma GiveKeepsOwn(cfg: Config, s: State, s': State, c: Id, b: nat)
    requires OwnInv(cfg, s) && c in s.th && b in s.th[c].held
    requires s'.sizes == s.sizes && s'.th == s.th[c := Caller(s.th[c].held - {b}, None)]
    requires || (s'.lists == s.lists.PushFull(b) && s'.place == s.place[b := InFull])
             || (s'.lists == s.lists.PushEmpty(b) && s'.place == s.place[b := InEmpty])
    ensures OwnInv(cfg, s')
  {
    assert Placed(cfg, s, b);
    forall x | 0 <= x < cfg.count
      ensures Placed(cfg, s', x)
    {
      assert Placed(cfg, s, x);
    }
  }

  /** The head of a list goes to a thread. */
  lemma TakeKeepsOwn(cfg: Config, s: State, s': State, c: Id, b: nat)
    requires OwnInv(cfg, s) && c in s.th && s'.sizes == s.sizes
    requires || (s.lists.full != [] && b == s.lists.full[0] && s'.lists == s.lists.PopFull())
             || (s.lists.empty != [] && b == s.lists.empty[0] && s'.lists == s.lists.PopEmpty())
    requires b < cfg.count && s'.place == s.place[b := With(c)]
    requires s'.th == s.th[c := Caller(s.th[c].held + {b}, None)]
    ensures OwnInv(cfg, s')
  {
    assert Placed(cfg, s, b);
    forall x | 0 <= x < cfg.count
      ensures Placed(cfg, s', x)
    {
      assert Placed(cfg, s, x);
      HeadOrRest(s.lists.full, x);
      HeadOrRest(s.lists.empty, x);
    }
  }

  lemma HeadOrRest(list: seq<nat>, x: nat)
    requires Distinct(list)
    ensures list != [] ==> Distinct(list[1..]) && list[0] !in list[1..]
    ensures list != [] ==> (x in list <==> x == list[0] || x in list[1..])
  {
    if list != [] {
      assert list == [list[0]] + list[1..];
    }
  }

  lemma GiveFullKeepsInv(cfg: Config, s: State, c: Id, b: nat)
    requires Inv(cfg, s) && c in s.th && b in s.th[c].held
    ensures b < cfg.count && Inv(cfg, GiveFull(cfg, s, c, b))
  {
    var s' := GiveFull(cfg, s, c, b);
    GiveKeepsOwn(cfg, s, s', c, b);
    assert s'.lists.full[1..] == s.lists.full;
    PlusMod(Total(s.lists.full, s.sizes), s.sizes[b]);
  }

  lemma GiveEmptyKeepsInv(cfg: Config, s: State, c: Id, b: nat)
    requires Inv(cfg, s) && c in s.th && b in s.th[c].held && b < cfg.count && s.sizes[b] == 0
    ensures Inv(cfg, GiveEmpty(cfg, s, c, b))
  {
    GiveKeepsOwn(cfg, s, GiveEmpty(cfg, s, c, b), c, b);
  }

  lemma TakeFullKeepsInv(cfg: Config, s: State, c: Id)
    requires Inv(cfg, s) && c in s.th && s.lists.full != []
    ensures Inv(cfg, TakeFull(cfg, s, c))
  {
    var b := s.lists.full[0];
    TakeKeepsOwn(cfg, s, TakeFull(cfg, s, c), c, b);
    var size: int := s.sizes[b];
    PlusMod(Total(s.lists.full, s.sizes), -size);
  }

  lemma TakeEmptyKeepsInv(cfg: Config, s: State, c: Id)
    requires Inv(cfg, s) && c in s.th && s.lists.empty != []
    ensures Inv(cfg, TakeEmpty(cfg, s, c))
  {
    TakeKeepsOwn(cfg, s, TakeEmpty(cfg, s, c), c, s.lists.empty[0]);
  }

  lemma {:induction false} TotalFrame(list: seq<nat>, sizes: seq<nat>, b: nat, n: nat)
    requires b < |sizes| && b !in list && AllBelow(list, |sizes|)
    ensures Total(list, sizes[b := n]) == Total(list, sizes)
  {
    if list != [] {
      TotalFrame(list[1..], sizes, b, n);
    }
  }

  lemma FillKeepsInv(cfg: Config, s: State, c: Id, b: nat, n: nat)
    requires Inv(cfg, s) && Enabled(cfg, s, c, Fill(b, n))
    ensures Inv(cfg, Apply(cfg, s, c, Fill(b, n)))
  {
    var s' := Apply(cfg, s, c, Fill(b, n));
    assert Placed(cfg, s, b);
    TotalFrame(s.lists.full, s.sizes, b, n);
    forall x | 0 <= x < cfg.count
      ensures Placed(cfg, s', x)
    {
      assert Placed(cfg, s, x);
    }
  }

  /** Only what a thread remembers of the counter changes. */
  lemma GuardKeepsInv(cfg: Config, s: State, c: Id, guard: Option<Word>)
    requires Inv(cfg, s) && c in s.th
    ensures Inv(cfg, s.(th := s.th[c := Caller(s.th[c].held, guard)]))
  {
    var s' := s.(th := s.th[c := Caller(s.th[c].held, guard)]);
    forall x | 0 <= x < cfg.count
      ensures Placed(cfg, s', x)
    {
      assert Placed(cfg, s, x);
    }
  }

  lemma StepKeepsInv(cfg: Config, s: State, c: Id, a: Action)
    requires Inv(cfg, s) && Enabled(cfg, s, c, a)
    ensures Inv(cfg, Apply(cfg, s, c, a))
  {
    match a
    case PushFull(b) => GiveFullKeepsInv(cfg, s, c, b);
    case PushEmpty(b) => GiveEmptyKeepsInv(cfg, s, c, b);
    case PopEmpty => if s.lists.empty != [] { TakeEmptyKeepsInv(cfg, s, c); }
    case PushFullPopEmpty(b) =>
      if s.lists.empty != [] {
        GiveFullKeepsInv(cfg, s, c, b);
        TakeEmptyKeepsInv(cfg, GiveFull(cfg, s, c, b), c);
      }
    case ReadGuard => GuardKeepsInv(cfg, s, c, Some(s.elements));
    case PopFull(contended) =>
      if s.lists.PopsFull(s.th[c].guard.value, contended) { TakeFullKeepsInv(cfg, s, c); }
      else { GuardKeepsInv(cfg, s, c, None); }
    case PushEmptyPopFull(b, contended) =>
      if s.lists.PopsFull(s.th[c].guard.value, contended) {
        GiveEmptyKeepsInv(cfg, s, c, b);
        TakeFullKeepsInv(cfg, GiveEmpty(cfg, s, c, b), c);
      } else {
        GuardKeepsInv(cfg, s, c, None);
      }
    case Fill(b, n) => FillKeepsInv(cfg, s, c, b, n);
  }

  // ---- runs -------------------------------------------------------------------------------------------------

  ghost predicate StepBy(cfg: Config, s: State, c: Id, a: Action, s': State) {
    InRange(cfg, s) && Enabled(cfg, s, c, a) && s' == Apply(cfg, s, c, a)
  }

  ghost predicate Next(cfg: Config, s: State, s': State) {
    exists c, a :: StepBy(cfg, s, c, a, s')
  }

  ghost predicate StepAt(cfg: Config, tr: seq<State>, i: nat)
    requires i + 1 < |tr|
  {
    Next(cfg, tr[i], tr[i + 1])
  }

  ghost predicate Run(cfg: Config, tr: seq<State>) {
    && |tr| >= 1 && Init(cfg, tr[0])
    && (forall i :: 0 <= i < |tr| - 1 ==> StepAt(cfg, tr, i))
  }

  lemma InitInv(cfg: Config, s: State)
    requires Init(cfg, s)
    ensures Inv(cfg, s)
  {
    forall b | 0 <= b < cfg.count
      ensures Placed(cfg, s, b)
    {
      assert s.lists.empty[cfg.count - 1 - b] == b;
    }
  }

  lemma {:induction false} RunInv(cfg: Config, tr: seq<State>, j: nat)
    requires Run(cfg, tr) && j < |tr|
    ensures Inv(cfg, tr[j])
  {
    if j == 0 {
      InitInv(cfg, tr[0]);
    } else {
      RunInv(cfg, tr, j - 1);
      assert StepAt(cfg, tr, j - 1);
      var c, a :| StepBy(cfg, tr[j - 1], c, a, tr[j]);
      StepKeepsInv(cfg, tr[j - 1], c, a);
    }
  }

  /** In every interleaving, a batch of the pool is at one place: once in one of the two lists, or with one thread. */
  lemma OnePlace(cfg: Config, tr: seq<State>, j: nat, b: nat)
    requires Run(cfg, tr) && j < |tr| && b < cfg.count
    ensures var s := tr[j];
      && Distinct(s.lists.full) && Distinct(s.lists.empty) && !(b in s.lists.full && b in s.lists.empty)
      && (forall c <- s.th :: b in s.th[c].held ==> b !in s.lists.full && b !in s.lists.empty)
      && (forall c, d :: c in s.th && d in s.th && b in s.th[c].held && b in s.th[d].held ==> c == d)
      && (b in s.lists.full || b in s.lists.empty || exists c :: c in s.th && b in s.th[c].held)
  {
    RunInv(cfg, tr, j);
    assert Placed(cfg, tr[j], b);
  }

  // ---- the counter ------------------------------------------------------------------------------------------

  lemma {:induction false} DistinctBound(list: seq<nat>, n: nat) returns (numbers: set<nat>)
    requires Distinct(list) && AllBelow(list, n)
    ensures |numbers| == |list| && forall b :: b in numbers <==> b in list
  {
    if list == [] {
      numbers := {};
    } else {
      var rest := DistinctBound(list[1..], n);
      HeadOrRest(list, list[0]);
      numbers := rest + {list[0]};
      forall b ensures b in numbers <==> b in list { HeadOrRest(list, b); }
    }
  }

  lemma {:induction false} TotalBound(list: seq<nat>, sizes: seq<nat>, max: nat)
    requires AllBelow(list, |sizes|) && forall i :: 0 <= i < |list| ==> sizes[list[i]] <= max
    ensures Total(list, sizes) <= Capacity(|list|, max)
  {
    if list != [] {
      TotalBound(list[1..], sizes, max);
    }
  }

  /** The counter is exactly the number of elements in the full batches. */
  lemma CounterIsExact(cfg: Config, s: State)
    requires Inv(cfg, s)
    ensures s.elements == Total(s.lists.full, s.sizes)
  {
    var numbers := DistinctBound(s.lists.full, cfg.count);
    PigeonHole(numbers, cfg.count);
    TotalBound(s.lists.full, s.sizes, cfg.batchSize);
    CapacityMonotone(|s.lists.full|, cfg.count, cfg.batchSize);
  }

  lemma GuardsAreRead(cfg: Config, s: State, s': State, c: Id, g: Word)
    requires Next(cfg, s, s') && c in s'.th && s'.th[c].guard == Some(g) && !(c in s.th && s.th[c].guard == Some(g))
    ensures s.elements == g && c in s.th && s.th[c].guard.None?
  {
    var d, a :| StepBy(cfg, s, d, a, s');
  }

  /** The state in which thread `c` read the counter that it remembers at `j`. */
  lemma {:induction false} ReadAt(cfg: Config, tr: seq<State>, j: nat, c: Id, g: Word) returns (i: nat)
    requires Run(cfg, tr) && j < |tr| && c in tr[j].th && tr[j].th[c].guard == Some(g)
    ensures i < j && tr[i].elements == g && c in tr[i].th && tr[i].th[c].guard.None?
    ensures forall k :: i < k <= j ==> c in tr[k].th && tr[k].th[c].guard == Some(g)
  {
    assert j > 0;
    assert StepAt(cfg, tr, j - 1);
    if c in tr[j - 1].th && tr[j - 1].th[c].guard == Some(g) {
      i := ReadAt(cfg, tr, j - 1, c, g);
    } else {
      GuardsAreRead(cfg, tr[j - 1], tr[j], c, g);
      i := j - 1;
    }
  }

  /** A pop that nobody contends is refused only if there was nothing to pop at an instant inside the call: when it read
      the counter, or when it has the latch. */
  lemma RefusalIsJustified(cfg: Config, tr: seq<State>, j: nat, c: Id, g: Word) returns (i: nat)
    requires Run(cfg, tr) && j < |tr| && c in tr[j].th && tr[j].th[c].guard == Some(g)
    requires !tr[j].lists.PopsFull(g, false)
    ensures i <= j && forall k :: i < k <= j ==> c in tr[k].th && tr[k].th[c].guard == Some(g)
    ensures InRange(cfg, tr[i]) && Total(tr[i].lists.full, tr[i].sizes) == 0
  {
    if g == 0 {
      i := ReadAt(cfg, tr, j, c, g);
      RunInv(cfg, tr, i);
      CounterIsExact(cfg, tr[i]);
    } else {
      i := j;
      RunInv(cfg, tr, j);
    }
  }

  /** What a step of `c` leaves: other threads are as they were, and `c` has no pop in progress. */
  ghost predicate Left(s: State, s': State, c: Id, held: set<nat>) {
    s'.th == s.th[c := Caller(held, None)] && s'.sizes == s.sizes
  }

  /** What a refused pop leaves. */
  ghost predicate NothingTaken(s: State, s': State, c: Id) {
    c in s.th && Left(s, s', c, s.th[c].held) && s'.lists == s.lists && s'.elements == s.elements
  }

  /** try_pop_full by a thread that nobody contends: it gains nothing only if the full list had no element at an instant
      inside the call, and otherwise exactly the head of the full list. */
  lemma PopFullExactly(cfg: Config, tr: seq<State>, j: nat, c: Id) returns (i: nat)
    requires Run(cfg, tr) && j < |tr| && Enabled(cfg, tr[j], c, PopFull(false))
    ensures i <= j && InRange(cfg, tr[i]) && InRange(cfg, tr[j])
    ensures forall k :: i < k <= j ==> c in tr[k].th && tr[k].th[c].guard.Some?
    ensures var s, s' := tr[j], Apply(cfg, tr[j], c, PopFull(false));
      if s'.th[c].held == s.th[c].held then NothingTaken(s, s', c) && Total(tr[i].lists.full, tr[i].sizes) == 0
      else
        && s.lists.full != [] && Left(s, s', c, s.th[c].held + {s.lists.full[0]})
        && s'.lists.full == s.lists.full[1..] && s'.lists.empty == s.lists.empty
  {
    var s := tr[j];
    RunInv(cfg, tr, j);
    i := j;
    if s.lists.PopsFull(s.th[c].guard.value, false) {
      assert Placed(cfg, s, s.lists.full[0]);
    } else {
      i := RefusalIsJustified(cfg, tr, j, c, s.th[c].guard.value);
    }
  }

  /** push_empty_and_try_pop_full: the same, and the empty batch goes back only against a full one. */
  lemma SwapForFullExactly(cfg: Config, tr: seq<State>, j: nat, c: Id, b: nat) returns (i: nat)
    requires Run(cfg, tr) && j < |tr| && Enabled(cfg, tr[j], c, PushEmptyPopFull(b, false))
    ensures i <= j && InRange(cfg, tr[i]) && InRange(cfg, tr[j])
    ensures forall k :: i < k <= j ==> c in tr[k].th && tr[k].th[c].guard.Some?
    ensures var s, s' := tr[j], Apply(cfg, tr[j], c, PushEmptyPopFull(b, false));
      if b in s'.th[c].held then NothingTaken(s, s', c) && Total(tr[i].lists.full, tr[i].sizes) == 0
      else
        && s.lists.full != [] && Left(s, s', c, s.th[c].held - {b} + {s.lists.full[0]})
        && s'.lists.full == s.lists.full[1..] && s'.lists.empty == [b] + s.lists.empty
  {
    var s := tr[j];
    RunInv(cfg, tr, j);
    i := j;
    if s.lists.PopsFull(s.th[c].guard.value, false) {
      assert Placed(cfg, s, s.lists.full[0]);
    } else {
      i := RefusalIsJustified(cfg, tr, j, c, s.th[c].guard.value);
    }
  }

  /** While another thread has the latch, neither takes anything. */
  lemma ContendedPopsTakeNothing(cfg: Config, tr: seq<State>, j: nat, c: Id, a: Action)
    requires Run(cfg, tr) && j < |tr| && Enabled(cfg, tr[j], c, a)
    requires (a.PopFull? || a.PushEmptyPopFull?) && a.contended
    ensures InRange(cfg, tr[j]) && NothingTaken(tr[j], Apply(cfg, tr[j], c, a), c)
  {
    RunInv(cfg, tr, j);
  }

  /** try_pop_empty: nothing if and only if there is no empty batch, and otherwise the head, which has no element. */
  lemma PopEmptyExactly(cfg: Config, tr: seq<State>, j: nat, c: Id)
    requires Run(cfg, tr) && j < |tr| && Enabled(cfg, tr[j], c, PopEmpty)
    ensures InRange(cfg, tr[j])
    ensures var s, s' := tr[j], Apply(cfg, tr[j], c, PopEmpty);
      if s.lists.empty == [] then NothingTaken(s, s', c)
      else
        && s.lists.empty[0] !in s.th[c].held && s.sizes[s.lists.empty[0]] == 0
        && Left(s, s', c, s.th[c].held + {s.lists.empty[0]}) && s'.elements == s.elements
        && s'.lists.full == s.lists.full && s'.lists.empty == s.lists.empty[1..]
  {
    var s := tr[j];
    RunInv(cfg, tr, j);
    if s.lists.empty == [] {
      assert s.th == s.th[c := s.th[c]];
    } else {
      assert Placed(cfg, s, s.lists.empty[0]);
    }
  }

  /** push_full_and_try_pop_empty: a swap, or nothing if and only if there is no empty batch. */
  lemma SwapForEmptyExactly(cfg: Config, tr: seq<State>, j: nat, c: Id, b: nat)
    requires Run(cfg, tr) && j < |tr| && Enabled(cfg, tr[j], c, PushFullPopEmpty(b))
    ensures InRange(cfg, tr[j])
    ensures var s, s' := tr[j], Apply(cfg, tr[j], c, PushFullPopEmpty(b));
      if s.lists.empty == [] then NothingTaken(s, s', c)
      else
        && Left(s, s', c, s.th[c].held - {b} + {s.lists.empty[0]}) && s'.elements == s.elements + s.sizes[b]
        && s'.lists.full == [b] + s.lists.full && s'.lists.empty == s.lists.empty[1..]
  {
    var s := tr[j];
    RunInv(cfg, tr, j);
    if s.lists.empty == [] {
      assert s.th == s.th[c := s.th[c]];
    } else {
      PushedCount(cfg, s, c, b);
    }
  }

  /** A batch that is pushed as full adds its elements to the counter, without wrap. */
  lemma PushedCount(cfg: Config, s: State, c: Id, b: nat)
    requires Inv(cfg, s) && c in s.th && b in s.th[c].held
    ensures b < cfg.count && GiveFull(cfg, s, c, b).elements == s.elements + s.sizes[b]
  {
    GiveFullKeepsInv(cfg, s, c, b);
    CounterIsExact(cfg, s);
    CounterIsExact(cfg, GiveFull(cfg, s, c, b));
    assert GiveFull(cfg, s, c, b).lists.full[1..] == s.lists.full;
  }

  lemma PushesExactly(cfg: Config, tr: seq<State>, j: nat, c: Id, b: nat)
    requires Run(cfg, tr) && j < |tr| && c in tr[j].th && b in tr[j].th[c].held && tr[j].th[c].guard.None?
    ensures InRange(cfg, tr[j]) && b < cfg.count && Enabled(cfg, tr[j], c, PushFull(b))
    ensures Enabled(cfg, tr[j], c, PushEmpty(b)) <==> tr[j].sizes[b] == 0
    ensures var s, s' := tr[j], Apply(cfg, tr[j], c, PushFull(b));
      && Left(s, s', c, s.th[c].held - {b}) && s'.elements == s.elements + s.sizes[b]
      && s'.lists.full == [b] + s.lists.full && s'.lists.empty == s.lists.empty
    ensures tr[j].sizes[b] == 0 ==>
      var s, s' := tr[j], Apply(cfg, tr[j], c, PushEmpty(b));
      && Left(s, s', c, s.th[c].held - {b}) && s'.elements == s.elements
      && s'.lists.full == s.lists.full && s'.lists.empty == [b] + s.lists.empty
  {
    RunInv(cfg, tr, j);
    PushedCount(cfg, tr[j], c, b);
  }

  /** A thread may fill what it holds with any number of elements that fits, and that changes nothing else. */
  lemma FillsExactly(cfg: Config, tr: seq<State>, j: nat, c: Id, b: nat, n: nat)
    requires Run(cfg, tr) && j < |tr| && c in tr[j].th && b in tr[j].th[c].held && tr[j].th[c].guard.None?
    ensures InRange(cfg, tr[j]) && b < cfg.count && (Enabled(cfg, tr[j], c, Fill(b, n)) <==> n <= cfg.batchSize)
    ensures n <= cfg.batchSize ==> Apply(cfg, tr[j], c, Fill(b, n)) == tr[j].(sizes := tr[j].sizes[b := n])
  {
    RunInv(cfg, tr, j);
  }

  /** A thread alone pops the head of a full list that has an element. */
  lemma PopsAlone(cfg: Config, tr: seq<State>, c: Id) returns (longer: seq<State>)
    requires Run(cfg, tr) && c in tr[|tr| - 1].th && tr[|tr| - 1].th[c].guard.None?
    requires InRange(cfg, tr[|tr| - 1]) && Total(tr[|tr| - 1].lists.full, tr[|tr| - 1].sizes) > 0
    ensures Run(cfg, longer) && tr < longer
    ensures var s, s' := tr[|tr| - 1], longer[|longer| - 1];
      s.lists.full != [] && Left(s, s', c, s.th[c].held + {s.lists.full[0]}) && s'.lists.full == s.lists.full[1..]
  {
    var s := tr[|tr| - 1];
    RunInv(cfg, tr, |tr| - 1);
    CounterIsExact(cfg, s);
    var guarded := Apply(cfg, s, c, ReadGuard);
    longer := tr + [guarded, Apply(cfg, guarded, c, PopFull(false))];
    assert StepBy(cfg, s, c, ReadGuard, guarded);
    assert StepBy(cfg, guarded, c, PopFull(false), longer[|tr| + 1]);
    forall i | 0 <= i < |longer| - 1
      ensures StepAt(cfg, longer, i)
    {
      if i < |tr| - 1 { assert StepAt(cfg, tr, i); } else { assert Next(cfg, longer[i], longer[i + 1]); }
    }
  }

  /** In every reachable state the counter has not wrapped, and whatever is in the empty list is empty. */
  lemma CounterInRuns(cfg: Config, tr: seq<State>, j: nat)
    requires Run(cfg, tr) && j < |tr|
    ensures InRange(cfg, tr[j]) && tr[j].elements == Total(tr[j].lists.full, tr[j].sizes)
    ensures forall i :: 0 <= i < |tr[j].lists.empty| ==> tr[j].sizes[tr[j].lists.empty[i]] == 0
  {
    RunInv(cfg, tr, j);
    CounterIsExact(cfg, tr[j]);
  }
}
