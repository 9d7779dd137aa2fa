/** HybridLatch of backend/nam/syncprimitives/HybridLatch.hpp: a version word next to a shared mutex.

    Any number of threads run the latch's operations; every access to the version and every mutex operation is one
    step. `version` is incremented by 2 when an exclusive section opens and again when it closes. `count` is the
    version without wrap-around; it and the second component of a reference are history variables. */
module HybridLatch {
  import opened Words

  type Id = nat

  /** (version & 0b10) == 0b10 */
  predicate IsLatched(v: Word) {
    (v / 2) % 2 == 1
  }

  /** A version that the thread read, and what `count` was then. */
  datatype Ref = Ref(word: Word, at: nat)

  /** Why the exclusive latch is taken. */
  datatype Goal = Plain | Upgrade(start: Ref)

  /** What follows the closing of an exclusive section. */
  datatype After = Leave | ToShared | ToOptimistic(v: Word)

  datatype Pc =
    | Out
    | Failed                                  // an `ensure` did not hold
    // exclusive: mutex taken; version loaded; version stored; section open
    | Locked(goal: Goal) | Loaded(goal: Goal, v: Word) | Stored(goal: Goal) | Held(goal: Goal)
    // unlatchExclusive and tryDowngradeExclusiveToShared
    | Closing(after: After) | Reload(after: After) | Restore(after: After, v: Word)
    | Closed(after: After, r: Ref) | Unlocking(after: After, r: Ref)
    // the shared half of a downgrade
    | Relock(r: Ref) | Relocked(r: Ref) | Compare(r: Ref)
    // shared
    | SharedLocked | SharedHeld(since: Option<Ref>) | SharedDrop | SharedLeave(r: Ref)
    // optimistic
    | Optimistic(start: Ref) | ToSharedTry(start: Ref) | ToSharedCheck(start: Ref) | ToExclusiveTry(start: Ref)

  datatype State = State(version: Word, excl: Option<Id>, shared: set<Id>, th: map<Id, Pc>, count: nat)

  datatype Action =
    | LatchExclusive | LatchShared | LatchOptimistic | UnlatchExclusive | Downgrade | DowngradeToOptimistic
    | UnlatchShared | SharedToOptimistic | UpgradeToShared | UpgradeToExclusive | Validate | TryFails | Advance

  // ---- the machine ----------------------------------------------------------------------------------------

  ghost predicate Init(s: State) {
    && s.version == 4 && s.count == 4 && s.excl == None && s.shared == {}
    && forall w <- s.th :: s.th[w] == Out
  }

  predicate MutexFree(s: State) {
    s.excl == None && s.shared == {}
  }

  /** Which call a thread may begin, and when the next step of a call in progress is possible: taking the mutex
      exclusively needs it free, taking it shared needs no exclusive holder. */
  ghost predicate Enabled(s: State, w: Id, a: Action) {
    w in s.th &&
    var pc := s.th[w];
    match a
    case LatchExclusive => pc.Out? && MutexFree(s)
    case LatchShared => pc.Out? && s.excl == None
    case LatchOptimistic => pc.Out?
    case UnlatchExclusive => pc.Held?
    case Downgrade => pc.Held?
    case DowngradeToOptimistic => pc.Held?
    case UnlatchShared => pc.SharedHeld?
    case SharedToOptimistic => pc.SharedHeld?
    case UpgradeToShared => pc.Optimistic?
    case UpgradeToExclusive => pc.Optimistic?
    case Validate => pc.Optimistic?
    case TryFails => pc.ToSharedTry? || pc.ToExclusiveTry?
    case Advance =>
      match pc
      case Out => false
      case Failed => false
      case Held(_) => false
      case SharedHeld(_) => false
      case Optimistic(_) => false
      case ToExclusiveTry(_) => MutexFree(s)
      case ToSharedTry(_) => s.excl == None
      case Relock(_) => s.excl == None
      case _ => true
  }

  ghost function Put(s: State, w: Id, pc: Pc): State {
    s.(th := s.th[w := pc])
  }

  /** version.store(v + 0b10) */
  ghost function Store(s: State, w: Id, v: Word, pc: Pc): State {
    Put(s, w, pc).(version := Plus(v, 2), count := s.count + 2)
  }

  ghost function Ensure(b: bool, pc: Pc): Pc {
    if b then pc else Failed
  }

  ghost function Now(s: State): Ref {
    Ref(s.version, s.count)
  }

  /** The next step of the call that thread `w` is in. */
  ghost function AdvanceStep(s: State, w: Id): State
    requires Enabled(s, w, Advance)
  {
    var latched := IsLatched(s.version);
    match s.th[w]
    // latchExclusive, tryLatchExclusive
    case Locked(goal) => Put(s, w, Loaded(goal, s.version))
    case Loaded(goal, v) => Store(s, w, v, Stored(goal))
    case Stored(goal) =>
      if goal.Upgrade? && Plus(goal.start.word, 2) != s.version
      then Put(s, w, Ensure(latched, Closing(Leave)))
      else Put(s, w, Ensure(latched, Held(goal)))
    // closing an exclusive section
    case Closing(after) => Put(s, w, Ensure(latched, Reload(after)))
    case Reload(after) => Put(s, w, Restore(after, s.version))
    case Restore(after, v) => Store(s, w, v, Closed(after, Ref(Plus(v, 2), s.count + 2)))
    case Closed(after, r) => Put(s, w, Ensure(!latched, Unlocking(after, r)))
    case Unlocking(after, r) =>
      Put(s, w,
        match after
        case Leave => Out
        case ToShared => Relock(r)
        case ToOptimistic(v) => Optimistic(Ref(v, r.at))).(excl := None)
    // latchShared inside a downgrade
    case Relock(r) => Put(s, w, Relocked(r)).(shared := s.shared + {w})
    case Relocked(r) => Put(s, w, Ensure(!latched, Compare(r)))
    case Compare(r) => Put(s, w, if r.word == s.version then SharedHeld(Some(r)) else SharedDrop)
    // shared
    case SharedLocked => Put(s, w, Ensure(!latched, SharedHeld(None)))
    case SharedDrop => Put(s, w, Out).(shared := s.shared - {w})
    case SharedLeave(r) => Put(s, w, Optimistic(r)).(shared := s.shared - {w})
    // upgrades
    case ToSharedTry(start) => Put(s, w, ToSharedCheck(start)).(shared := s.shared + {w})
    case ToSharedCheck(start) => Put(s, w, if s.version == start.word then SharedHeld(Some(start)) else SharedDrop)
    case ToExclusiveTry(start) => Put(s, w, Locked(Upgrade(start))).(excl := Some(w))
  }

  ghost function Apply(s: State, w: Id, a: Action): State
    requires Enabled(s, w, a)
  {
    match a
    case LatchExclusive => Put(s, w, Locked(Plain)).(excl := Some(w))
    case LatchShared => Put(s, w, SharedLocked).(shared := s.shared + {w})
    case LatchOptimistic => Put(s, w, if IsLatched(s.version) then Out else Optimistic(Now(s)))
    case UnlatchExclusive => Put(s, w, Closing(Leave))
    case Downgrade => Put(s, w, Closing(ToShared))
    case DowngradeToOptimistic => Put(s, w, Closing(ToOptimistic(Plus(s.version, 2))))
    case UnlatchShared => Put(s, w, SharedDrop)
    case SharedToOptimistic => Put(s, w, SharedLeave(Now(s)))
    case UpgradeToShared =>
      var start := s.th[w].start;
      Put(s, w, if IsLatched(s.version) || s.version != start.word then Out else ToSharedTry(start))
    case UpgradeToExclusive =>
      var start := s.th[w].start;
      Put(s, w, if s.version != start.word then Out else ToExclusiveTry(start))
    case Validate => Put(s, w, Out)
    case TryFails => Put(s, w, Out)
    case Advance => AdvanceStep(s, w)
  }

  // ---- the invariant --------------------------------------------------------------------------------------

  predicate HasMutex(pc: Pc) {
    pc.Locked? || pc.Loaded? || pc.Stored? || pc.Held? || pc.Closing? || pc.Reload? || pc.Restore? || pc.Closed? ||
    pc.Unlocking?
  }

  /** Inside an exclusive section: the latched version is in memory. */
  predicate InSection(pc: Pc) {
    pc.Stored? || pc.Held? || pc.Closing? || pc.Reload? || pc.Restore?
  }

  predicate HasShared(pc: Pc) {
    pc.SharedLocked? || pc.SharedHeld? || pc.SharedDrop? || pc.Relocked? || pc.Compare? || pc.ToSharedCheck? ||
    pc.SharedLeave?
  }

  /** A reference is an earlier, unlatched version. */
  predicate RefOk(s: State, r: Ref) {
    r.word == r.at % WORD && r.at % 4 == 0 && r.at <= s.count
  }

  predicate GoalOk(s: State, g: Goal) {
    g.Upgrade? ==> RefOk(s, g.start)
  }

  ghost predicate ThreadOk(s: State, pc: Pc) {
    match pc
    case Out => true
    case Failed => false
    case Locked(g) => GoalOk(s, g)
    case Loaded(g, v) => GoalOk(s, g) && v == s.version
    case Stored(g) => GoalOk(s, g)
    case Held(g) => GoalOk(s, g)
    case Closing(after) => after.ToOptimistic? ==> after.v == Plus(s.version, 2)
    case Reload(after) => after.ToOptimistic? ==> after.v == Plus(s.version, 2)
    case Restore(after, v) => v == s.version && (after.ToOptimistic? ==> after.v == Plus(s.version, 2))
    case Closed(after, r) => r == Now(s) && (after.ToOptimistic? ==> after.v == s.version)
    case Unlocking(after, r) => r == Now(s) && (after.ToOptimistic? ==> after.v == s.version)
    case Relock(r) => RefOk(s, r)
    case Relocked(r) => RefOk(s, r)
    case Compare(r) => RefOk(s, r)
    case SharedLeave(r) => RefOk(s, r)
    case SharedLocked => true
    case SharedHeld(since) => since.Some? ==> RefOk(s, since.value)
    case SharedDrop => true
    case Optimistic(r) => RefOk(s, r)
    case ToSharedTry(r) => RefOk(s, r)
    case ToSharedCheck(r) => RefOk(s, r)
    case ToExclusiveTry(r) => RefOk(s, r)
  }

  ghost predicate WorkerOk(s: State, w: Id) {
    w in s.th ==>
      && ThreadOk(s, s.th[w])
      && (s.excl == Some(w) <==> HasMutex(s.th[w]))
      && (w in s.shared <==> HasShared(s.th[w]))
  }

  ghost predicate Inv(s: State) {
    && s.version == s.count % WORD
    && (s.excl.Some? ==> s.excl.value in s.th && s.shared == {})
    && s.shared <= s.th.Keys
    && s.count % 4 == (if s.excl.Some? && InSection(s.th[s.excl.value]) then 2 else 0)
    && (forall w: Id :: WorkerOk(s, w))
  }

  /** Bit 1 of the version is bit 1 of the unbounded count. */
  lemma BitOne(n: nat)
    ensures IsLatched(n % WORD) <==> n % 4 >= 2
  {
    var m := n % WORD;
    assert n == WORD * (n / WORD) + m == 4 * (0x4000_0000_0000_0000 * (n / WORD)) + m;
    assert n % 4 == m % 4;
  }

  /** Bit 1 of the version is set exactly inside an exclusive section. */
  lemma LatchedIffSection(s: State)
    requires Inv(s)
    ensures IsLatched(s.version) <==> s.excl.Some? && InSection(s.th[s.excl.value])
  {
    BitOne(s.count);
  }

  /** A step of `w` with new program counter `pc`. */
  lemma Frame(s: State, s': State, w: Id)
    requires Inv(s) && w in s.th && w in s'.th && s'.th == s.th[w := s'.th[w]]
    requires s'.version == s'.count % WORD
    requires (s'.version == s.version && s'.count == s.count) || (s.excl == Some(w) && s'.count >= s.count)
    requires s'.excl == s.excl || (s'.excl == Some(w) && MutexFree(s)) || (s.excl == Some(w) && s'.excl == None)
    requires s'.shared <= s.shared + {w} && s.shared <= s'.shared + {w}
    requires s'.excl.Some? ==> s'.shared == {}
    requires WorkerOk(s', w)
    requires s'.count % 4 ==
      if s'.excl.Some? && s'.excl.value in s'.th && InSection(s'.th[s'.excl.value]) then 2 else 0
    ensures Inv(s')
  {
    forall u: Id ensures WorkerOk(s', u) {
      assert WorkerOk(s, u);
    }
  }

  lemma OpenKeepsInv(s: State, w: Id)
    requires Inv(s) && Enabled(s, w, Advance)
    requires var pc := s.th[w]; pc.Locked? || pc.Stored? || pc.ToExclusiveTry?
    ensures Inv(AdvanceStep(s, w))
  {
    assert WorkerOk(s, w);
    LatchedIffSection(s);
    Frame(s, AdvanceStep(s, w), w);
  }

  lemma CountStep(n: nat)
    requires n % 4 == 0 || n % 4 == 2
    ensures (n + 2) % 4 == 2 - n % 4
  {
  }

  /** The store that opens or closes a section. */
  lemma StoreKeepsInv(s: State, w: Id, pc: Pc)
    requires Inv(s) && w in s.th && HasMutex(s.th[w]) && HasMutex(pc)
    requires InSection(pc) != InSection(s.th[w])
    requires ThreadOk(Store(s, w, s.version, pc), pc)
    ensures Inv(Store(s, w, s.version, pc))
  {
    assert WorkerOk(s, w);
    CountStep(s.count);
    PlusMod(s.count, 2);
    Frame(s, Store(s, w, s.version, pc), w);
  }

  lemma LoadedKeepsInv(s: State, w: Id)
    requires Inv(s) && Enabled(s, w, Advance) && s.th[w].Loaded?
    ensures Inv(AdvanceStep(s, w))
  {
    assert WorkerOk(s, w);
    StoreKeepsInv(s, w, Stored(s.th[w].goal));
  }

  lemma RestoreKeepsInv(s: State, w: Id)
    requires Inv(s) && Enabled(s, w, Advance) && s.th[w].Restore?
    ensures Inv(AdvanceStep(s, w))
  {
    assert WorkerOk(s, w);
    StoreKeepsInv(s, w, Closed(s.th[w].after, Ref(Plus(s.version, 2), s.count + 2)));
  }

  lemma CloseKeepsInv(s: State, w: Id)
    requires Inv(s) && Enabled(s, w, Advance)
    requires var pc := s.th[w]; pc.Closing? || pc.Reload? || pc.Closed? || pc.Unlocking?
    ensures Inv(AdvanceStep(s, w))
  {
    assert WorkerOk(s, w);
    LatchedIffSection(s);
    Frame(s, AdvanceStep(s, w), w);
  }

  lemma SharedKeepsInv(s: State, w: Id)
    requires Inv(s) && Enabled(s, w, Advance)
    requires var pc := s.th[w]; HasShared(pc) || pc.Relock? || pc.ToSharedTry?
    ensures Inv(AdvanceStep(s, w))
  {
    assert WorkerOk(s, w);
    LatchedIffSection(s);
    Frame(s, AdvanceStep(s, w), w);
  }

  lemma CallKeepsInv(s: State, w: Id, a: Action)
    requires Inv(s) && Enabled(s, w, a) && !a.Advance?
    ensures Inv(Apply(s, w, a))
  {
    assert WorkerOk(s, w);
    LatchedIffSection(s);
    Frame(s, Apply(s, w, a), w);
  }

  lemma StepKeepsInv(s: State, w: Id, a: Action)
    requires Inv(s) && Enabled(s, w, a)
    ensures Inv(Apply(s, w, a))
  {
    var pc := s.th[w];
    if !a.Advance? {
      CallKeepsInv(s, w, a);
    } else if pc.Locked? || pc.Stored? || pc.ToExclusiveTry? {
      OpenKeepsInv(s, w);
    } else if pc.Loaded? {
      LoadedKeepsInv(s, w);
    } else if pc.Restore? {
      RestoreKeepsInv(s, w);
    } else if HasMutex(pc) {
      CloseKeepsInv(s, w);
    } else {
      SharedKeepsInv(s, w);
    }
  }

  // ---- runs -------------------------------------------------------------------------------------------------

  ghost predicate StepBy(s: State, w: Id, a: Action, s': State) {
    Enabled(s, w, a) && s' == Apply(s, w, a)
  }

  ghost predicate Next(s: State, s': State) {
    exists w, a :: StepBy(s, w, a, s')
  }

  ghost predicate StepAt(tr: seq<State>, i: nat)
    requires i + 1 < |tr|
  {
    Next(tr[i], tr[i + 1])
  }

  ghost predicate Run(tr: seq<State>) {
    && |tr| >= 1 && Init(tr[0])
    && (forall i :: 0 <= i < |tr| - 1 ==> StepAt(tr, i))
  }

  ghost predicate Section(s: State) {
    s.excl.Some? && s.excl.value in s.th && InSection(s.th[s.excl.value])
  }

  /** The count never falls, and as long as it stays the same an open section keeps its owner. */
  lemma NextKeepsInv(s: State, s': State)
    requires Inv(s) && Next(s, s')
    ensures Inv(s') && s.count <= s'.count
    ensures s.count == s'.count && Section(s) ==> Section(s') && s'.excl == s.excl
  {
    var w, a :| StepBy(s, w, a, s');
    assert WorkerOk(s, w);
    StepKeepsInv(s, w, a);
  }

  lemma {:induction false} RunInv(tr: seq<State>, j: nat)
    requires Run(tr) && j < |tr|
    ensures Inv(tr[j])
  {
    if j == 0 {
      forall w: Id ensures WorkerOk(tr[0], w) {}
    } else {
      RunInv(tr, j - 1);
      assert StepAt(tr, j - 1);
      NextKeepsInv(tr[j - 1], tr[j]);
    }
  }

  lemma {:induction false} Monotone(tr: seq<State>, i: nat, j: nat)
    requires Run(tr) && i <= j < |tr|
    ensures tr[i].count <= tr[j].count
    ensures tr[i].count == tr[j].count && Section(tr[i]) ==> Section(tr[j]) && tr[j].excl == tr[i].excl
    decreases j - i
  {
    if i < j {
      Monotone(tr, i, j - 1);
      RunInv(tr, j - 1);
      assert StepAt(tr, j - 1);
      NextKeepsInv(tr[j - 1], tr[j]);
    }
  }

  /** In every reachable state no `ensure` has failed, bit 1 of the version is set exactly while the holder of the
      mutex is inside its section, and sections exclude each other and every shared holder. */
  lemma LatchIsSound(tr: seq<State>, j: nat)
    requires Run(tr) && j < |tr|
    ensures forall w <- tr[j].th :: tr[j].th[w] != Failed
    ensures IsLatched(tr[j].version) <==> exists w :: w in tr[j].th && InSection(tr[j].th[w])
    ensures forall u, w :: u in tr[j].th && w in tr[j].th && HasMutex(tr[j].th[u]) ==>
      !HasShared(tr[j].th[w]) && (HasMutex(tr[j].th[w]) ==> u == w)
  {
    RunInv(tr, j);
    LatchedIffSection(tr[j]);
    forall w | w in tr[j].th ensures WorkerOk(tr[j], w) {}
  }

  /** Optimistic validation. A version that was read unlatched at `i` and compares equal at `j` proves that no
      exclusive section was open at any instant between, provided the count of version changes grew by less than
      2^64 meanwhile, which is fewer than 2^62 latch cycles. With exactly 2^62 it does not (`HybridRuns`). */
  lemma ValidatedReadSawNoSection(tr: seq<State>, i: nat, j: nat, k: nat, w: Id)
    requires Run(tr) && i <= k <= j < |tr|
    requires !IsLatched(tr[i].version) && tr[j].version == tr[i].version
    requires tr[j].count - tr[i].count < WORD
    requires w in tr[k].th
    ensures tr[k].version == tr[i].version && !InSection(tr[k].th[w])
  {
    Monotone(tr, i, k);
    Monotone(tr, k, j);
    RunInv(tr, i);
    RunInv(tr, j);
    RunInv(tr, k);
    SameCounter(tr[i].count, tr[j].count);
    LatchedIffSection(tr[k]);
    assert WorkerOk(tr[k], w);
  }

  /** The first test of an upgrade: with fewer than 2^62 latch cycles since the reference, the call goes on if and only
      if the version has not been changed since. */
  lemma UpgradesGoOnExactly(tr: seq<State>, j: nat, w: Id, start: Ref)
    requires Run(tr) && j < |tr| && w in tr[j].th && tr[j].th[w] == Optimistic(start)
    requires tr[j].count - start.at < WORD
    ensures Enabled(tr[j], w, UpgradeToExclusive) && Enabled(tr[j], w, UpgradeToShared)
    ensures Apply(tr[j], w, UpgradeToExclusive) ==
      Put(tr[j], w, if tr[j].count == start.at then ToExclusiveTry(start) else Out)
    ensures Apply(tr[j], w, UpgradeToShared) ==
      Put(tr[j], w, if tr[j].count == start.at then ToSharedTry(start) else Out)
  {
    RunInv(tr, j);
    assert WorkerOk(tr[j], w);
    SameCounter(tr[j].count, start.at);
    BitOne(tr[j].count);
  }

  /** The test of a later validation, under the same proviso. */
  lemma ValidatesExactly(tr: seq<State>, j: nat, w: Id, start: Ref)
    requires Run(tr) && j < |tr| && w in tr[j].th && tr[j].th[w] == Optimistic(start)
    requires tr[j].count - start.at < WORD
    ensures tr[j].version == start.word <==> tr[j].count == start.at
  {
    RunInv(tr, j);
    assert WorkerOk(tr[j], w);
    SameCounter(tr[j].count, start.at);
  }

  /** An optimistic latch is refused if and only if a section is open, and otherwise gives the present version. */
  lemma LatchesOptimisticExactly(tr: seq<State>, j: nat, w: Id)
    requires Run(tr) && j < |tr| && w in tr[j].th && tr[j].th[w] == Out
    ensures Enabled(tr[j], w, LatchOptimistic)
    ensures Apply(tr[j], w, LatchOptimistic) ==
      Put(tr[j], w, if exists u :: u in tr[j].th && InSection(tr[j].th[u]) then Out else Optimistic(Now(tr[j])))
  {
    LatchIsSound(tr, j);
  }

  /** The mutex can be taken exclusively if and only if nobody has it, and shared if and only if nobody has it
      exclusively. */
  lemma MutexExactly(tr: seq<State>, j: nat)
    requires Run(tr) && j < |tr|
    ensures MutexFree(tr[j]) <==> forall u <- tr[j].th :: !HasMutex(tr[j].th[u]) && !HasShared(tr[j].th[u])
    ensures tr[j].excl == None <==> forall u <- tr[j].th :: !HasMutex(tr[j].th[u])
  {
    var s := tr[j];
    RunInv(tr, j);
    forall u | u in s.th ensures WorkerOk(s, u) {}
    if s.excl.Some? { assert HasMutex(s.th[s.excl.value]); }
    if s.shared != {} {
      var u :| u in s.shared;
      assert u in s.th && HasShared(s.th[u]);
    }
  }

  /** A try never blocks: it takes the mutex if nobody is in the way, and may fail at any time. */
  lemma TriesExactly(tr: seq<State>, j: nat, w: Id, start: Ref)
    requires Run(tr) && j < |tr| && w in tr[j].th
    requires tr[j].th[w] == ToExclusiveTry(start) || tr[j].th[w] == ToSharedTry(start)
    ensures Enabled(tr[j], w, TryFails) && Apply(tr[j], w, TryFails) == Put(tr[j], w, Out)
    ensures Enabled(tr[j], w, Advance) <==>
      forall u <- tr[j].th :: !HasMutex(tr[j].th[u]) && (tr[j].th[w].ToExclusiveTry? ==> !HasShared(tr[j].th[u]))
    ensures Enabled(tr[j], w, Advance) ==>
      AdvanceStep(tr[j], w).th[w] == if tr[j].th[w].ToSharedTry? then ToSharedCheck(start) else Locked(Upgrade(start))
  {
    MutexExactly(tr, j);
  }

  /** Thread `w` is about to compare the version with its reference `r`. */
  ghost predicate Comparing(s: State, w: Id, r: Ref) {
    w in s.th && (s.th[w] == ToSharedCheck(r) || s.th[w] == Compare(r) || s.th[w] == Stored(Upgrade(r)))
  }

  /** What the thread itself has added to the count since its reference. */
  ghost function Own(s: State, w: Id): nat
    requires w in s.th
  {
    if s.th[w].Stored? then 2 else 0
  }

  /** The outcome of the comparison: true from optimisticUpgradeToShared, tryDowngradeExclusiveToShared or
      optimisticUpgradeToExclusive. */
  ghost predicate Succeeds(s: State, w: Id)
    requires Enabled(s, w, Advance)
  {
    AdvanceStep(s, w).th[w].SharedHeld? || AdvanceStep(s, w).th[w].Held?
  }

  lemma DecisionIsExact(s: State, w: Id, r: Ref)
    requires Inv(s) && Comparing(s, w, r) && s.count - r.at < WORD
    ensures r.at % 4 == 0
    ensures Succeeds(s, w) <==> s.count == r.at + Own(s, w)
  {
    assert WorkerOk(s, w);
    LatchedIffSection(s);
    PlusMod(r.at, 2);
    if s.count >= r.at + Own(s, w) {
      SameCounter(s.count, r.at + Own(s, w));
    }
  }

  /** The comparisons that decide the upgrades and the downgrade are exact: with fewer than 2^62 latch cycles since
      the reference, they succeed if and only if nobody else has changed the version. */
  lemma DecisionsAreExact(tr: seq<State>, j: nat, w: Id, r: Ref)
    requires Run(tr) && j < |tr| && Comparing(tr[j], w, r) && tr[j].count - r.at < WORD
    ensures r.at % 4 == 0
    ensures Succeeds(tr[j], w) <==> tr[j].count == r.at + Own(tr[j], w)
  {
    RunInv(tr, j);
    DecisionIsExact(tr[j], w, r);
  }

  /** Between the reference and the decision, a section can only have been the deciding thread's own. */
  lemma OnlyOwnSection(between: State, s: State, w: Id, r: Ref, u: Id)
    requires Inv(between) && Inv(s) && Comparing(s, w, r) && r.at % 4 == 0 && s.count == r.at + Own(s, w)
    requires r.at <= between.count <= s.count
    requires between.count == s.count && Section(between) ==> s.excl == between.excl
    requires u in between.th && u != w
    ensures !InSection(between.th[u])
  {
    assert WorkerOk(s, w) && WorkerOk(between, u);
    if between.count == r.at {
      assert !Section(between);
    }
  }

  /** The reference that a thread keeps. */
  ghost function RefOf(pc: Pc): Option<Ref> {
    match pc
    case Locked(goal) => if goal.Upgrade? then Some(goal.start) else None
    case Loaded(goal, _) => if goal.Upgrade? then Some(goal.start) else None
    case Stored(goal) => if goal.Upgrade? then Some(goal.start) else None
    case Held(goal) => if goal.Upgrade? then Some(goal.start) else None
    case Closed(_, r) => Some(r)
    case Unlocking(_, r) => Some(r)
    case Relock(r) => Some(r)
    case Relocked(r) => Some(r)
    case Compare(r) => Some(r)
    case SharedHeld(since) => since
    case SharedLeave(r) => Some(r)
    case Optimistic(r) => Some(r)
    case ToSharedTry(r) => Some(r)
    case ToSharedCheck(r) => Some(r)
    case ToExclusiveTry(r) => Some(r)
    case _ => None
  }

  ghost predicate Keeps(s: State, w: Id, r: Ref) {
    w in s.th && RefOf(s.th[w]) == Some(r)
  }

  lemma CallTakesRef(s: State, u: Id, a: Action, w: Id, r: Ref)
    requires Inv(s) && Enabled(s, u, a) && !a.Advance? && Keeps(Apply(s, u, a), w, r) && !Keeps(s, w, r)
    ensures r == Now(Apply(s, u, a)) && w in s.th
  {
  }

  lemma AdvanceTakesRef(s: State, u: Id, w: Id, r: Ref)
    requires Inv(s) && Enabled(s, u, Advance) && Keeps(AdvanceStep(s, u), w, r) && !Keeps(s, w, r)
    ensures r == Now(AdvanceStep(s, u)) && w in s.th
  {
    assert WorkerOk(s, u);
  }

  /** A step keeps a thread's reference or takes one that is the present version and count. */
  lemma RefsAreTaken(s: State, s': State, w: Id, r: Ref)
    requires Inv(s) && Next(s, s') && Keeps(s', w, r) && !Keeps(s, w, r)
    ensures r == Now(s') && w in s.th
  {
    var u, a :| StepBy(s, u, a, s');
    if a.Advance? { AdvanceTakesRef(s, u, w, r); } else { CallTakesRef(s, u, a, w, r); }
  }

  /** The state in which thread `w` took the reference that it keeps at `j`. */
  lemma {:induction false} TakenAt(tr: seq<State>, j: nat, w: Id, r: Ref) returns (i: nat)
    requires Run(tr) && j < |tr| && Keeps(tr[j], w, r)
    ensures 1 <= i <= j && !Keeps(tr[i - 1], w, r) && r == Now(tr[i])
    ensures forall k :: i <= k <= j ==> Keeps(tr[k], w, r)
  {
    if j > 0 && Keeps(tr[j - 1], w, r) {
      i := TakenAt(tr, j - 1, w, r);
    } else {
      i := j;
      assert j > 0;
      RunInv(tr, j - 1);
      assert StepAt(tr, j - 1);
      RefsAreTaken(tr[j - 1], tr[j], w, r);
    }
  }

  /** Nobody else's section was open between a reference and a successful upgrade or downgrade: from the state `i` in
      which the thread took the reference on, it is the only one that can have been inside. */
  lemma UpgradeSawNoOtherSection(tr: seq<State>, j: nat, w: Id, r: Ref) returns (i: nat)
    requires Run(tr) && j < |tr| && Comparing(tr[j], w, r) && tr[j].count - r.at < WORD && Succeeds(tr[j], w)
    ensures 1 <= i <= j && !Keeps(tr[i - 1], w, r) && r == Now(tr[i])
    ensures forall k :: i <= k <= j ==> Keeps(tr[k], w, r)
    ensures forall k, u :: i <= k <= j && u in tr[k].th && u != w ==> !InSection(tr[k].th[u])
  {
    i := TakenAt(tr, j, w, r);
    RunInv(tr, j);
    DecisionIsExact(tr[j], w, r);
    forall k, u | i <= k <= j && u in tr[k].th && u != w
      ensures !InSection(tr[k].th[u])
    {
      Monotone(tr, i, k);
      Monotone(tr, k, j);
      RunInv(tr, k);
      OnlyOwnSection(tr[k], tr[j], w, r, u);
    }
  }
}
