/** OptimisticLatch of backend/nam/syncprimitives/HybridLatch.hpp: one atomic word whose bit 1 is the latch and
    whose bit 0 marks the latched thing obsolete. Every access to the word is one step of some thread; `count` is
    the word without wrap-around, and the second component of a reference what it was when the word was read. */
module OptimisticLatch {
  import opened Words
  import HL = HybridLatch

  type Id = nat
  type Ref = HL.Ref

  datatype Pc =
    | Out
    | Failed                                // unlatchExclusive's `ensure` did not hold
    | Optimistic(start: Ref)                // optimisticLatchOrRestart returned this version
    | Held                                  // latched
    | Closing(v: Option<Word>) | Reload(v: Option<Word>) | Restore(v: Option<Word>, loaded: Word)

  datatype State = State(word: Word, owner: Option<Id>, obsolete: bool, th: map<Id, Pc>, count: nat)

  datatype Action =
    | LatchOptimistic | Upgrade | Validate | UnlatchExclusive | DowngradeToOptimistic | WriteUnlockObsolete | Advance

  ghost predicate Init(s: State) {
    s.word == 4 && s.count == 4 && s.owner == None && !s.obsolete && forall w <- s.th :: s.th[w] == Out
  }

  /** A latch is made obsolete at most once. */
  ghost predicate Enabled(s: State, w: Id, a: Action) {
    w in s.th &&
    var pc := s.th[w];
    match a
    case LatchOptimistic => pc.Out?
    case Upgrade => pc.Optimistic?
    case Validate => pc.Optimistic?
    case UnlatchExclusive => pc.Held?
    case DowngradeToOptimistic => pc.Held?
    case WriteUnlockObsolete => pc.Held? && !s.obsolete
    case Advance => pc.Closing? || pc.Reload? || pc.Restore?
  }

  ghost function Put(s: State, w: Id, pc: Pc): State {
    s.(th := s.th[w := pc])
  }

  /** compare_exchange_strong(version, version + 0b10), after the test of the latch bit. */
  ghost predicate Succeeds(s: State, w: Id)
    requires Enabled(s, w, Upgrade)
  {
    !HL.IsLatched(s.th[w].start.word) && s.word == s.th[w].start.word
  }

  ghost function Apply(s: State, w: Id, a: Action): State
    requires Enabled(s, w, a)
  {
    match a
    case LatchOptimistic =>
      Put(s, w, if HL.IsLatched(s.word) then Out else Optimistic(HL.Ref(s.word, s.count)))
    case Upgrade =>
      if Succeeds(s, w) then Put(s, w, Held).(word := Plus(s.word, 2), count := s.count + 2, owner := Some(w))
      else Put(s, w, Out)
    case Validate => Put(s, w, Out)
    case UnlatchExclusive => Put(s, w, Closing(None))
    case DowngradeToOptimistic => Put(s, w, Closing(Some(Plus(s.word, 2))))
    case WriteUnlockObsolete =>
      Put(s, w, Out).(word := Plus(s.word, 3), count := s.count + 3, owner := None, obsolete := true)
    case Advance =>
      match s.th[w]
      case Closing(v) => Put(s, w, if HL.IsLatched(s.word) then Reload(v) else Failed)
      case Reload(v) => Put(s, w, Restore(v, s.word))
      case Restore(v, loaded) =>
        Put(s, w, if v.Some? then Optimistic(HL.Ref(v.value, s.count + 2)) else Out)
          .(word := Plus(loaded, 2), count := s.count + 2, owner := None)
  }

  predicate Inside(pc: Pc) {
    pc.Held? || pc.Closing? || pc.Reload? || pc.Restore?
  }

  ghost predicate RefOk(s: State, r: Ref) {
    r.word == r.at % WORD && r.at % 4 < 2 && r.at <= s.count
  }

  ghost predicate ThreadOk(s: State, pc: Pc) {
    match pc
    case Out => true
    case Failed => false
    case Optimistic(r) => RefOk(s, r)
    case Held => true
    case Closing(v) => v.Some? ==> v.value == Plus(s.word, 2)
    case Reload(v) => v.Some? ==> v.value == Plus(s.word, 2)
    case Restore(v, loaded) => loaded == s.word && (v.Some? ==> v.value == Plus(s.word, 2))
  }

  ghost predicate WorkerOk(s: State, w: Id) {
    w in s.th ==> ThreadOk(s, s.th[w]) && (s.owner == Some(w) <==> Inside(s.th[w]))
  }

  ghost predicate Inv(s: State) {
    && s.word == s.count % WORD
    && (s.owner.Some? ==> s.owner.value in s.th)
    && s.count % 4 == (if s.owner.Some? then 2 else 0) + (if s.obsolete then 1 else 0)
    && (forall w: Id :: WorkerOk(s, w))
  }

  lemma LatchedIffOwned(s: State)
    requires Inv(s)
    ensures HL.IsLatched(s.word) <==> s.owner.Some?
  {
    HL.BitOne(s.count);
  }

  lemma Frame(s: State, s': State, w: Id)
    requires Inv(s) && w in s.th && w in s'.th && s'.th == s.th[w := s'.th[w]]
    requires s'.word == s'.count % WORD
    requires (s'.word == s.word && s'.count == s.count) ||
             (s'.count >= s.count && (s.owner == Some(w) || s.owner == None))
    requires s'.owner == s.owner || (s.owner == None && s'.owner == Some(w)) || (s.owner == Some(w) && s'.owner == None)
    requires s'.count % 4 == (if s'.owner.Some? then 2 else 0) + (if s'.obsolete then 1 else 0)
    requires WorkerOk(s', w)
    ensures Inv(s')
  {
    forall u: Id ensures WorkerOk(s', u) {
      assert WorkerOk(s, u);
    }
  }

  lemma Mod4(n: nat, d: nat)
    requires n % 4 + d < 8
    ensures (n + d) % 4 == if n % 4 + d < 4 then n % 4 + d else n % 4 + d - 4
  {
  }

  lemma UpgradeKeepsInv(s: State, w: Id)
    requires Inv(s) && Enabled(s, w, Upgrade)
    ensures Inv(Apply(s, w, Upgrade))
  {
    assert WorkerOk(s, w);
    LatchedIffOwned(s);
    Mod4(s.count, 2);
    PlusMod(s.count, 2);
    Frame(s, Apply(s, w, Upgrade), w);
  }

  lemma ObsoleteKeepsInv(s: State, w: Id)
    requires Inv(s) && Enabled(s, w, WriteUnlockObsolete)
    ensures Inv(Apply(s, w, WriteUnlockObsolete))
  {
    assert WorkerOk(s, w);
    Mod4(s.count, 3);
    PlusMod(s.count, 3);
    Frame(s, Apply(s, w, WriteUnlockObsolete), w);
  }

  lemma RestoreKeepsInv(s: State, w: Id)
    requires Inv(s) && Enabled(s, w, Advance) && s.th[w].Restore?
    ensures Inv(Apply(s, w, Advance))
  {
    assert WorkerOk(s, w);
    Mod4(s.count, 2);
    PlusMod(s.count, 2);
    Frame(s, Apply(s, w, Advance), w);
  }

  lemma QuietKeepsInv(s: State, w: Id, a: Action)
    requires Inv(s) && Enabled(s, w, a) && !a.Upgrade? && !a.WriteUnlockObsolete?
    requires a.Advance? ==> !s.th[w].Restore?
    ensures Inv(Apply(s, w, a))
  {
    assert WorkerOk(s, w);
    LatchedIffOwned(s);
    HL.BitOne(s.count);
    Frame(s, Apply(s, w, a), w);
  }

  lemma StepKeepsInv(s: State, w: Id, a: Action)
    requires Inv(s) && Enabled(s, w, a)
    ensures Inv(Apply(s, w, a))
  {
    if a.Upgrade? { UpgradeKeepsInv(s, w); }
    else if a.WriteUnlockObsolete? { ObsoleteKeepsInv(s, w); }
    else if a.Advance? && s.th[w].Restore? { RestoreKeepsInv(s, w); }
    else { QuietKeepsInv(s, w, a); }
  }

  // ---- runs -------------------------------------------------------------------------------------------------

  ghost predicate StepBy(s: State, w: Id, a: Action, s': State) {
    Enabled(s, w, a) && s' == Apply(s, w, a)
  }

  ghost predicate Next(s: State, s': State) {
    exists w, a :: StepBy(s, w, a, s')
  }

  ghost predicate StepAt(tr: seq<State>, i: nat)
    requires i + 1 < |tr|
  {
    Next(tr[i], tr[i + 1])
  }

  ghost predicate Run(tr: seq<State>) {
    && |tr| >= 1 && Init(tr[0])
    && (forall i :: 0 <= i < |tr| - 1 ==> StepAt(tr, i))
  }

  lemma NextKeepsInv(s: State, s': State)
    requires Inv(s) && Next(s, s')
    ensures Inv(s') && s.count <= s'.count
  {
    var w, a :| StepBy(s, w, a, s');
    StepKeepsInv(s, w, a);
  }

  lemma {:induction false} RunInv(tr: seq<State>, j: nat)
    requires Run(tr) && j < |tr|
    ensures Inv(tr[j])
  {
    if j == 0 {
      forall w: Id ensures WorkerOk(tr[0], w) {}
    } else {
      RunInv(tr, j - 1);
      assert StepAt(tr, j - 1);
      NextKeepsInv(tr[j - 1], tr[j]);
    }
  }

  lemma {:induction false} Monotone(tr: seq<State>, i: nat, j: nat)
    requires Run(tr) && i <= j < |tr|
    ensures tr[i].count <= tr[j].count
    decreases j - i
  {
    if i < j {
      Monotone(tr, i, j - 1);
      RunInv(tr, j - 1);
      assert StepAt(tr, j - 1);
      NextKeepsInv(tr[j - 1], tr[j]);
    }
  }

  /** In every reachable state no `ensure` has failed, the latch bit is set exactly while a thread is inside its
      section, and at most one is. */
  lemma LatchIsSound(tr: seq<State>, j: nat)
    requires Run(tr) && j < |tr|
    ensures forall w <- tr[j].th :: tr[j].th[w] != Failed
    ensures HL.IsLatched(tr[j].word) <==> exists w :: w in tr[j].th && Inside(tr[j].th[w])
    ensures forall u, w :: u in tr[j].th && w in tr[j].th && Inside(tr[j].th[u]) && Inside(tr[j].th[w]) ==> u == w
  {
    RunInv(tr, j);
    LatchedIffOwned(tr[j]);
    forall w | w in tr[j].th ensures WorkerOk(tr[j], w) {}
    if tr[j].owner.Some? { assert WorkerOk(tr[j], tr[j].owner.value); }
  }

  /** Optimistic validation and the upgrade rest on one comparison of the word. If an unlatched word that was read
      at `i` compares equal at `j`, nobody was inside at any instant between, provided the word moved by less
      than 2^64 meanwhile. With 2^64 it does not (`WordReturns`). */
  lemma EqualWordSawNoSection(tr: seq<State>, i: nat, j: nat, k: nat, w: Id)
    requires Run(tr) && i <= k <= j < |tr|
    requires !HL.IsLatched(tr[i].word) && tr[j].word == tr[i].word
    requires tr[j].count - tr[i].count < WORD
    requires w in tr[k].th
    ensures tr[k].word == tr[i].word && !Inside(tr[k].th[w])
  {
    Monotone(tr, i, k);
    Monotone(tr, k, j);
    RunInv(tr, i);
    RunInv(tr, j);
    RunInv(tr, k);
    SameCounter(tr[i].count, tr[j].count);
    LatchedIffOwned(tr[i]);
    assert WorkerOk(tr[k], w);
    assert tr[k].count == tr[i].count;
    LatchedIffOwned(tr[k]);
  }

  /** The upgrade succeeds if and only if nobody has changed the word since the reference. */
  lemma UpgradeIsExact(tr: seq<State>, j: nat, w: Id)
    requires Run(tr) && j < |tr| && Enabled(tr[j], w, Upgrade) && tr[j].count - tr[j].th[w].start.at < WORD
    ensures Succeeds(tr[j], w) <==> tr[j].count == tr[j].th[w].start.at
  {
    var s := tr[j];
    RunInv(tr, j);
    assert WorkerOk(s, w);
    HL.BitOne(s.th[w].start.at);
    SameCounter(s.count, s.th[w].start.at);
  }

  /** Under the same proviso, a later validation succeeds if and only if nobody has changed the word. */
  lemma ValidatesExactly(tr: seq<State>, j: nat, w: Id, start: Ref)
    requires Run(tr) && j < |tr| && w in tr[j].th && tr[j].th[w] == Optimistic(start)
    requires tr[j].count - start.at < WORD
    ensures tr[j].word == start.word <==> tr[j].count == start.at
  {
    RunInv(tr, j);
    assert WorkerOk(tr[j], w);
    SameCounter(tr[j].count, start.at);
  }

  /** An optimistic latch is refused if and only if somebody is inside, whether the latch is obsolete or not, and
      otherwise gives the present word. */
  lemma LatchesOptimisticExactly(tr: seq<State>, j: nat, w: Id)
    requires Run(tr) && j < |tr| && w in tr[j].th && tr[j].th[w] == Out
    ensures Enabled(tr[j], w, LatchOptimistic)
    ensures Apply(tr[j], w, LatchOptimistic) ==
      Put(tr[j], w, if exists u :: u in tr[j].th && Inside(tr[j].th[u]) then Out
                    else Optimistic(HL.Ref(tr[j].word, tr[j].count)))
  {
    LatchIsSound(tr, j);
  }

  // ---- undisturbed calls ------------------------------------------------------------------------------------

  ghost function Last(tr: seq<State>): State
    requires |tr| >= 1
  {
    tr[|tr| - 1]
  }

  /** One more step of a run. */
  lemma Extend(tr: seq<State>, w: Id, a: Action) returns (longer: seq<State>)
    requires Run(tr) && Enabled(Last(tr), w, a)
    ensures Run(longer) && longer == tr + [Apply(Last(tr), w, a)] && Inv(Last(longer))
  {
    longer := tr + [Apply(Last(tr), w, a)];
    assert StepBy(Last(tr), w, a, Last(longer));
    forall i | 0 <= i < |longer| - 1
      ensures StepAt(longer, i)
    {
      assert i < |tr| - 1 ==> StepAt(tr, i);
    }
    RunInv(longer, |longer| - 1);
  }

  /** A reachable state in which thread `w` is at `pc`. */
  ghost predicate At(tr: seq<State>, w: Id, pc: Pc) {
    Run(tr) && Inv(Last(tr)) && w in Last(tr).th && Last(tr).th[w] == pc
  }

  /** A run that goes on with steps of thread `w` only, to `pc`; the count has grown by `d`. */
  ghost predicate To(tr: seq<State>, longer: seq<State>, w: Id, pc: Pc, d: nat) {
    && |tr| >= 1 && At(longer, w, pc) && tr < longer
    && Last(longer).th == Last(tr).th[w := pc] && Last(longer).count == Last(tr).count + d
  }

  lemma UpgradeAlone(tr: seq<State>, w: Id, start: Ref) returns (longer: seq<State>)
    requires At(tr, w, Optimistic(start)) && Last(tr).count == start.at
    ensures To(tr, longer, w, Held, 2) && Last(longer).obsolete == Last(tr).obsolete
  {
    UpgradeIsExact(tr, |tr| - 1, w);
    longer := Extend(tr, w, Upgrade);
  }

  /** tryLatchExclusive, with nobody inside. */
  lemma LatchAlone(tr: seq<State>, w: Id) returns (longer: seq<State>)
    requires At(tr, w, Out) && Last(tr).owner == None
    ensures To(tr, longer, w, Held, 2) && Last(longer).obsolete == Last(tr).obsolete
  {
    LatchedIffOwned(Last(tr));
    longer := Extend(tr, w, LatchOptimistic);
    longer := UpgradeAlone(longer, w, Last(longer).th[w].start);
  }

  /** The rest of unlatchExclusive; `v` is what a downgrade returns. */
  lemma CloseAlone(tr: seq<State>, w: Id, v: Option<Word>) returns (longer: seq<State>, r: Ref)
    requires At(tr, w, Closing(v))
    ensures To(tr, longer, w, if v.Some? then Optimistic(r) else Out, 2)
    ensures r == HL.Ref(Last(longer).word, Last(longer).count) && Last(longer).owner == None
    ensures Last(longer).obsolete == Last(tr).obsolete
  {
    LatchedIffOwned(Last(tr));
    assert WorkerOk(Last(tr), w);
    longer := Extend(tr, w, Advance);
    longer := Extend(longer, w, Advance);
    longer := Extend(longer, w, Advance);
    r := HL.Ref(Last(longer).word, Last(longer).count);
  }

  lemma UnlatchAlone(tr: seq<State>, w: Id) returns (longer: seq<State>)
    requires At(tr, w, Held)
    ensures To(tr, longer, w, Out, 2) && Last(longer).owner == None && Last(longer).obsolete == Last(tr).obsolete
  {
    var r;
    longer := Extend(tr, w, UnlatchExclusive);
    longer, r := CloseAlone(longer, w, None);
  }

  lemma DowngradeAlone(tr: seq<State>, w: Id) returns (longer: seq<State>, r: Ref)
    requires At(tr, w, Held)
    ensures To(tr, longer, w, Optimistic(r), 2) && Last(longer).owner == None
    ensures r == HL.Ref(Last(longer).word, Last(longer).count)
  {
    longer := Extend(tr, w, DowngradeToOptimistic);
    longer, r := CloseAlone(longer, w, Last(longer).th[w].v);
  }

  lemma Mod4Keeps(n: nat)
    ensures n % 4 % 2 == n % 2
  {
  }

  /** Wrapping at 2^64 keeps bit 0. */
  lemma BitZero(n: nat)
    ensures n % WORD % 2 == n % 2
  {
    assert n == WORD * (n / WORD) + n % WORD == 2 * (0x8000_0000_0000_0000 * (n / WORD)) + n % WORD;
  }

  /** writeUnlockObsolete opens the latch and marks it. */
  lemma ObsoleteAlone(tr: seq<State>, w: Id) returns (longer: seq<State>)
    requires At(tr, w, Held) && !Last(tr).obsolete
    ensures To(tr, longer, w, Out, 3) && Last(longer).owner == None && Last(longer).obsolete
  {
    longer := Extend(tr, w, WriteUnlockObsolete);
  }

  lemma ObsoleteBit(s: State)
    requires Inv(s)
    ensures s.word % 2 == 1 <==> s.obsolete
  {
    var n, rest := s.count, (if s.owner.Some? then 2 else 0) + (if s.obsolete then 1 else 0);
    BitZero(n);
    Mod4Keeps(n);
    assert n % 4 == rest;
  }

  /** Bit 0 of the word is the mark, in every reachable state. */
  lemma ObsoleteBitIsExact(tr: seq<State>, j: nat)
    requires Run(tr) && j < |tr|
    ensures tr[j].word % 2 == 1 <==> tr[j].obsolete
  {
    RunInv(tr, j);
    ObsoleteBit(tr[j]);
  }

  // ---- the bound is sharp -----------------------------------------------------------------------------------

  /** Nobody is inside, thread 0 is outside, and thread 1 keeps a reference to the first word. */
  ghost predicate Waiting(s: State, count: nat) {
    Inv(s) && s.owner == None && s.count == count && s.th == map[0 := Out, 1 := Optimistic(HL.Ref(4, 4))]
  }

  lemma {:induction false} Cycles(tr: seq<State>, n: nat) returns (longer: seq<State>)
    requires Run(tr) && Waiting(Last(tr), Last(tr).count)
    ensures Run(longer) && tr <= longer && Waiting(Last(longer), Last(tr).count + 4 * n)
  {
    longer := tr;
    if n > 0 {
      longer := Cycles(longer, n - 1);
      longer := LatchAlone(longer, 0);
      longer := UnlatchAlone(longer, 0);
    }
  }

  lemma FirstReference() returns (tr: seq<State>)
    ensures Run(tr) && |tr| == 2 && Waiting(Last(tr), 4)
  {
    tr := [State(4, None, false, map[0 := Out, 1 := Out], 4)];
    assert !HL.IsLatched(4);
    tr := Extend(tr, 1, LatchOptimistic);
  }

  /** After exactly 2^62 latch cycles the word of state 1 has returned at `j`, and thread 1's upgrade succeeds although
      thread 0 was inside at `k`. */
  lemma WordReturns() returns (tr: seq<State>, k: nat, j: nat)
    ensures Run(tr) && 1 <= k <= j < |tr| && !HL.IsLatched(tr[1].word) && tr[j].word == tr[1].word
    ensures Enabled(tr[j], 1, Upgrade) && tr[j].th[1].start == HL.Ref(tr[1].word, tr[1].count)
    ensures tr[j].count - tr[1].count == WORD && Succeeds(tr[j], 1)
    ensures 0 in tr[k].th && Inside(tr[k].th[0])
  {
    tr := FirstReference();
    tr := LatchAlone(tr, 0);
    k := |tr| - 1;
    var start := tr;
    tr := UnlatchAlone(tr, 0);
    tr := Cycles(tr, WORD / 4 - 1);
    j := |tr| - 1;
    assert tr[j].count == 4 + WORD && tr[j].word == 4;
    assert tr[k] == start[k];
  }
}
