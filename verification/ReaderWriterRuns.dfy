/** What the reader/writer lock promises over whole runs: it refines atomic counters, its lock word counts
    writers and readers, and updates are conserved. */
module ReaderWriterRuns {
  import opened Words
  import opened ReaderWriterLock

  lemma {:induction false} RunInv(cfg: Config, tr: seq<State>, j: nat)
    requires Run(cfg, tr) && j < |tr|
    ensures Inv(cfg, tr[j])
  {
    if j == 0 {
      InitInv(cfg, tr[0]);
    } else {
      RunInv(cfg, tr, j - 1);
      assert StepAt(cfg, tr, j - 1);
      NextKeepsInv(cfg, tr[j - 1], tr[j]);
    }
  }

  // ---- refinement of atomic counters ------------------------------------------------------------------------

  datatype Event = Silent | ReadCounter(t: nat, v: Word) | Increment(t: nat)

  ghost function Counters(s: State): seq<nat> {
    seq(|s.mem|, t requires 0 <= t < |s.mem| => s.mem[t].val)
  }

  /** The abstract machine: one unbounded counter per tuple, read modulo 2^64. */
  ghost predicate CounterStep(m: seq<nat>, e: Event, m': seq<nat>) {
    match e
    case Silent => m' == m
    case ReadCounter(t, v) => t < |m| && m' == m && v == m[t] % WORD
    case Increment(t) => t < |m| && m' == m[t := m[t] + 1]
  }

  /** A read happens when the checked copy is released, an increment when the CAS succeeds. Both steps belong to
      the operation itself, also when its release is left in the send queue. */
  ghost function EventOf(cfg: Config, s: State, w: Id, a: Action): Event
    requires Shaped(cfg, s) && Enabled(cfg, s, w, a)
  {
    var x := s.ws[w];
    if a.ReleaseShared? then ReadCounter(x.pc.t, x.buf[1])
    else if a.ExecCas? && s.mem[x.pc.t].lock == 0 then Increment(x.pc.t)
    else Silent
  }

  lemma OtherStepsKeepCounters(cfg: Config, s: State, w: Id, a: Action)
    requires Shaped(cfg, s) && Enabled(cfg, s, w, a) && !a.ExecCas?
    ensures Counters(Apply(cfg, s, w, a)) == Counters(s)
  {
  }

  /** Every flag combination refines the atomic counters, step by step. The reader's check of its copy, which
      would throw on two different words, passes. */
  lemma StepRefinesCounters(cfg: Config, s: State, w: Id, a: Action)
    requires Inv(cfg, s) && Enabled(cfg, s, w, a)
    ensures CounterStep(Counters(s), EventOf(cfg, s, w, a), Counters(Apply(cfg, s, w, a)))
    ensures a.ReleaseShared? ==> AllAre(s.ws[w].buf[1..], s.ws[w].buf[1])
  {
    if a.ExecCas? {
      assert Counters(CasStep(cfg, s, w)) ==
        var t := s.ws[w].pc.t;
        if s.mem[t].lock == 0 then Counters(s)[t := s.mem[t].val + 1] else Counters(s);
    } else {
      OtherStepsKeepCounters(cfg, s, w, a);
    }
    if a.ReleaseShared? {
      assert WorkerOk(cfg, s, w);
      assert s.ws[w].buf[1] == s.ws[w].buf[1..][0];
    }
  }

  /** `e` is the event of some worker's step from `s` to `s'`. */
  ghost predicate Emits(cfg: Config, s: State, e: Event, s': State) {
    exists w, a :: StepBy(cfg, s, w, a, s') && e == EventOf(cfg, s, w, a)
  }

  lemma NextRefinesCounters(cfg: Config, s: State, s': State) returns (e: Event)
    requires Inv(cfg, s) && Next(cfg, s, s')
    ensures Emits(cfg, s, e, s') && CounterStep(Counters(s), e, Counters(s'))
  {
    var w, a :| StepBy(cfg, s, w, a, s');
    StepRefinesCounters(cfg, s, w, a);
    e := EventOf(cfg, s, w, a);
  }

  ghost predicate EventAt(cfg: Config, tr: seq<State>, events: seq<Event>, i: nat)
    requires i < |events| < |tr|
  {
    && Emits(cfg, tr[i], events[i], tr[i + 1])
    && CounterStep(Counters(tr[i]), events[i], Counters(tr[i + 1]))
  }

  lemma {:induction false} PrefixRefinesCounters(cfg: Config, tr: seq<State>, n: nat) returns (events: seq<Event>)
    requires Run(cfg, tr) && n < |tr|
    ensures |events| == n
    ensures forall i :: 0 <= i < n ==> EventAt(cfg, tr, events, i)
  {
    if n == 0 {
      events := [];
    } else {
      var before := PrefixRefinesCounters(cfg, tr, n - 1);
      RunInv(cfg, tr, n - 1);
      assert StepAt(cfg, tr, n - 1);
      var e := NextRefinesCounters(cfg, tr[n - 1], tr[n]);
      events := before + [e];
      forall i | 0 <= i < n ensures EventAt(cfg, tr, events, i) {
        if i < n - 1 { assert EventAt(cfg, tr, before, i); }
      }
    }
  }

  /** A run of the lock is a run of the counters, which start at zero. */
  lemma RunRefinesCounters(cfg: Config, tr: seq<State>) returns (events: seq<Event>)
    requires Run(cfg, tr)
    ensures |events| == |tr| - 1
    ensures Counters(tr[0]) == seq(cfg.tuples, _ => 0)
    ensures forall i :: 0 <= i < |events| ==> EventAt(cfg, tr, events, i)
  {
    events := PrefixRefinesCounters(cfg, tr, |tr| - 1);
  }

  /** The lock word in every reachable state: 2^60 X + R, with X = 1 exactly while a worker is between its
      successful CAS and its release, and R the number of registered shared attempts. A writer excludes every
      admitted reader and every other writer. */
  lemma LockWordInRuns(cfg: Config, tr: seq<State>, j: nat, t: nat)
    requires Run(cfg, tr) && j < |tr| && t < cfg.tuples
    ensures Shaped(cfg, tr[j])
    ensures forall w <- tr[j].ws :: w in tr[j].mem[t].readers <==> Shares(cfg, tr[j].ws[w], t)
    ensures tr[j].mem[t].readers <= tr[j].ws.Keys
    ensures tr[j].mem[t].owner.Some? <==> exists w :: w in tr[j].ws && Owns(cfg, tr[j].ws[w], t)
    ensures tr[j].mem[t].lock ==
      (if tr[j].mem[t].owner.Some? then EXCLUSIVE_LOCKED else 0) + |tr[j].mem[t].readers|
    ensures forall u, w :: u in tr[j].ws && w in tr[j].ws && Owns(cfg, tr[j].ws[u], t) ==>
      At(cfg, tr[j].ws[w], t) != Reader && LateAt(tr[j].ws[w], t) != Reader &&
      (Owns(cfg, tr[j].ws[w], t) ==> u == w)
  {
    RunInv(cfg, tr, j);
    var s := tr[j];
    LockWord(cfg, s, t);
    assert CellOk(cfg, s, t);
    forall w | w in s.ws
      ensures RolesOf(cfg, s.ws[w], w, t, s.mem[t]) && Knows(cfg, s.ws[w], s.mem)
    {
      assert WorkerOk(cfg, s, w);
      assert RolesOf(cfg, s.ws[w], w, t, s.mem[t]);
    }
    if s.mem[t].owner.Some? {
      assert RolesOf(cfg, s.ws[s.mem[t].owner.value], s.mem[t].owner.value, t, s.mem[t]);
    }
  }

  // ---- conservation -----------------------------------------------------------------------------------------

  ghost predicate Drained(s: State) {
    forall w <- s.ws :: s.ws[w].pc == Idle && s.ws[w].late == Nothing
  }

  /** The first payload word of every tuple, added up without wrap-around. */
  ghost function FirstWords(mem: seq<seq<Word>>): nat
    requires forall t :: 0 <= t < |mem| ==> |mem[t]| >= 1
  {
    if mem == [] then 0 else FirstWords(mem[..|mem| - 1]) + mem[|mem| - 1][0]
  }

  ghost function Payloads(s: State): seq<seq<Word>> {
    seq(|s.mem|, t requires 0 <= t < |s.mem| => s.mem[t].data)
  }

  lemma {:induction false} FirstWordsAreTotal(mem: seq<Cell>, data: seq<seq<Word>>)
    requires |data| == |mem|
    requires forall t :: 0 <= t < |mem| ==> data[t] == mem[t].data && |data[t]| >= 1 && data[t][0] == mem[t].val % WORD
    ensures FirstWords(data) % WORD == Total(mem) % WORD
  {
    if mem != [] {
      var n := |mem| - 1;
      FirstWordsAreTotal(mem[..n], data[..n]);
      SumMod(FirstWords(data[..n]), Total(mem[..n]), mem[n].val);
    }
  }

  /** Once all queues are empty every lock word is 0, all payload words of each tuple agree, and the first words
      of the tuples add up to the number of updates, modulo 2^64. */
  lemma ConservationAtDrain(cfg: Config, tr: seq<State>, j: nat)
    requires Run(cfg, tr) && j < |tr| && Drained(tr[j])
    ensures Shaped(cfg, tr[j])
    ensures forall t :: 0 <= t < cfg.tuples ==> tr[j].mem[t].lock == 0
    ensures forall t :: 0 <= t < cfg.tuples ==> AllAre(tr[j].mem[t].data, tr[j].mem[t].data[0])
    ensures FirstWords(Payloads(tr[j])) % WORD == tr[j].updates % WORD
  {
    RunInv(cfg, tr, j);
    var s := tr[j];
    forall t | 0 <= t < cfg.tuples
      ensures s.mem[t].owner == None && s.mem[t].readers == {} && s.mem[t].lock == 0
      ensures AllAre(s.mem[t].data, s.mem[t].val % WORD)
    {
      LockWordInRuns(cfg, tr, j, t);
      assert CellOk(cfg, s, t);
    }
    forall w | w in s.ws ensures w !in s.uncounted {
      assert WorkerOk(cfg, s, w);
    }
    assert s.uncounted == {};
    FirstWordsAreTotal(s.mem, Payloads(s));
  }

  /** The reader's loop and the storage node's inner loop: false stands for the throw. */
  method AllEqualFromFirst(words: seq<Word>) returns (ok: bool)
    requires |words| >= 2
    ensures ok <==> AllAre(words[1..], words[1])
  {
    var prev := words[1];
    for i := 1 to |words|
      invariant prev == words[1]
      invariant forall k :: 1 <= k < i ==> words[k] == words[1]
    {
      if prev != words[i] {
        assert words[1..][i - 1] != words[1];
        return false;
      }
      prev := words[i];
    }
    return true;
  }

  /** The storage node's consistency check over all tuples, each given as lock word and payload. */
  method Aggregate(tuples: seq<seq<Word>>) returns (ok: bool, count: Word)
    requires forall t :: 0 <= t < |tuples| ==> |tuples[t]| >= 2
    ensures ok <==> forall t :: 0 <= t < |tuples| ==> AllAre(tuples[t][1..], tuples[t][1])
    ensures ok ==> count == FirstWords(seq(|tuples|, t requires 0 <= t < |tuples| => tuples[t][1..])) % WORD
  {
    count := 0;
    ghost var data := seq(|tuples|, t requires 0 <= t < |tuples| => tuples[t][1..]);
    for t := 0 to |tuples|
      invariant forall k :: 0 <= k < t ==> AllAre(tuples[k][1..], tuples[k][1])
      invariant count == FirstWords(data[..t]) % WORD
    {
      count := Plus(count, tuples[t][1]);
      assert data[..t + 1][..t] == data[..t];
      ok := AllEqualFromFirst(tuples[t]);
      if !ok {
        return;
      }
    }
    assert data[..|tuples|] == data;
    ok := true;
  }

  // ---- layout -----------------------------------------------------------------------------------------------

  /** Byte address of tuple `id`: one line for the barrier, then tuples and paddings. */
  function TupleAddress(start: nat, size: nat, padding: nat, id: nat): nat {
    start + 64 + id * size + id * padding
  }

  /** The extents of different tuples are disjoint and none reaches the barrier line, for every padding. */
  lemma DisjointExtents(start: nat, size: nat, padding: nat, i: nat, j: nat)
    requires i < j
    ensures start + 64 <= TupleAddress(start, size, padding, i)
    ensures TupleAddress(start, size, padding, i) + size <= TupleAddress(start, size, padding, j)
  {
    var d: nat := j - i - 1;
    assert j * size == i * size + size + d * size;
    assert j * padding == i * padding + padding + d * padding;
  }
}
