/** Any number of tuples under the tail lock of frontend/locking_benchmark_tail.cpp, and the storage node's check. */
module TailRuns {
  import opened Words
  import TL = TailLock

  /** `updates` is what the workers count; a worker is at one tuple at a time. */
  datatype State = State(tuples: seq<TL.State>, updates: nat)

  ghost predicate Init(cfg: TL.Config, s: State) {
    && s.updates == 0
    && (forall t :: 0 <= t < |s.tuples| ==> TL.Init(s.tuples[t]))
  }

  ghost predicate StepBy(cfg: TL.Config, s: State, t: nat, w: TL.Id, a: TL.Action, s': State) {
    && t < |s.tuples| == |s'.tuples| && TL.StepBy(cfg, s.tuples[t], w, a, s'.tuples[t])
    && (a.StartShared? || a.StartExclusive? ==> forall k :: 0 <= k < |s.tuples| ==> IsIdle(s.tuples[k], w))
    && s' == State(s.tuples[t := s'.tuples[t]], s.updates + if a.ExecRelease? then 1 else 0)
  }

  ghost predicate IsIdle(s: TL.State, w: TL.Id) {
    w in s.ws ==> s.ws[w].pc == TL.Idle
  }

  /** A worker can do at a tuple whatever the single tuple allows; only to start must it be idle at all of them. */
  lemma StepsExactly(cfg: TL.Config, s: State, t: nat, w: TL.Id, a: TL.Action)
    requires t < |s.tuples| && TL.Shaped(s.tuples[t])
    ensures (exists s' :: StepBy(cfg, s, t, w, a, s')) <==>
      && TL.Enabled(cfg, s.tuples[t], w, a)
      && (a.StartShared? || a.StartExclusive? ==> forall k :: 0 <= k < |s.tuples| ==> IsIdle(s.tuples[k], w))
  {
    if TL.Enabled(cfg, s.tuples[t], w, a) {
      var x := TL.Apply(cfg, s.tuples[t], w, a);
      var s' := State(s.tuples[t := x], s.updates + if a.ExecRelease? then 1 else 0);
      assert s'.tuples[t] == x;
      assert (a.StartShared? || a.StartExclusive? ==> forall k :: 0 <= k < |s.tuples| ==> IsIdle(s.tuples[k], w)) ==>
        StepBy(cfg, s, t, w, a, s');
    }
  }

  ghost predicate Next(cfg: TL.Config, s: State, s': State) {
    exists t: nat, w: TL.Id, a: TL.Action :: StepBy(cfg, s, t, w, a, s')
  }

  ghost predicate StepAt(cfg: TL.Config, tr: seq<State>, i: nat)
    requires i + 1 < |tr|
  {
    Next(cfg, tr[i], tr[i + 1])
  }

  ghost predicate Run(cfg: TL.Config, tr: seq<State>) {
    && |tr| >= 1 && Init(cfg, tr[0])
    && (forall i :: 0 <= i < |tr| - 1 ==> StepAt(cfg, tr, i))
  }

  /** All counters added up. */
  ghost function Total(tuples: seq<TL.State>): nat {
    if tuples == [] then 0 else Total(tuples[..|tuples| - 1]) + tuples[|tuples| - 1].val
  }

  lemma {:induction false} TotalUpdate(tuples: seq<TL.State>, t: nat, x: TL.State)
    requires t < |tuples|
    ensures Total(tuples[t := x]) == Total(tuples) + x.val - tuples[t].val
  {
    var n := |tuples| - 1;
    if t == n {
      assert tuples[t := x][..n] == tuples[..n];
    } else {
      assert tuples[t := x][..n] == tuples[..n][t := x];
      TotalUpdate(tuples[..n], t, x);
    }
  }

  lemma {:induction false} TotalZero(tuples: seq<TL.State>)
    requires forall t :: 0 <= t < |tuples| ==> tuples[t].val == 0
    ensures Total(tuples) == 0
  {
    if tuples != [] {
      TotalZero(tuples[..|tuples| - 1]);
    }
  }

  ghost predicate Inv(cfg: TL.Config, s: State) {
    && s.updates == Total(s.tuples)
    && (forall t :: 0 <= t < |s.tuples| ==> TL.Inv(cfg, s.tuples[t]))
  }

  lemma StepKeepsInv(cfg: TL.Config, s: State, t: nat, w: TL.Id, a: TL.Action, s': State)
    requires Inv(cfg, s) && StepBy(cfg, s, t, w, a, s')
    ensures Inv(cfg, s')
  {
    TL.StepKeepsInv(cfg, s.tuples[t], w, a);
    TL.StepRefinesCounter(cfg, s.tuples[t], w, a);
    TotalUpdate(s.tuples, t, s'.tuples[t]);
  }

  lemma NextKeepsInv(cfg: TL.Config, s: State, s': State)
    requires Inv(cfg, s) && Next(cfg, s, s')
    ensures Inv(cfg, s')
  {
    var t: nat, w: TL.Id, a: TL.Action :| StepBy(cfg, s, t, w, a, s');
    StepKeepsInv(cfg, s, t, w, a, s');
  }

  lemma {:induction false} RunInv(cfg: TL.Config, tr: seq<State>, j: nat)
    requires Run(cfg, tr) && j < |tr|
    ensures Inv(cfg, tr[j])
  {
    if j == 0 {
      TotalZero(tr[0].tuples);
      forall t | 0 <= t < |tr[0].tuples| ensures TL.Inv(cfg, tr[0].tuples[t]) {
        TL.RunInv(cfg, [tr[0].tuples[t]], 0);
      }
    } else {
      RunInv(cfg, tr, j - 1);
      assert StepAt(cfg, tr, j - 1);
      NextKeepsInv(cfg, tr[j - 1], tr[j]);
    }
  }

  ghost predicate Drained(s: State) {
    forall t :: 0 <= t < |s.tuples| ==> forall w <- s.tuples[t].ws :: IsIdle(s.tuples[t], w)
  }

  /** The second word of every tuple, which the storage node counts, added up without wrap-around. */
  ghost function SecondWords(tuples: seq<seq<Word>>): nat
    requires forall t :: 0 <= t < |tuples| ==> |tuples[t]| >= 2
  {
    if tuples == [] then 0 else SecondWords(tuples[..|tuples| - 1]) + tuples[|tuples| - 1][1]
  }

  ghost function Payloads(s: State): seq<seq<Word>> {
    seq(|s.tuples|, t requires 0 <= t < |s.tuples| => s.tuples[t].data)
  }

  lemma {:induction false} SecondWordsAreTotal(tuples: seq<TL.State>, data: seq<seq<Word>>)
    requires |data| == |tuples|
    requires forall t :: 0 <= t < |tuples| ==> |data[t]| >= 2 && data[t][1] == tuples[t].val % WORD
    ensures SecondWords(data) % WORD == Total(tuples) % WORD
  {
    if tuples != [] {
      var n := |tuples| - 1;
      SecondWordsAreTotal(tuples[..n], data[..n]);
      SumMod(SecondWords(data[..n]), Total(tuples[..n]), tuples[n].val);
    }
  }

  lemma IdleTuple(cfg: TL.Config, s: TL.State)
    requires TL.Inv(cfg, s) && forall w <- s.ws :: IsIdle(s, w)
    ensures s.lock == 0 && TL.AllAre(s.data, s.val % WORD)
  {
    forall w | w in s.ws ensures w !in s.admitted && s.owner != Some(w) {
      assert TL.WorkerOk(cfg, s, w) && IsIdle(s, w);
    }
    assert s.admitted == {};
    TL.LockWord(cfg, s);
  }

  /** Once every operation is over, every lock word is 0, all payload words of each tuple agree, and the words that the
      storage node adds up are the number of updates, modulo 2^64. */
  lemma ConservationAtDrain(cfg: TL.Config, tr: seq<State>, j: nat)
    requires Run(cfg, tr) && j < |tr| && Drained(tr[j])
    ensures forall t :: 0 <= t < |tr[j].tuples| ==>
      && tr[j].tuples[t].lock == 0 && |tr[j].tuples[t].data| == TL.LOCK
      && TL.AllAre(tr[j].tuples[t].data, tr[j].tuples[t].data[0])
    ensures SecondWords(Payloads(tr[j])) % WORD == tr[j].updates % WORD
  {
    RunInv(cfg, tr, j);
    var s := tr[j];
    forall t | 0 <= t < |s.tuples|
      ensures s.tuples[t].lock == 0 && TL.AllAre(s.tuples[t].data, s.tuples[t].val % WORD)
    {
      IdleTuple(cfg, s.tuples[t]);
    }
    SecondWordsAreTotal(s.tuples, Payloads(s));
  }

  /** The reader's loop and the storage node's inner loop: false stands for the throw. */
  method PayloadAgrees(words: seq<Word>) returns (ok: bool)
    requires |words| == TL.LOCK + 1
    ensures ok <==> TL.AllAre(words[..TL.LOCK], words[0])
  {
    var prev := words[0];
    for i := 0 to TL.LOCK
      invariant prev == words[0]
      invariant forall k :: 0 <= k < i ==> words[k] == words[0]
    {
      if prev != words[i] {
        assert words[..TL.LOCK][i] != words[0];
        return false;
      }
      prev := words[i];
    }
    return true;
  }

  /** The storage node's check over all tuples, lock words included. */
  method Aggregate(tuples: seq<seq<Word>>) returns (ok: bool, count: Word)
    requires forall t :: 0 <= t < |tuples| ==> |tuples[t]| == TL.LOCK + 1
    ensures ok <==> forall t :: 0 <= t < |tuples| ==> TL.AllAre(tuples[t][..TL.LOCK], tuples[t][0])
    ensures ok ==> count == SecondWords(tuples) % WORD
  {
    count := 0;
    for t := 0 to |tuples|
      invariant forall k :: 0 <= k < t ==> TL.AllAre(tuples[k][..TL.LOCK], tuples[k][0])
      invariant count == SecondWords(tuples[..t]) % WORD
    {
      count := Plus(count, tuples[t][1]);
      assert tuples[..t + 1][..t] == tuples[..t];
      ok := PayloadAgrees(tuples[t]);
      if !ok {
        return;
      }
    }
    assert tuples[..|tuples|] == tuples;
    ok := true;
  }
}
