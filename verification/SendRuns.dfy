/** Runs of the worker that show where a promise ends: rcopt's readers check data that has not arrived. They give the
    exact condition under which data arrives in every run. */
module SendRuns {
  import opened Words
  import opened SendScripts
  import opened SendQueue

  ghost function Last(tr: seq<State>): State
    requires |tr| >= 1
  {
    tr[|tr| - 1]
  }

  /** One more step of a run. */
  lemma Extend(cfg: Config, tr: seq<State>, a: Action) returns (longer: seq<State>)
    requires Trace(cfg, tr) && Shaped(cfg, Last(tr)) && Enabled(cfg, Last(tr), a)
    ensures Trace(cfg, longer) && longer == tr + [Apply(cfg, Last(tr), a)]
    ensures Shaped(cfg, Last(longer))
  {
    longer := tr + [Apply(cfg, Last(tr), a)];
    assert StepBy(cfg, Last(tr), a, Last(longer));
    forall i | 0 <= i < |longer| - 1
      ensures StepAt(cfg, longer, i)
    {
      if i < |tr| - 1 {
        assert StepAt(cfg, tr, i);
      } else {
        assert Next(cfg, longer[i], longer[i + 1]);
      }
    }
    TraceInv(cfg, longer, |longer| - 1);
  }

  /** A copy with version `v` and zeros elsewhere. */
  ghost function Copy(cfg: Config, v: Word): Bytes {
    seq(cfg.Size(), i => if i == cfg.Size() - 2 then v else 0)
  }

  /** The worker at the beginning. */
  lemma Start(cfg: Config) returns (tr: seq<State>)
    requires cfg.Valid()
    ensures Trace(cfg, tr)
    ensures Last(tr) ==
      State(None, 0, 0, 0, seq(cfg.Queues(), _ => Queue([], 0, 0)), seq(cfg.buffers, _ => Copy(cfg, 0)), 0)
  {
    tr := [State(None, 0, 0, 0, seq(cfg.Queues(), _ => Queue([], 0, 0)), seq(cfg.buffers, _ => Copy(cfg, 0)), 0)];
  }

  /** The script of a reader with two queues: READs, two polls for half of them each, the check. */
  lemma TwoQueuesScript(cfg: Config)
    requires cfg.Valid() && cfg.protocol.RcTwoQueues? && cfg.batch > 1
    ensures var sc, m := Script(cfg, Reader(0)), 2 * cfg.batch;
            && |sc| == m + 3 && sc[m] == Poll(0, cfg.batch / 2, RC_BATCH_SIZE)
            && sc[m + 1] == Poll(1, cfg.batch / 2, RC_BATCH_SIZE) && sc[m + 2] == Throw
            && sc[0] == Post(0, ReadTuple, false) && sc[1] == Post(1, ReadTuple, false)
            && (forall k :: 0 <= k < m ==> sc[k].Post? && sc[k].q <= 1)
  {
    var n := cfg.batch;
    RcTwoQueuesReads(n, 0);
    Alternates(0, ReadTuple, false, n, 0);
    var body := Alternate(0, ReadTuple, false, n) + Alternate(1, ReadVersion, true, n);
    var sc := Script(cfg, Reader(0));
    assert sc[0] == body[0] == Alternate(0, ReadTuple, false, n)[0];
    assert sc[1] == body[1] == Alternate(0, ReadTuple, false, n)[1];
    assert forall k :: 0 <= k < 2 * n ==> sc[k] == body[k];
  }

  /** `x` with more requests posted. */
  ghost predicate More(x: Queue, y: Queue) {
    y.done == x.done && y.polled == x.polled && |x.log| <= |y.log| && y.log[..|x.log|] == x.log
  }

  /** A reader has posted the first `k` of its READs since the queues were `qs`; the second is for the tuple. */
  ghost predicate Posting(cfg: Config, s: State, qs: seq<Queue>, k: nat) {
    && Shaped(cfg, s) && s.op == Some(Reader(0)) && s.pc == k && s.tot == 0 && |qs| == 2 && cfg.Odd()
    && More(qs[0], s.qs[0]) && More(qs[1], s.qs[1])
    && (if k < 2 then |s.qs[1].log| == |qs[1].log|
        else |s.qs[1].log| > |qs[1].log| && s.qs[1].log[|qs[1].log|].verb.ReadTuple?)
  }

  lemma PostOne(cfg: Config, tr: seq<State>, qs: seq<Queue>, k: nat) returns (longer: seq<State>)
    requires Trace(cfg, tr) && Posting(cfg, Last(tr), qs, k) && k < 2 * cfg.batch
    ensures Trace(cfg, longer) && Posting(cfg, Last(longer), qs, k + 1) && Last(longer).attempts == Last(tr).attempts
  {
    TwoQueuesScript(cfg);
    longer := Extend(cfg, tr, Run([]));
  }

  lemma {:induction false} PostReads(cfg: Config, tr: seq<State>, qs: seq<Queue>, k: nat) returns (longer: seq<State>)
    requires Trace(cfg, tr) && Posting(cfg, Last(tr), qs, k) && k <= 2 * cfg.batch
    ensures Trace(cfg, longer) && Posting(cfg, Last(longer), qs, 2 * cfg.batch)
    ensures Last(longer).attempts == Last(tr).attempts
    decreases 2 * cfg.batch - k
  {
    longer := tr;
    if k < 2 * cfg.batch {
      longer := PostOne(cfg, longer, qs, k);
      longer := PostReads(cfg, longer, qs, k + 1);
    }
  }

  /** The card completes everything on queue `q`. */
  lemma {:induction false} Complete(cfg: Config, tr: seq<State>, q: nat) returns (longer: seq<State>)
    requires Trace(cfg, tr) && Shaped(cfg, Last(tr)) && q < |Last(tr).qs|
    ensures Trace(cfg, longer) && Shaped(cfg, Last(longer))
    ensures var s := Last(tr); Last(longer) == s.(qs := s.qs[q := s.qs[q].(done := |s.qs[q].log|)])
    ensures tr <= longer
    decreases |Last(tr).qs[q].log| - Last(tr).qs[q].done
  {
    longer := tr;
    var x := Last(tr).qs[q];
    assert QueueShaped(cfg, x);
    if x.done < |x.log| {
      longer := Extend(cfg, longer, CardDone(q));
      longer := Complete(cfg, longer, q);
    } else {
      var s := Last(tr);
      assert s == s.(qs := s.qs[q := x.(done := |x.log|)]);
    }
  }

  /** A poll whose completions are there. */
  lemma PollAtOnce(cfg: Config, tr: seq<State>, q: nat) returns (longer: seq<State>)
    requires Trace(cfg, tr) && Shaped(cfg, Last(tr)) && q < |Last(tr).qs|
    requires AtPoll(cfg, Last(tr), q) && Last(tr).tot == 0
    requires var s := Last(tr); var poll := Current(cfg, s)[s.pc];
             1 <= poll.expected <= Signaled(s.qs[q].log, s.qs[q].done) - s.qs[q].polled
    ensures Trace(cfg, longer) && Shaped(cfg, Last(longer))
    ensures var s := Last(tr); var poll := Current(cfg, s)[s.pc];
            Last(longer) ==
              s.(qs := s.qs[q := s.qs[q].(polled := s.qs[q].polled + poll.expected)], pc := s.pc + 1, tot := 0)
  {
    var s := Last(tr);
    assert QueueShaped(cfg, s.qs[q]);
    longer := Extend(cfg, tr, Reap(Current(cfg, s)[s.pc].expected));
  }

  /** A poll that the card has served completely. */
  lemma PollServed(cfg: Config, tr: seq<State>, q: nat) returns (longer: seq<State>)
    requires Trace(cfg, tr) && Shaped(cfg, Last(tr)) && q < |Last(tr).qs|
    requires AtPoll(cfg, Last(tr), q) && Last(tr).tot == 0
    requires Last(tr).qs[q].done == |Last(tr).qs[q].log|
    ensures Trace(cfg, longer) && Shaped(cfg, Last(longer))
    ensures var s := Last(tr); var poll := Current(cfg, s)[s.pc];
            Last(longer) ==
              s.(qs := s.qs[q := s.qs[q].(polled := s.qs[q].polled + poll.expected)], pc := s.pc + 1, tot := 0)
  {
    PollsAreBounded(cfg, tr, |tr| - 1, q);
    longer := PollAtOnce(cfg, tr, q);
  }

  /** The card may store for the oldest request of a queue if it is a READ of the tuple, may complete whatever is the
      oldest, and a poll may get any part of the completions that are there and wanted. */
  lemma CardAndPolls(cfg: Config, s: State, q: nat, n: nat, bytes: Bytes)
    requires Shaped(cfg, s) && q < |s.qs| && |bytes| == cfg.Size()
    ensures Enabled(cfg, s, CardDone(q)) <==> s.qs[q].done < |s.qs[q].log|
    ensures Enabled(cfg, s, CardStore(q, bytes)) <==> Late(s.qs[q])
    ensures AtPoll(cfg, s, q) ==>
      (Enabled(cfg, s, Reap(n)) <==>
        && 1 <= n <= Current(cfg, s)[s.pc].expected - s.tot
        && n <= Signaled(s.qs[q].log, s.qs[q].done) - s.qs[q].polled)
  {
    assert QueueShaped(cfg, s.qs[q]);
  }

  /** Every poll in progress can end. */
  lemma PollEnds(cfg: Config, tr: seq<State>, q: nat) returns (longer: seq<State>)
    requires Trace(cfg, tr) && Shaped(cfg, Last(tr)) && q < |Last(tr).qs| && AtPoll(cfg, Last(tr), q)
    ensures Trace(cfg, longer) && tr < longer && Shaped(cfg, Last(longer))
    ensures var s, s' := Last(tr), Last(longer);
      s'.op == s.op && s'.pc == s.pc + 1 && s'.cur == s.cur && s'.attempts == s.attempts
  {
    longer := Complete(cfg, tr, q);
    PollsAreBounded(cfg, longer, |longer| - 1, q);
    var s := Last(longer);
    assert QueueShaped(cfg, s.qs[q]);
    longer := Extend(cfg, longer, Reap(Current(cfg, s)[s.pc].expected - s.tot));
  }

  /** Every other instruction can run. */
  lemma InstrRuns(cfg: Config, tr: seq<State>) returns (longer: seq<State>)
    requires Trace(cfg, tr) && Shaped(cfg, Last(tr)) && Running(cfg, Last(tr))
    requires !Current(cfg, Last(tr))[Last(tr).pc].Poll?
    ensures Trace(cfg, longer) && tr < longer && Shaped(cfg, Last(longer))
    ensures var s, s' := Last(tr), Last(longer);
      s'.op == s.op && s'.pc == s.pc + 1 && s'.cur == s.cur && s'.attempts == s.attempts
  {
    var s := Last(tr);
    Discipline(cfg, s.op.value);
    assert Fits(cfg, s.op.value, Script(cfg, s.op.value), s.pc);
    longer := Extend(cfg, tr, Run(Copy(cfg, 0)));
  }

  /** From every reachable state, the operation in progress can run to its end: no script waits for a completion that
      will not come. */
  lemma {:induction false} OperationReturns(cfg: Config, tr: seq<State>) returns (longer: seq<State>)
    requires Trace(cfg, tr) && Shaped(cfg, Last(tr)) && Last(tr).op.Some?
    ensures Trace(cfg, longer) && tr < longer && Last(longer).op == None
    ensures Last(longer).cur == NextBuffer(cfg, Last(tr).cur) && Last(longer).attempts == Attempted(Last(tr))
    decreases |Current(cfg, Last(tr))| - Last(tr).pc
  {
    var s := Last(tr);
    if s.pc == |Current(cfg, s)| {
      longer := Extend(cfg, tr, Return);
    } else {
      if Current(cfg, s)[s.pc].Poll? {
        Discipline(cfg, s.op.value);
        assert Fits(cfg, s.op.value, Script(cfg, s.op.value), s.pc);
        longer := PollEnds(cfg, tr, Current(cfg, s)[s.pc].q);
      } else {
        longer := InstrRuns(cfg, tr);
      }
      longer := OperationReturns(cfg, longer);
    }
  }

  /** The oldest pending request is a READ of the tuple. */
  predicate Late(x: Queue) {
    x.done < |x.log| && x.log[x.done].verb.ReadTuple?
  }

  /** The last check of the reader's script. */
  ghost predicate AtLastCheck(cfg: Config, s: State) {
    s.op.Some? && s.op.value.Reader? && s.pc + 1 == |Current(cfg, s)| && Current(cfg, s)[s.pc].Throw?
  }

  /** Between two operations. */
  ghost predicate Outside(cfg: Config, tr: seq<State>) {
    Trace(cfg, tr) && Shaped(cfg, Last(tr)) && Last(tr).op.None? && Last(tr).pc == 0 == Last(tr).tot
  }

  /** The check is passed and `unlock` returns. */
  lemma Leave(cfg: Config, tr: seq<State>) returns (longer: seq<State>)
    requires Trace(cfg, tr) && Shaped(cfg, Last(tr)) && AtLastCheck(cfg, Last(tr)) && Last(tr).tot == 0
    ensures Outside(cfg, longer) && Last(longer).qs == Last(tr).qs
  {
    longer := Extend(cfg, tr, Run([]));
    longer := Extend(cfg, longer, Return);
  }

  /** rcopt with batch 1 puts the data READ on one queue and the READ of the version on the other. */
  lemma SingleReads(cfg: Config, tr: seq<State>, opnum: nat) returns (longer: seq<State>)
    requires Outside(cfg, tr) && cfg.protocol.RcTwoQueues? && cfg.batch == 1
    requires Last(tr).qs[opnum % 2].done == |Last(tr).qs[opnum % 2].log|
    ensures Trace(cfg, longer) && Shaped(cfg, Last(longer))
    ensures Last(longer).op == Some(Reader(opnum)) && Last(longer).pc == 2 && Last(longer).tot == 0
    ensures Late(Last(longer).qs[opnum % 2])
  {
    longer := Extend(cfg, tr, Begin(Reader(opnum)));
    longer := Extend(cfg, longer, Run([]));
    longer := Extend(cfg, longer, Run([]));
  }

  /** The reader checks the version while its data READ is still pending on the other queue. */
  lemma DataMayBeLate(cfg: Config, tr: seq<State>, opnum: nat) returns (longer: seq<State>)
    requires Outside(cfg, tr) && cfg.protocol.RcTwoQueues? && cfg.batch == 1
    requires Last(tr).qs[opnum % 2].done == |Last(tr).qs[opnum % 2].log|
    ensures Trace(cfg, longer) && Inv(cfg, Last(longer)) && AtLastCheck(cfg, Last(longer))
    ensures Last(longer).op == Some(Reader(opnum)) && Last(longer).tot == 0 && Late(Last(longer).qs[opnum % 2])
  {
    longer := SingleReads(cfg, tr, opnum);
    longer := Complete(cfg, longer, 1 - opnum % 2);
    longer := PollServed(cfg, longer, 1 - opnum % 2);
    TraceInv(cfg, longer, |longer| - 1);
  }

  /** The first two readers, with operation numbers 0 and 1. */
  lemma SecondReaderIsLate(cfg: Config) returns (tr: seq<State>)
    requires cfg.Valid() && cfg.protocol.RcTwoQueues? && cfg.batch == 1
    ensures Trace(cfg, tr) && Inv(cfg, Last(tr)) && AtLastCheck(cfg, Last(tr)) && Last(tr).tot == 0
    ensures Late(Last(tr).qs[1])
  {
    tr := Start(cfg);
    tr := DataMayBeLate(cfg, tr, 0);
    tr := Leave(cfg, tr);
    tr := Complete(cfg, tr, 1);
    tr := DataMayBeLate(cfg, tr, 1);
  }

  // ---- an odd batch on two queues ---------------------------------------------------------------------------

  /** A reader at the start of an attempt, with everything posted before completed. */
  ghost predicate Fresh(cfg: Config, s: State, attempts: nat) {
    && Shaped(cfg, s) && s.op == Some(Reader(0)) && s.pc == 0 && s.tot == 0 && s.attempts == attempts && cfg.Odd()
    && |s.qs| == 2 && s.qs[0].done == |s.qs[0].log| && s.qs[1].done == |s.qs[1].log|
  }

  /** An attempt that runs to its check and throws there. */
  lemma Attempt(cfg: Config, tr: seq<State>) returns (longer: seq<State>)
    requires Trace(cfg, tr) && Fresh(cfg, Last(tr), Last(tr).attempts)
    ensures Trace(cfg, longer) && Fresh(cfg, Last(longer), Last(tr).attempts + 1)
  {
    TwoQueuesScript(cfg);
    longer := PostReads(cfg, tr, Last(tr).qs, 0);
    longer := Complete(cfg, longer, 0);
    longer := Complete(cfg, longer, 1);
    longer := PollServed(cfg, longer, 0);
    longer := PollServed(cfg, longer, 1);
    longer := Extend(cfg, longer, Restart);
  }

  lemma {:induction false} Attempts(cfg: Config, k: nat) returns (tr: seq<State>)
    requires cfg.Valid() && cfg.Odd()
    ensures Trace(cfg, tr) && Fresh(cfg, Last(tr), k)
  {
    if k == 0 {
      tr := Start(cfg);
      tr := Extend(cfg, tr, Begin(Reader(0)));
    } else {
      tr := Attempts(cfg, k - 1);
      tr := Attempt(cfg, tr);
    }
  }

  lemma {:induction false} SignaledAgree(a: seq<Request>, b: seq<Request>, k: nat)
    requires k <= |a| && k <= |b| && a[..k] == b[..k]
    ensures Signaled(a, k) == Signaled(b, k)
  {
    if k > 0 {
      assert a[..k - 1] == a[..k][..k - 1] == b[..k - 1] && a[k - 1] == a[..k][k - 1] == b[k - 1];
      SignaledAgree(a, b, k - 1);
    }
  }

  /** A reader whose poll of the second queue can end before its first READ there. */
  ghost predicate PollsTooEarly(cfg: Config, s: State) {
    && Shaped(cfg, s) && s.op == Some(Reader(0)) && s.pc == 2 * cfg.batch + 1 && s.tot == 0 && |s.qs| == 2
    && Late(s.qs[1]) && Signaled(s.qs[1].log, s.qs[1].done) - s.qs[1].polled == cfg.batch / 2
  }

  lemma LeftoversSuffice(cfg: Config, tr: seq<State>) returns (longer: seq<State>)
    requires Trace(cfg, tr) && Fresh(cfg, Last(tr), cfg.batch / 2)
    ensures Trace(cfg, longer) && PollsTooEarly(cfg, Last(longer))
  {
    var x := Last(tr).qs[1];
    TraceInv(cfg, tr, |tr| - 1);
    assert QueueInv(cfg, Last(tr), 1) && Unpolled(x) == cfg.batch / 2;
    TwoQueuesScript(cfg);
    longer := PostReads(cfg, tr, Last(tr).qs, 0);
    longer := Complete(cfg, longer, 0);
    longer := PollServed(cfg, longer, 0);
    SignaledAgree(x.log, Last(longer).qs[1].log, x.done);
  }

  /** rcopt with an odd batch above 1: half a batch of attempts leave enough completions behind to satisfy the poll of
      the second queue, before any of the next attempt's READs there has executed. */
  lemma LeftoversSatisfyPoll(cfg: Config) returns (tr: seq<State>)
    requires cfg.Valid() && cfg.Odd()
    ensures Trace(cfg, tr) && Inv(cfg, Last(tr)) && |Last(tr).qs| == 2
    ensures AtLastCheck(cfg, Last(tr)) && Last(tr).tot == 0 && Late(Last(tr).qs[1])
  {
    tr := Attempts(cfg, cfg.batch / 2);
    tr := LeftoversSuffice(cfg, tr);
    TwoQueuesScript(cfg);
    tr := PollAtOnce(cfg, tr, 1);
    TraceInv(cfg, tr, |tr| - 1);
  }

  // ---- when data arrives ------------------------------------------------------------------------------------

  /** Whenever a reader checks what it has read, its READs have arrived on every queue. */
  ghost predicate ChecksArrivedData(cfg: Config, tr: seq<State>) {
    forall j, q :: 0 <= j < |tr| && 0 <= q < |tr[j].qs| && AtCheck(cfg, tr[j]) ==> OnlyAtomics(tr[j].qs[q])
  }

  ghost predicate AtCheck(cfg: Config, s: State) {
    Running(cfg, s) && Current(cfg, s)[s.pc].Throw? && s.op.Some? && s.op.value.Reader?
  }

  /** A check before the data has arrived on the second queue. */
  lemma LateAtCheck(cfg: Config) returns (tr: seq<State>)
    requires cfg.Valid() && !AwaitsData(cfg)
    ensures Trace(cfg, tr) && Inv(cfg, Last(tr)) && |Last(tr).qs| == 2
    ensures AtLastCheck(cfg, Last(tr)) && Last(tr).tot == 0 && Late(Last(tr).qs[1])
  {
    if cfg.batch == 1 {
      tr := SecondReaderIsLate(cfg);
    } else {
      tr := LeftoversSatisfyPoll(cfg);
    }
  }

  /** That holds in every run if and only if there is one queue pair or the batch is even. */
  lemma DataArrivesExactly(cfg: Config)
    requires cfg.Valid()
    ensures (forall tr: seq<State> :: Trace(cfg, tr) ==> ChecksArrivedData(cfg, tr)) <==> AwaitsData(cfg)
  {
    if AwaitsData(cfg) {
      forall tr: seq<State>, j: nat, q: nat | Trace(cfg, tr) && j < |tr| && q < |tr[j].qs| && AtCheck(cfg, tr[j])
        ensures OnlyAtomics(tr[j].qs[q])
      {
        DataHasArrived(cfg, tr, j, q);
      }
    } else {
      var tr := LateAtCheck(cfg);
      var x := Last(tr).qs[1];
      assert x.done <= x.done < |x.log| && !x.log[x.done].verb.Atomic?;
      assert AtCheck(cfg, Last(tr)) && !ChecksArrivedData(cfg, tr);
    }
  }
}
