/** Which bytes a worker's WRITEs send. A WRITE takes its bytes from the worker's copy at any time until it completes,
    while the next operation runs, and with two queue pairs a READ of the second one is not ordered behind it. */
module SendPayload {
  import opened Words
  import opened SendScripts
  import opened SendQueue

  /** What a pending WRITE sends: an inlined one what it was posted with, any other what its copy holds by then. */
  ghost function Sends(cfg: Config, r: Request, bufs: seq<Bytes>): Bytes
    requires r.buf < |bufs|
  {
    if cfg.Inlines() then r.bytes else bufs[r.buf]
  }

  /** Every pending WRITE sends the bytes that its copy held when it was posted. */
  ghost predicate Stable(cfg: Config, s: State)
    requires Shaped(cfg, s)
  {
    forall q :: 0 <= q < |s.qs| ==> QueueStable(cfg, s.qs[q], s.bufs)
  }

  ghost predicate QueueStable(cfg: Config, x: Queue, bufs: seq<Bytes>)
    requires QueueShaped(cfg, x) && |bufs| == cfg.buffers
  {
    forall i :: x.done <= i < |x.log| && x.log[i].verb.Write? ==> Sends(cfg, x.log[i], bufs) == x.log[i].bytes
  }

  /** A pending WRITE is this operation's last data request, or the previous one's until this one has polled; only
      atomics are pending before it. */
  ghost predicate WriteOrder(cfg: Config, s: State, i: nat)
    requires Shaped(cfg, s) && s.qs[0].done <= i < |s.qs[0].log|
  {
    var sc, log := Current(cfg, s), s.qs[0].log;
    log[i].verb.Write? ==>
      && log[i].buf < |s.bufs|
      && (if Sent(sc, s.pc) then log[i].buf == s.cur
          else !Polled(sc, s.pc) && NextBuffer(cfg, log[i].buf) == s.cur)
      && (forall j :: s.qs[0].done <= j < i ==> log[j].verb.Atomic?)
  }

  /** The second queue has no WRITE, and its pending READs go to the copy of the reader that posted them. */
  ghost predicate SecondInv(cfg: Config, s: State)
    requires Shaped(cfg, s)
  {
    |s.qs| == 2 ==>
      && (forall i :: 0 <= i < |s.qs[1].log| ==> !s.qs[1].log[i].verb.Write?)
      && (forall i :: s.qs[1].done <= i < |s.qs[1].log| && s.qs[1].log[i].verb.ReadTuple? ==>
            s.op.Some? && s.op.value.Reader? && s.qs[1].log[i].buf == s.cur)
  }

  ghost predicate OrderInv(cfg: Config, s: State) {
    && Inv(cfg, s) && SecondInv(cfg, s)
    && (forall i :: s.qs[0].done <= i < |s.qs[0].log| ==> WriteOrder(cfg, s, i))
  }

  lemma Passed(sc: seq<Instr>, k: nat)
    requires k < |sc|
    ensures Sent(sc, k + 1) <==> Sent(sc, k) || sc[k] == Post(0, Write, false)
    ensures Polled(sc, k + 1) <==> Polled(sc, k) || sc[k].Poll?
  {
    assert sc[k].Poll? ==> Polled(sc, k + 1);
    assert sc[k] == Post(0, Write, false) ==> Sent(sc, k + 1);
  }

  /** After the WRITE, a script only posts atomics. */
  lemma AfterWrite(cfg: Config, op: Operation, k: nat)
    requires cfg.Valid() && k < |Script(cfg, op)| && Sent(Script(cfg, op), k)
    ensures Script(cfg, op)[k] == Post(0, Atomic, false)
  {
    var sc := Script(cfg, op);
    Discipline(cfg, op);
    var j :| 0 <= j < k && sc[j] == Post(0, Write, false);
    assert Fits(cfg, op, sc, j);
  }

  lemma ReadersSendNothing(cfg: Config, op: Operation, k: nat)
    requires cfg.Valid() && op.Reader? && k <= |Script(cfg, op)|
    ensures !Sent(Script(cfg, op), k)
  {
    Discipline(cfg, op);
    forall j | 0 <= j < k
      ensures Script(cfg, op)[j] != Post(0, Write, false)
    {
      assert Fits(cfg, op, Script(cfg, op), j);
    }
  }

  lemma RunKeepsWriteOrder(cfg: Config, s: State, bytes: Bytes)
    requires OrderInv(cfg, s) && Enabled(cfg, s, Run(bytes)) && AwaitsData(cfg)
    requires Inv(cfg, RunStep(cfg, s, bytes))
    ensures var s' := RunStep(cfg, s, bytes);
            forall i :: s'.qs[0].done <= i < |s'.qs[0].log| ==> WriteOrder(cfg, s', i)
  {
    var s', sc, x := RunStep(cfg, s, bytes), Current(cfg, s), s.qs[0];
    Discipline(cfg, s.op.value);
    assert Fits(cfg, s.op.value, sc, s.pc);
    assert QueueInv(cfg, s, 0);
    Passed(sc, s.pc);
    if Sent(sc, s.pc) {
      AfterWrite(cfg, s.op.value, s.pc);
    }
    forall i | s'.qs[0].done <= i < |s'.qs[0].log|
      ensures WriteOrder(cfg, s', i)
    {
      if i < |x.log| {
        assert WriteOrder(cfg, s, i);
      }
    }
  }

  lemma RunKeepsOrder(cfg: Config, s: State, bytes: Bytes)
    requires OrderInv(cfg, s) && Enabled(cfg, s, Run(bytes)) && AwaitsData(cfg)
    ensures OrderInv(cfg, RunStep(cfg, s, bytes))
  {
    StepKeepsInv(cfg, s, Run(bytes));
    RunKeepsWriteOrder(cfg, s, bytes);
    Discipline(cfg, s.op.value);
    assert Fits(cfg, s.op.value, Current(cfg, s), s.pc);
  }

  /** Between operations and attempts, no READ is pending on the second queue. */
  lemma SecondSettled(cfg: Config, s: State)
    requires OrderInv(cfg, s) && AwaitsData(cfg) && AtReturn(cfg, s) && |s.qs| == 2
    ensures forall i :: s.qs[1].done <= i < |s.qs[1].log| ==> !s.qs[1].log[i].verb.ReadTuple?
  {
    assert QueueInv(cfg, s, 1);
    if s.op.Some? {
      Discipline(cfg, s.op.value);
      if Running(cfg, s) {
        assert Fits(cfg, s.op.value, Current(cfg, s), s.pc);
      }
    }
  }

  lemma ControlKeepsOrder(cfg: Config, s: State, a: Action)
    requires OrderInv(cfg, s) && Enabled(cfg, s, a) && (a.Begin? || a.Restart? || a.Return?) && AwaitsData(cfg)
    ensures OrderInv(cfg, Apply(cfg, s, a))
  {
    var s', sc, x := Apply(cfg, s, a), Current(cfg, s), s.qs[0];
    StepKeepsInv(cfg, s, a);
    assert QueueInv(cfg, s, 0);
    if s.op.Some? {
      Discipline(cfg, s.op.value);
      if Running(cfg, s) {
        assert Fits(cfg, s.op.value, sc, s.pc);
      }
    }
    if |s.qs| == 2 {
      SecondSettled(cfg, s);
    }
    forall i | x.done <= i < |x.log|
      ensures WriteOrder(cfg, s', i)
    {
      assert WriteOrder(cfg, s, i);
    }
  }

  /** The first poll of an operation is on the queue of the WRITEs. */
  lemma ReapKeepsOrder(cfg: Config, s: State, n: nat)
    requires OrderInv(cfg, s) && Enabled(cfg, s, Reap(n)) && AwaitsData(cfg)
    ensures OrderInv(cfg, Apply(cfg, s, Reap(n)))
  {
    var s', sc, x := Apply(cfg, s, Reap(n)), Current(cfg, s), s.qs[0];
    StepKeepsInv(cfg, s, Reap(n));
    Discipline(cfg, s.op.value);
    assert Fits(cfg, s.op.value, sc, s.pc);
    if s'.pc == s.pc + 1 {
      PollSettles(cfg, s, n);
      Passed(sc, s.pc);
    }
    forall i | x.done <= i < |x.log|
      ensures WriteOrder(cfg, s', i)
    {
      assert WriteOrder(cfg, s, i);
    }
  }

  lemma CardKeepsOrder(cfg: Config, s: State, a: Action)
    requires OrderInv(cfg, s) && Enabled(cfg, s, a) && (a.CardStore? || a.CardDone?) && AwaitsData(cfg)
    ensures OrderInv(cfg, Apply(cfg, s, a))
  {
    var s', x := Apply(cfg, s, a), s.qs[0];
    StepKeepsInv(cfg, s, a);
    forall i | s'.qs[0].done <= i < |x.log|
      ensures WriteOrder(cfg, s', i)
    {
      assert WriteOrder(cfg, s, i);
    }
  }

  lemma NextKeepsOrder(cfg: Config, s: State, s': State)
    requires OrderInv(cfg, s) && Next(cfg, s, s') && AwaitsData(cfg)
    ensures OrderInv(cfg, s')
  {
    var a :| StepBy(cfg, s, a, s');
    match a
    case Run(bytes) => RunKeepsOrder(cfg, s, bytes);
    case Reap(n) => ReapKeepsOrder(cfg, s, n);
    case CardStore(_, _) => CardKeepsOrder(cfg, s, a);
    case CardDone(_) => CardKeepsOrder(cfg, s, a);
    case _ => ControlKeepsOrder(cfg, s, a);
  }

  lemma {:induction false} TraceOrder(cfg: Config, tr: seq<State>, j: nat)
    requires Trace(cfg, tr) && j < |tr| && AwaitsData(cfg)
    ensures OrderInv(cfg, tr[j])
  {
    if j == 0 {
      InitInv(cfg, tr[0]);
    } else {
      TraceOrder(cfg, tr, j - 1);
      assert StepAt(cfg, tr, j - 1);
      NextKeepsOrder(cfg, tr[j - 1], tr[j]);
    }
  }

  // ---- the bytes --------------------------------------------------------------------------------------------

  /** Every pending WRITE finds in its copy what was posted. */
  ghost predicate Intact(cfg: Config, s: State)
    requires Shaped(cfg, s)
  {
    forall i :: s.qs[0].done <= i < |s.qs[0].log| && s.qs[0].log[i].verb.Write? ==>
      s.qs[0].log[i].buf < |s.bufs| && s.bufs[s.qs[0].log[i].buf] == s.qs[0].log[i].bytes
  }

  lemma RunKeepsIntact(cfg: Config, s: State, bytes: Bytes)
    requires OrderInv(cfg, s) && Intact(cfg, s) && Enabled(cfg, s, Run(bytes)) && cfg.SeparatesCopies()
    ensures Shaped(cfg, RunStep(cfg, s, bytes)) && Intact(cfg, RunStep(cfg, s, bytes))
  {
    var s', sc, x := RunStep(cfg, s, bytes), Current(cfg, s), s.qs[0];
    StepKeepsInv(cfg, s, Run(bytes));
    Discipline(cfg, s.op.value);
    assert Fits(cfg, s.op.value, sc, s.pc);
    if Sent(sc, s.pc) {
      AfterWrite(cfg, s.op.value, s.pc);
    }
    forall i | x.done <= i < |x.log| && x.log[i].verb.Write?
      ensures s'.bufs[x.log[i].buf] == x.log[i].bytes
    {
      assert WriteOrder(cfg, s, i);
    }
  }

  lemma StoreKeepsIntact(cfg: Config, s: State, q: nat, bytes: Bytes)
    requires OrderInv(cfg, s) && Intact(cfg, s) && Enabled(cfg, s, CardStore(q, bytes)) && cfg.SeparatesCopies()
    ensures Shaped(cfg, Apply(cfg, s, CardStore(q, bytes))) && Intact(cfg, Apply(cfg, s, CardStore(q, bytes)))
  {
    var s', x := Apply(cfg, s, CardStore(q, bytes)), s.qs[0];
    StepKeepsInv(cfg, s, CardStore(q, bytes));
    if s.op.Some? && s.op.value.Reader? {
      ReadersSendNothing(cfg, s.op.value, s.pc);
    }
    forall i | x.done <= i < |x.log| && x.log[i].verb.Write?
      ensures s'.bufs[x.log[i].buf] == x.log[i].bytes
    {
      assert WriteOrder(cfg, s, i);
    }
  }

  lemma NextKeepsIntact(cfg: Config, s: State, s': State)
    requires OrderInv(cfg, s) && Intact(cfg, s) && Next(cfg, s, s') && cfg.SeparatesCopies()
    ensures Shaped(cfg, s') && Intact(cfg, s')
  {
    var a :| StepBy(cfg, s, a, s');
    StepKeepsInv(cfg, s, a);
    match a
    case Run(bytes) => RunKeepsIntact(cfg, s, bytes);
    case CardStore(q, bytes) => StoreKeepsIntact(cfg, s, q, bytes);
    case _ =>
  }

  lemma {:induction false} TracePayload(cfg: Config, tr: seq<State>, j: nat)
    requires Trace(cfg, tr) && j < |tr| && cfg.SeparatesCopies()
    ensures OrderInv(cfg, tr[j]) && Intact(cfg, tr[j])
  {
    TraceOrder(cfg, tr, j);
    if j > 0 {
      TracePayload(cfg, tr, j - 1);
      assert StepAt(cfg, tr, j - 1);
      NextKeepsIntact(cfg, tr[j - 1], tr[j]);
    }
  }

  lemma IntactIsStable(cfg: Config, s: State)
    requires OrderInv(cfg, s) && Intact(cfg, s)
    ensures Stable(cfg, s)
  {
    assert QueueStable(cfg, s.qs[0], s.bufs);
    if |s.qs| == 2 {
      assert QueueStable(cfg, s.qs[1], s.bufs);
    }
  }

  /** Where the copies are kept apart or WRITEs are inlined, every pending WRITE sends what was posted. */
  lemma WritesAreStable(cfg: Config, tr: seq<State>, j: nat)
    requires Trace(cfg, tr) && j < |tr| && cfg.KeepsPayload()
    ensures Shaped(cfg, tr[j]) && Stable(cfg, tr[j])
  {
    TraceInv(cfg, tr, j);
    if !cfg.Inlines() {
      TracePayload(cfg, tr, j);
      IntactIsStable(cfg, tr[j]);
    }
  }
}
