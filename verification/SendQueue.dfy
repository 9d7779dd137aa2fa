/** One worker that runs the scripts of `SendScripts` one after the other, and its network card.

    `pc` is the position in the script of lock() and unlock(); OLRestartException starts the script again on the same
    local copy (frontend/optmistic_benchmark.cpp:60-120). The card completes the requests of a queue in posting order;
    a READ changes the local copy at any time while it is the oldest pending request, a WRITE takes its bytes from
    the copy at any time until it completes. `bytes` and `attempts` are history. */
module SendQueue {
  import opened Words
  import opened SendScripts
  import TL = TupleLayout

  /** `bytes` is the content of the copy when the request was posted. */
  datatype Request = Request(verb: Verb, signaled: bool, buf: nat, bytes: Bytes)

  /** Everything ever posted, the number of completed requests and the number of polled completions. */
  datatype Queue = Queue(log: seq<Request>, done: nat, polled: nat)

  datatype State = State(
    op: Option<Operation>, pc: nat, tot: nat, cur: nat, qs: seq<Queue>, bufs: seq<Bytes>, attempts: nat)

  datatype Action =
    | Begin(op: Operation) | Run(bytes: Bytes) | Restart | Return
    | Reap(n: nat) | CardStore(q: nat, bytes: Bytes) | CardDone(q: nat)

  function Current(cfg: Config, s: State): seq<Instr> {
    if s.op.Some? then Script(cfg, s.op.value) else []
  }

  /** `b % 2` for two copies. */
  function NextBuffer(cfg: Config, b: nat): nat {
    if b + 1 == cfg.buffers then 0 else b + 1
  }

  /** The number of signaled requests among the first `k`. */
  function Signaled(log: seq<Request>, k: nat): nat
    requires k <= |log|
  {
    if k == 0 then 0 else Signaled(log, k - 1) + if log[k - 1].signaled then 1 else 0
  }

  ghost predicate Shaped(cfg: Config, s: State) {
    && cfg.Valid() && |s.qs| == cfg.Queues() && |s.bufs| == cfg.buffers && s.cur < cfg.buffers
    && s.pc <= |Current(cfg, s)|
    && (forall q :: 0 <= q < |s.qs| ==> QueueShaped(cfg, s.qs[q]))
    && (forall b :: 0 <= b < |s.bufs| ==> |s.bufs[b]| == cfg.Size())
  }

  ghost predicate QueueShaped(cfg: Config, x: Queue) {
    && x.done <= |x.log| && x.polled <= Signaled(x.log, x.done)
    && (forall i :: 0 <= i < |x.log| ==> x.log[i].buf < cfg.buffers)
  }

  ghost predicate Init(cfg: Config, s: State) {
    && cfg.Valid() && s.op == None && s.pc == 0 == s.tot && s.cur == 0 && s.attempts == 0
    && s.qs == seq(cfg.Queues(), _ => Queue([], 0, 0)) && |s.bufs| == cfg.buffers
    && (forall b :: 0 <= b < |s.bufs| ==> |s.bufs[b]| == cfg.Size())
  }

  /** The script has an instruction at `pc`. */
  predicate Running(cfg: Config, s: State) {
    s.pc < |Current(cfg, s)|
  }

  predicate AtPoll(cfg: Config, s: State, q: nat) {
    Running(cfg, s) && Current(cfg, s)[s.pc].Poll? && Current(cfg, s)[s.pc].q == q
  }

  ghost predicate CanRun(cfg: Config, s: State, bytes: Bytes) {
    Running(cfg, s) &&
    match Current(cfg, s)[s.pc]
    case Poll(_, _, _) => false
    case Edit => |bytes| == cfg.Size()
    case Post(q, _, _) => q < |s.qs|
    case _ => true
  }

  ghost predicate CanReap(cfg: Config, s: State, n: nat)
    requires Shaped(cfg, s)
  {
    Running(cfg, s) &&
    match Current(cfg, s)[s.pc]
    case Poll(q, expected, _) =>
      q < |s.qs| && 1 <= n && s.tot + n <= expected && s.qs[q].polled + n <= Signaled(s.qs[q].log, s.qs[q].done)
    case _ => false
  }

  ghost predicate Enabled(cfg: Config, s: State, a: Action)
    requires Shaped(cfg, s)
  {
    match a
    case Begin(_) => s.op.None?
    case Run(bytes) => CanRun(cfg, s, bytes)
    case Restart => Running(cfg, s) && Current(cfg, s)[s.pc].Throw?
    case Return => s.op.Some? && s.pc == |Current(cfg, s)|
    case Reap(n) => CanReap(cfg, s, n)
    case CardStore(q, bytes) =>
      |bytes| == cfg.Size() && q < |s.qs| && s.qs[q].done < |s.qs[q].log| && s.qs[q].log[s.qs[q].done].verb.ReadTuple?
    case CardDone(q) => q < |s.qs| && s.qs[q].done < |s.qs[q].log|
  }

  function Attempted(s: State): nat {
    s.attempts + if s.op.Some? && s.op.value.Reader? then 1 else 0
  }

  ghost function RunStep(cfg: Config, s: State, bytes: Bytes): State
    requires Shaped(cfg, s) && Enabled(cfg, s, Run(bytes))
  {
    var next := s.(pc := s.pc + 1);
    match Current(cfg, s)[s.pc]
    case Post(q, verb, signaled) =>
      next.(qs := s.qs[q := s.qs[q].(log := s.qs[q].log + [Request(verb, signaled, s.cur, s.bufs[s.cur])])])
    case Zero => next.(bufs := s.bufs[s.cur := TL.Cleared(s.bufs[s.cur])])
    case Edit => next.(bufs := s.bufs[s.cur := bytes])
    case _ => next
  }

  ghost function ReapStep(cfg: Config, s: State, n: nat): State
    requires Shaped(cfg, s) && Enabled(cfg, s, Reap(n))
  {
    var poll := Current(cfg, s)[s.pc];
    var next := s.(qs := s.qs[poll.q := s.qs[poll.q].(polled := s.qs[poll.q].polled + n)]);
    if s.tot + n == poll.expected then next.(pc := s.pc + 1, tot := 0) else next.(tot := s.tot + n)
  }

  ghost function Apply(cfg: Config, s: State, a: Action): State
    requires Shaped(cfg, s) && Enabled(cfg, s, a)
  {
    match a
    case Begin(op) => s.(op := Some(op), pc := 0)
    case Run(bytes) => RunStep(cfg, s, bytes)
    case Restart => s.(pc := 0, attempts := Attempted(s))
    case Return => s.(op := None, pc := 0, cur := NextBuffer(cfg, s.cur), attempts := Attempted(s))
    case Reap(n) => ReapStep(cfg, s, n)
    case CardStore(q, bytes) => s.(bufs := s.bufs[s.qs[q].log[s.qs[q].done].buf := bytes])
    case CardDone(q) => s.(qs := s.qs[q := s.qs[q].(done := s.qs[q].done + 1)])
  }

  ghost predicate StepBy(cfg: Config, s: State, a: Action, s': State) {
    Shaped(cfg, s) && Enabled(cfg, s, a) && s' == Apply(cfg, s, a)
  }

  ghost predicate Next(cfg: Config, s: State, s': State) {
    exists a :: StepBy(cfg, s, a, s')
  }

  ghost predicate StepAt(cfg: Config, tr: seq<State>, i: nat)
    requires i + 1 < |tr|
  {
    Next(cfg, tr[i], tr[i + 1])
  }

  ghost predicate Trace(cfg: Config, tr: seq<State>) {
    && |tr| >= 1 && Init(cfg, tr[0])
    && (forall i :: 0 <= i < |tr| - 1 ==> StepAt(cfg, tr, i))
  }

  // ---- completion accounting ------------------------------------------------------------------------------

  /** Completions that are requested but not polled. */
  ghost function Unpolled(x: Queue): int {
    Signaled(x.log, |x.log|) - x.polled
  }

  /** The same for queue `q`, according to the position in the script. */
  ghost function Owed(cfg: Config, s: State, q: nat): int
    requires s.pc <= |Current(cfg, s)|
  {
    Net(Current(cfg, s), s.pc, q) - (if AtPoll(cfg, s, q) then s.tot else 0) +
    (if cfg.Odd() && q == 1 then s.attempts else 0)
  }

  /** The newest requests after the last signaled one are atomics. */
  ghost predicate TailQuiet(log: seq<Request>, k: nat)
    requires k <= |log|
  {
    k > 0 && (log[k - 1].signaled || (log[k - 1].verb.Atomic? && TailQuiet(log, k - 1)))
  }

  ghost predicate OnlyAtomics(x: Queue) {
    forall i :: x.done <= i < |x.log| ==> x.log[i].verb.Atomic?
  }

  ghost predicate QueueInv(cfg: Config, s: State, q: nat)
    requires q < |s.qs| && s.pc <= |Current(cfg, s)|
  {
    var x := s.qs[q];
    && Unpolled(x) == Owed(cfg, s, q)
    && (Quiet(Current(cfg, s), s.pc, q) ==> TailQuiet(x.log, |x.log|))
    && (AwaitsData(cfg) && Clean(Current(cfg, s), s.pc, q) ==> OnlyAtomics(x))
  }

  ghost predicate Inv(cfg: Config, s: State) {
    && Shaped(cfg, s)
    && (forall q :: 0 <= q < |s.qs| ==> QueueInv(cfg, s, q))
    && (if Running(cfg, s) && Current(cfg, s)[s.pc].Poll? then s.tot < Current(cfg, s)[s.pc].expected else s.tot == 0)
    && (s.op.None? ==> s.pc == 0)
  }

  lemma {:induction false} SignaledPrefix(log: seq<Request>, x: Request, k: nat)
    requires k <= |log|
    ensures Signaled(log + [x], k) == Signaled(log, k)
  {
    if k > 0 {
      SignaledPrefix(log, x, k - 1);
    }
  }

  lemma {:induction false} SignaledGrows(log: seq<Request>, i: nat, k: nat)
    requires i <= k <= |log|
    ensures Signaled(log, i) <= Signaled(log, k)
    ensures i < k && log[k - 1].signaled ==> Signaled(log, i) < Signaled(log, k)
  {
    if i < k {
      SignaledGrows(log, i, k - 1);
    }
  }

  lemma {:induction false} TailQuietSnoc(log: seq<Request>, x: Request, k: nat)
    requires k <= |log| && TailQuiet(log, k)
    ensures TailQuiet(log + [x], k)
  {
    if !log[k - 1].signaled {
      TailQuietSnoc(log, x, k - 1);
    }
  }

  /** Once every signaled request is done, only the atomics behind the last one can be pending. */
  lemma {:induction false} PendingAtomics(log: seq<Request>, done: nat, k: nat)
    requires done <= k <= |log| && TailQuiet(log, k) && Signaled(log, done) == Signaled(log, k)
    ensures forall i :: done <= i < k ==> log[i].verb.Atomic?
  {
    if done < k {
      SignaledGrows(log, done, k);
      SignaledGrows(log, done, k - 1);
      PendingAtomics(log, done, k - 1);
    }
  }

  lemma InitInv(cfg: Config, s: State)
    requires Init(cfg, s)
    ensures Inv(cfg, s)
  {
  }

  lemma PostedQueue(cfg: Config, s: State, bytes: Bytes)
    requires Inv(cfg, s) && CanRun(cfg, s, bytes) && Current(cfg, s)[s.pc].Post?
    ensures var s', q := RunStep(cfg, s, bytes), Current(cfg, s)[s.pc].q;
            QueueShaped(cfg, s'.qs[q]) &&
            Signaled(s'.qs[q].log, |s'.qs[q].log|) - s'.qs[q].polled ==
              Owed(cfg, s, q) + Effect(Current(cfg, s)[s.pc], q)
    ensures var s', q := RunStep(cfg, s, bytes), Current(cfg, s)[s.pc].q;
            Quiet(Current(cfg, s), s.pc + 1, q) ==> TailQuiet(s'.qs[q].log, |s'.qs[q].log|)
  {
    var s', post := RunStep(cfg, s, bytes), Current(cfg, s)[s.pc];
    var x, y := s.qs[post.q], Request(post.verb, post.signaled, s.cur, s.bufs[s.cur]);
    assert QueueInv(cfg, s, post.q) && QueueShaped(cfg, x);
    SignaledPrefix(x.log, y, |x.log|);
    SignaledPrefix(x.log, y, x.done);
    if Quiet(Current(cfg, s), s.pc, post.q) {
      TailQuietSnoc(x.log, y, |x.log|);
    }
  }

  lemma PostKeepsInv(cfg: Config, s: State, bytes: Bytes)
    requires Inv(cfg, s) && Enabled(cfg, s, Run(bytes)) && Current(cfg, s)[s.pc].Post?
    ensures Inv(cfg, RunStep(cfg, s, bytes))
  {
    var s' := RunStep(cfg, s, bytes);
    PostedQueue(cfg, s, bytes);
    PollStarts(cfg, s, s');
    forall q | 0 <= q < |s.qs|
      ensures QueueInv(cfg, s', q) && QueueShaped(cfg, s'.qs[q])
    {
      assert QueueInv(cfg, s, q) && QueueShaped(cfg, s.qs[q]);
    }
  }

  /** Every poll asks for something, so it starts with `tot` below `expected`. */
  lemma PollStarts(cfg: Config, s: State, s': State)
    requires cfg.Valid() && s'.op == s.op && s'.pc == s.pc + 1 <= |Current(cfg, s)| && s.op.Some?
    ensures Running(cfg, s') && Current(cfg, s')[s'.pc].Poll? ==>
      0 < Current(cfg, s')[s'.pc].expected
  {
    Discipline(cfg, s.op.value);
    if Running(cfg, s') {
      assert Fits(cfg, s.op.value, Script(cfg, s.op.value), s'.pc);
    }
  }

  lemma LocalKeepsInv(cfg: Config, s: State, bytes: Bytes)
    requires Inv(cfg, s) && Enabled(cfg, s, Run(bytes)) && !Current(cfg, s)[s.pc].Post?
    ensures Inv(cfg, RunStep(cfg, s, bytes))
  {
    var s' := RunStep(cfg, s, bytes);
    PollStarts(cfg, s, s');
    forall q | 0 <= q < |s.qs|
      ensures QueueInv(cfg, s', q)
    {
      assert QueueInv(cfg, s, q);
    }
  }

  /** The end of a poll leaves nothing signaled pending, and so at most atomics. */
  lemma PollSettles(cfg: Config, s: State, n: nat)
    requires Inv(cfg, s) && CanReap(cfg, s, n) && s.tot + n == Current(cfg, s)[s.pc].expected && AwaitsData(cfg)
    ensures OnlyAtomics(s.qs[Current(cfg, s)[s.pc].q])
  {
    var sc, q := Current(cfg, s), Current(cfg, s)[s.pc].q;
    var x := s.qs[q];
    Discipline(cfg, s.op.value);
    assert Fits(cfg, s.op.value, sc, s.pc);
    assert QueueInv(cfg, s, q) && QueueShaped(cfg, x);
    SignaledGrows(x.log, x.done, |x.log|);
    PendingAtomics(x.log, x.done, |x.log|);
  }

  lemma ReapedOwed(cfg: Config, s: State, n: nat, q: nat)
    requires Inv(cfg, s) && CanReap(cfg, s, n) && q < |s.qs|
    ensures var s' := ReapStep(cfg, s, n);
            s'.pc <= |Current(cfg, s')| && |s'.qs| == |s.qs| && Unpolled(s'.qs[q]) == Owed(cfg, s', q)
  {
    var s' := ReapStep(cfg, s, n);
    assert QueueInv(cfg, s, q);
    if s'.pc == s.pc + 1 {
      PollStarts(cfg, s, s');
    }
  }

  lemma ReapedQueue(cfg: Config, s: State, n: nat, q: nat)
    requires Inv(cfg, s) && CanReap(cfg, s, n) && q < |s.qs|
    ensures var s' := ReapStep(cfg, s, n);
            s'.pc <= |Current(cfg, s')| && |s'.qs| == |s.qs| && QueueInv(cfg, s', q) && QueueShaped(cfg, s'.qs[q])
  {
    var s' := ReapStep(cfg, s, n);
    ReapedOwed(cfg, s, n, q);
    assert QueueInv(cfg, s, q) && QueueShaped(cfg, s.qs[q]);
    assert s'.qs[q].log == s.qs[q].log && s'.qs[q].done == s.qs[q].done;
    if s'.pc == s.pc + 1 && AwaitsData(cfg) {
      PollSettles(cfg, s, n);
    }
  }

  lemma ReapKeepsInv(cfg: Config, s: State, n: nat)
    requires Inv(cfg, s) && Enabled(cfg, s, Reap(n))
    ensures Inv(cfg, ReapStep(cfg, s, n))
  {
    var s' := ReapStep(cfg, s, n);
    if s'.pc == s.pc + 1 {
      PollStarts(cfg, s, s');
    }
    forall q | 0 <= q < |s.qs|
      ensures QueueInv(cfg, s', q) && QueueShaped(cfg, s'.qs[q])
    {
      ReapedQueue(cfg, s, n, q);
    }
  }

  lemma RestartKeepsInv(cfg: Config, s: State)
    requires Inv(cfg, s) && Enabled(cfg, s, Restart)
    ensures Inv(cfg, Apply(cfg, s, Restart))
  {
    var s', op := Apply(cfg, s, Restart), s.op.value;
    Discipline(cfg, op);
    assert Fits(cfg, op, Script(cfg, op), s.pc);
    assert Fits(cfg, op, Script(cfg, op), 0);
    forall q | 0 <= q < |s.qs|
      ensures QueueInv(cfg, s', q)
    {
      assert QueueInv(cfg, s, q);
    }
  }

  lemma ReturnKeepsInv(cfg: Config, s: State)
    requires Inv(cfg, s) && Enabled(cfg, s, Return)
    ensures Inv(cfg, Apply(cfg, s, Return))
  {
    var s', op := Apply(cfg, s, Return), s.op.value;
    Discipline(cfg, op);
    forall q | 0 <= q < |s.qs|
      ensures QueueInv(cfg, s', q)
    {
      assert QueueInv(cfg, s, q);
    }
  }

  lemma BeginKeepsInv(cfg: Config, s: State, op: Operation)
    requires Inv(cfg, s) && Enabled(cfg, s, Begin(op))
    ensures Inv(cfg, Apply(cfg, s, Begin(op)))
  {
    var s' := Apply(cfg, s, Begin(op));
    Discipline(cfg, op);
    assert Fits(cfg, op, Script(cfg, op), 0);
    forall q | 0 <= q < |s.qs|
      ensures QueueInv(cfg, s', q)
    {
      assert QueueInv(cfg, s, q);
    }
  }

  lemma CardKeepsInv(cfg: Config, s: State, a: Action)
    requires Inv(cfg, s) && Enabled(cfg, s, a) && (a.CardStore? || a.CardDone?)
    ensures Inv(cfg, Apply(cfg, s, a))
  {
    var s' := Apply(cfg, s, a);
    forall q | 0 <= q < |s.qs|
      ensures QueueInv(cfg, s', q) && QueueShaped(cfg, s'.qs[q])
    {
      assert QueueInv(cfg, s, q) && QueueShaped(cfg, s.qs[q]);
    }
  }

  lemma StepKeepsInv(cfg: Config, s: State, a: Action)
    requires Inv(cfg, s) && Enabled(cfg, s, a)
    ensures Inv(cfg, Apply(cfg, s, a))
  {
    match a
    case Begin(op) => BeginKeepsInv(cfg, s, op);
    case Run(bytes) =>
      if Current(cfg, s)[s.pc].Post? { PostKeepsInv(cfg, s, bytes); } else { LocalKeepsInv(cfg, s, bytes); }
    case Restart => RestartKeepsInv(cfg, s);
    case Return => ReturnKeepsInv(cfg, s);
    case Reap(n) => ReapKeepsInv(cfg, s, n);
    case CardStore(_, _) => CardKeepsInv(cfg, s, a);
    case CardDone(_) => CardKeepsInv(cfg, s, a);
  }

  lemma NextKeepsInv(cfg: Config, s: State, s': State)
    requires Inv(cfg, s) && Next(cfg, s, s')
    ensures Inv(cfg, s')
  {
    var a :| StepBy(cfg, s, a, s');
    StepKeepsInv(cfg, s, a);
  }

  lemma {:induction false} TraceInv(cfg: Config, tr: seq<State>, j: nat)
    requires Trace(cfg, tr) && j < |tr|
    ensures Inv(cfg, tr[j])
  {
    if j == 0 {
      InitInv(cfg, tr[0]);
    } else {
      TraceInv(cfg, tr, j - 1);
      assert StepAt(cfg, tr, j - 1);
      NextKeepsInv(cfg, tr[j - 1], tr[j]);
    }
  }

  // ---- what the accounting gives --------------------------------------------------------------------------

  /** lock() and unlock() have returned, or are about to return or to throw. */
  ghost predicate AtReturn(cfg: Config, s: State) {
    s.op.None? || !Running(cfg, s) || Current(cfg, s)[s.pc].Throw?
  }

  /** At every normal or restart return, exactly as many completions were polled as signaled requests posted, for
      every protocol and batch size but one: rcopt with an odd batch above 1 leaves one completion per attempt of a
      reader in the second queue. */
  lemma CompletionAccounting(cfg: Config, tr: seq<State>, j: nat, q: nat)
    requires Trace(cfg, tr) && j < |tr| && AtReturn(cfg, tr[j]) && q < |tr[j].qs|
    ensures Unpolled(tr[j].qs[q]) == if cfg.Odd() && q == 1 then Attempted(tr[j]) else 0
  {
    TraceInv(cfg, tr, j);
    var s := tr[j];
    assert QueueInv(cfg, s, q);
    if s.op.Some? {
      Discipline(cfg, s.op.value);
      if Running(cfg, s) {
        assert Fits(cfg, s.op.value, Script(cfg, s.op.value), s.pc);
      }
    }
  }

  /** Between operations, the queues are drained in all protocols if and only if no such attempt was made. */
  lemma DrainedExactly(cfg: Config, tr: seq<State>, j: nat)
    requires Trace(cfg, tr) && j < |tr| && tr[j].op.None?
    ensures (forall q :: 0 <= q < |tr[j].qs| ==> Unpolled(tr[j].qs[q]) == 0) <==> !cfg.Odd() || tr[j].attempts == 0
  {
    TraceInv(cfg, tr, j);
    forall q | 0 <= q < |tr[j].qs|
      ensures Unpolled(tr[j].qs[q]) == if cfg.Odd() && q == 1 then tr[j].attempts else 0
    {
      CompletionAccounting(cfg, tr, j, q);
    }
    assert cfg.Odd() ==> Unpolled(tr[j].qs[1]) == tr[j].attempts;
  }

  /** A poll never asks for more entries than the array has (batches up to 32), nor for completions that will
      never come. */
  lemma PollsAreBounded(cfg: Config, tr: seq<State>, j: nat, q: nat)
    requires Trace(cfg, tr) && j < |tr| && q < |tr[j].qs| && AtPoll(cfg, tr[j], q)
    ensures var poll := Current(cfg, tr[j])[tr[j].pc];
            && 1 <= poll.expected - tr[j].tot <= Unpolled(tr[j].qs[q])
            && (cfg.batch <= RC_BATCH_SIZE ==> poll.expected - tr[j].tot <= poll.room)
  {
    TraceInv(cfg, tr, j);
    var s := tr[j];
    assert QueueInv(cfg, s, q);
    Discipline(cfg, s.op.value);
    assert Fits(cfg, s.op.value, Script(cfg, s.op.value), s.pc);
  }

  /** When an operation checks what it has read, its READs have arrived: only atomics are pending on its queues.
      It needs, for two queues, an even batch. */
  lemma DataHasArrived(cfg: Config, tr: seq<State>, j: nat, q: nat)
    requires Trace(cfg, tr) && j < |tr| && AwaitsData(cfg) && q < |tr[j].qs|
    requires Running(cfg, tr[j]) && Current(cfg, tr[j])[tr[j].pc].Throw? && (q == 0 || tr[j].op.value.Reader?)
    ensures OnlyAtomics(tr[j].qs[q])
  {
    TraceInv(cfg, tr, j);
    var s := tr[j];
    assert QueueInv(cfg, s, q);
    Discipline(cfg, s.op.value);
    assert Fits(cfg, s.op.value, Script(cfg, s.op.value), s.pc);
  }
}
