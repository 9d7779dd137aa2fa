/** The worker's scripts and the machine of the optimistic protocols agree about the WRITE in the send queue. In every
    run of either machine its bytes follow the same automaton: a WRITE is posted only when none is pending, with the
    bytes of the worker's copy; V2 Footer's zeroing reaches the bytes that are still to be sent if there is a single
    copy and the WRITE is not inlined; nothing else changes them until it completes. */
module SendProjection {
  import opened Words
  import opened SendScripts
  import opened SendQueue
  import opened SendPayload
  import opened PayloadStability
  import TL = TupleLayout
  import OP = OptimisticProtocol
  import OL = OptimisticLinearizability
  import OX = OptimisticExclusion

  /** What happens to the WRITE in a worker's send queue. */
  datatype Event = Silent | Posts(bytes: Bytes) | Clears | Completes

  /** The bytes that the pending WRITE sends, if there is one. */
  type InFlight = Option<Bytes>

  predicate Possible(cfg: TL.Config, p: InFlight, e: Event) {
    match e
    case Silent => true
    case Posts(_) => p.None?
    case Clears => cfg.ZeroesFirst() && (p.Some? && !cfg.Inlines() ==> |p.value| == cfg.Size())
    case Completes => p.Some?
  }

  function After(cfg: TL.Config, p: InFlight, e: Event): InFlight
    requires cfg.Valid() && Possible(cfg, p, e)
  {
    match e
    case Silent => p
    case Posts(bytes) => Some(bytes)
    case Clears => if p.Some? && cfg.buffers == 1 && !cfg.Inlines() then Some(TL.Cleared(p.value)) else p
    case Completes => None
  }

  /** One step of the automaton. */
  predicate Follows(cfg: TL.Config, p: InFlight, e: Event, p': InFlight)
    requires cfg.Valid()
  {
    Possible(cfg, p, e) && p' == After(cfg, p, e)
  }

  // ---- the scripts ------------------------------------------------------------------------------------------

  ghost predicate PendingAt(s: State, i: int) {
    |s.qs| >= 1 && s.qs[0].done <= i < |s.qs[0].log| && s.qs[0].log[i].verb.Write?
  }

  ghost function ScriptBytes(cfg: Config, s: State): InFlight
    requires Shaped(cfg, s)
  {
    if i :| PendingAt(s, i) then
      assert QueueShaped(cfg, s.qs[0]);
      Some(Sends(cfg, s.qs[0].log[i], s.bufs))
    else None
  }

  /** At most one WRITE is pending. */
  lemma OnlyOne(cfg: Config, s: State, i: nat)
    requires OrderInv(cfg, s) && PendingAt(s, i)
    ensures s.qs[0].log[i].buf < |s.bufs| && ScriptBytes(cfg, s) == Some(Sends(cfg, s.qs[0].log[i], s.bufs))
  {
    forall k | PendingAt(s, k)
      ensures k == i
    {
      assert WriteOrder(cfg, s, i) && WriteOrder(cfg, s, k);
    }
    assert WriteOrder(cfg, s, i);
  }

  /** A step of the worker or its card. */
  ghost function ScriptEvent(cfg: Config, s: State, a: Action): Event
    requires Shaped(cfg, s) && Enabled(cfg, s, a)
  {
    match a
    case Run(_) =>
      var x := Current(cfg, s)[s.pc];
      if x.Post? && x.verb.Write? then Posts(s.bufs[s.cur]) else if x.Zero? then Clears else Silent
    case CardDone(q) => if s.qs[q].log[s.qs[q].done].verb.Write? then Completes else Silent
    case _ => Silent
  }

  /** A WRITE that is pending in `s` is also pending in `s'`, from the same bytes. */
  ghost predicate Kept(s: State, s': State, i: int) {
    PendingAt(s, i) ==>
      && PendingAt(s', i) && s'.qs[0].log[i] == s.qs[0].log[i] && s.qs[0].log[i].buf < |s.bufs| == |s'.bufs|
      && s'.bufs[s.qs[0].log[i].buf] == s.bufs[s.qs[0].log[i].buf]
  }

  lemma SameBytes(cfg: Config, s: State, s': State)
    requires OrderInv(cfg, s) && OrderInv(cfg, s')
    requires forall i :: Kept(s, s', i) && (PendingAt(s', i) ==> PendingAt(s, i))
    ensures ScriptBytes(cfg, s') == ScriptBytes(cfg, s)
  {
    if i :| PendingAt(s, i) {
      assert Kept(s, s', i);
      OnlyOne(cfg, s, i);
      OnlyOne(cfg, s', i);
    }
  }

  /** Instructions other than the WRITE and the zeroing. */
  lemma OtherInstrKeepsBytes(cfg: Config, s: State, bytes: Bytes)
    requires OrderInv(cfg, s) && Enabled(cfg, s, Run(bytes)) && OrderInv(cfg, RunStep(cfg, s, bytes))
    requires var x := Current(cfg, s)[s.pc]; !x.Zero? && !(x.Post? && x.verb.Write?)
    ensures ScriptBytes(cfg, RunStep(cfg, s, bytes)) == ScriptBytes(cfg, s)
  {
    var s', sc := RunStep(cfg, s, bytes), Current(cfg, s);
    Discipline(cfg, s.op.value);
    assert Fits(cfg, s.op.value, sc, s.pc);
    if Sent(sc, s.pc) {
      AfterWrite(cfg, s.op.value, s.pc);
    }
    forall i
      ensures Kept(s, s', i) && (PendingAt(s', i) ==> PendingAt(s, i))
    {
      if PendingAt(s, i) {
        assert WriteOrder(cfg, s, i);
      }
    }
    SameBytes(cfg, s, s');
  }

  lemma PostProjects(cfg: Config, s: State, bytes: Bytes)
    requires OrderInv(cfg, s) && Enabled(cfg, s, Run(bytes)) && OrderInv(cfg, RunStep(cfg, s, bytes))
    requires AwaitsData(cfg) && Current(cfg, s)[s.pc].Post? && Current(cfg, s)[s.pc].verb.Write?
    ensures ScriptBytes(cfg, s) == None && ScriptBytes(cfg, RunStep(cfg, s, bytes)) == Some(s.bufs[s.cur])
  {
    Discipline(cfg, s.op.value);
    assert Fits(cfg, s.op.value, Current(cfg, s), s.pc);
    assert QueueInv(cfg, s, 0);
    OnlyOne(cfg, RunStep(cfg, s, bytes), |s.qs[0].log|);
  }

  lemma ZeroProjects(cfg: TL.Config, s: State, bytes: Bytes)
    requires cfg.Valid() && var sc := ScriptConfig(cfg);
             OrderInv(sc, s) && Enabled(sc, s, Run(bytes)) && OrderInv(sc, RunStep(sc, s, bytes)) &&
             Current(sc, s)[s.pc].Zero?
    ensures var sc := ScriptConfig(cfg);
            Follows(cfg, ScriptBytes(sc, s), Clears, ScriptBytes(sc, RunStep(sc, s, bytes)))
  {
    var sc := ScriptConfig(cfg);
    var s', script := RunStep(sc, s, bytes), Current(sc, s);
    Discipline(sc, s.op.value);
    assert Fits(sc, s.op.value, script, s.pc);
    if Sent(script, s.pc) {
      AfterWrite(sc, s.op.value, s.pc);
    }
    assert forall i :: PendingAt(s', i) ==> PendingAt(s, i);
    if i :| PendingAt(s, i) {
      assert WriteOrder(sc, s, i) && PendingAt(s', i);
      OnlyOne(sc, s, i);
      OnlyOne(sc, s', i);
    }
  }

  /** Only atomics are pending before a WRITE. */
  lemma BehindAtomics(cfg: Config, s: State, i: int)
    requires OrderInv(cfg, s)
    ensures PendingAt(s, i) ==>
      s.qs[0].log[i].buf < |s.bufs| && (i == s.qs[0].done || s.qs[0].log[s.qs[0].done].verb.Atomic?)
  {
    if PendingAt(s, i) {
      assert WriteOrder(cfg, s, i);
    }
  }

  /** A READ that stores has no WRITE behind it. */
  lemma StoreProjects(cfg: Config, s: State, q: nat, bytes: Bytes)
    requires OrderInv(cfg, s) && Enabled(cfg, s, CardStore(q, bytes)) && cfg.Queues() == 1
    requires OrderInv(cfg, Apply(cfg, s, CardStore(q, bytes)))
    ensures ScriptBytes(cfg, Apply(cfg, s, CardStore(q, bytes))) == ScriptBytes(cfg, s)
  {
    var s' := Apply(cfg, s, CardStore(q, bytes));
    forall i
      ensures Kept(s, s', i) && (PendingAt(s', i) ==> PendingAt(s, i))
    {
      BehindAtomics(cfg, s, i);
    }
    SameBytes(cfg, s, s');
  }

  lemma DoneProjects(cfg: Config, s: State, q: nat)
    requires OrderInv(cfg, s) && Enabled(cfg, s, CardDone(q)) && cfg.Queues() == 1
    requires OrderInv(cfg, Apply(cfg, s, CardDone(q)))
    ensures var p, p' := ScriptBytes(cfg, s), ScriptBytes(cfg, Apply(cfg, s, CardDone(q)));
            if s.qs[q].log[s.qs[q].done].verb.Write? then p.Some? && p'.None? else p' == p
  {
    var s', x := Apply(cfg, s, CardDone(q)), s.qs[0];
    forall i
      ensures PendingAt(s', i) ==> PendingAt(s, i) && !x.log[x.done].verb.Write?
      ensures !x.log[x.done].verb.Write? ==> Kept(s, s', i)
    {
      BehindAtomics(cfg, s, i);
    }
    if x.log[x.done].verb.Write? {
      assert PendingAt(s, x.done);
      OnlyOne(cfg, s, x.done);
    } else {
      SameBytes(cfg, s, s');
    }
  }

  /** Every step of the worker and its card is a step of the automaton. */
  lemma ScriptStepProjects(cfg: TL.Config, s: State, a: Action)
    requires cfg.Valid() && OrderInv(ScriptConfig(cfg), s) && Enabled(ScriptConfig(cfg), s, a)
    ensures var sc := ScriptConfig(cfg);
            Shaped(sc, Apply(sc, s, a)) &&
            Follows(cfg, ScriptBytes(sc, s), ScriptEvent(sc, s, a), ScriptBytes(sc, Apply(sc, s, a)))
  {
    var sc := ScriptConfig(cfg);
    assert StepBy(sc, s, a, Apply(sc, s, a));
    NextKeepsOrder(sc, s, Apply(sc, s, a));
    match a
    case Run(bytes) =>
      var x := Current(sc, s)[s.pc];
      if x.Zero? { ZeroProjects(cfg, s, bytes); }
      else if x.Post? && x.verb.Write? { PostProjects(sc, s, bytes); }
      else { OtherInstrKeepsBytes(sc, s, bytes); }
    case CardStore(q, bytes) => StoreProjects(sc, s, q, bytes);
    case CardDone(q) => DoneProjects(sc, s, q);
    case _ => SameRequests(sc, s, a);
  }

  lemma SameRequests(cfg: Config, s: State, a: Action)
    requires OrderInv(cfg, s) && Enabled(cfg, s, a) && OrderInv(cfg, Apply(cfg, s, a))
    requires a.Begin? || a.Restart? || a.Return? || a.Reap?
    ensures ScriptBytes(cfg, Apply(cfg, s, a)) == ScriptBytes(cfg, s)
  {
    var s' := Apply(cfg, s, a);
    forall i
      ensures Kept(s, s', i) && (PendingAt(s', i) ==> PendingAt(s, i))
    {
      if PendingAt(s, i) {
        assert WriteOrder(cfg, s, i);
      }
    }
    SameBytes(cfg, s, s');
  }

  /** `ps` is a run of the automaton from an empty send queue. */
  ghost predicate AutomatonRun(cfg: TL.Config, ps: seq<InFlight>, es: seq<Event>)
    requires cfg.Valid()
  {
    && |ps| == |es| + 1 && ps[0] == None
    && forall j :: 0 <= j < |es| ==> Follows(cfg, ps[j], es[j], ps[j + 1])
  }

  lemma ScriptNextProjects(cfg: TL.Config, tr: seq<State>, j: nat) returns (e: Event)
    requires cfg.Valid() && Trace(ScriptConfig(cfg), tr) && j + 1 < |tr|
    ensures var sc := ScriptConfig(cfg); Shaped(sc, tr[j]) && Shaped(sc, tr[j + 1]) &&
                                         Follows(cfg, ScriptBytes(sc, tr[j]), e, ScriptBytes(sc, tr[j + 1]))
  {
    var sc := ScriptConfig(cfg);
    TraceOrder(sc, tr, j);
    assert StepAt(sc, tr, j);
    var a :| StepBy(sc, tr[j], a, tr[j + 1]);
    ScriptStepProjects(cfg, tr[j], a);
    e := ScriptEvent(sc, tr[j], a);
  }

  ghost predicate IsProjection(cfg: TL.Config, tr: seq<State>, ps: seq<InFlight>) {
    |ps| == |tr| && forall j :: 0 <= j < |tr| ==>
      Shaped(ScriptConfig(cfg), tr[j]) && ps[j] == ScriptBytes(ScriptConfig(cfg), tr[j])
  }

  /** Every run of the worker's scripts is a run of the automaton. */
  lemma {:induction false} ScriptRunProjects(cfg: TL.Config, tr: seq<State>) returns (ps: seq<InFlight>, es: seq<Event>)
    requires cfg.Valid() && Trace(ScriptConfig(cfg), tr)
    ensures AutomatonRun(cfg, ps, es) && IsProjection(cfg, tr, ps)
  {
    var sc, n := ScriptConfig(cfg), |tr| - 1;
    if n == 0 {
      InitInv(sc, tr[0]);
      ps, es := [None], [];
    } else {
      forall i | 0 <= i < n - 1 ensures StepAt(sc, tr[..n], i) {
        assert StepAt(sc, tr, i);
      }
      ps, es := ScriptRunProjects(cfg, tr[..n]);
      var e := ScriptNextProjects(cfg, tr, n - 1);
      ps, es := ps + [ScriptBytes(sc, tr[n])], es + [e];
    }
  }

  // ---- the optimistic protocols' machine --------------------------------------------------------------------

  ghost function WorkerBytes(s: OP.State, w: OP.Id): InFlight {
    if w in s.ws && s.ws[w].pending.Landing? then Some(s.ws[w].pending.bytes) else None
  }

  /** What a step of worker `u` is for worker `w`. */
  ghost function WorkerEvent(cfg: TL.Config, s: OP.State, u: OP.Id, a: OP.Action, w: OP.Id): Event
    requires OP.Shaped(cfg, s) && OP.Enabled(cfg, s, u, a)
  {
    if u != w then Silent
    else
      match a
      case Publish => Posts(TL.Payload(cfg, OP.Edited(cfg, s.ws[w].pc.f, s.ws[w].pc.buf)))
      case BeginRead(_) => if cfg.ZeroesFirst() then Clears else Silent
      case ReadElsewhere => if cfg.ZeroesFirst() then Clears else Silent
      case LandLine => if s.ws[w].pending.landed + 1 == cfg.lines then Completes else Silent
      case _ => Silent
  }

  lemma WorkerStepProjects(cfg: TL.Config, s: OP.State, u: OP.Id, a: OP.Action, w: OP.Id)
    requires OX.LockInv(cfg, s) && OP.Enabled(cfg, s, u, a)
    ensures Follows(cfg, WorkerBytes(s, w), WorkerEvent(cfg, s, u, a, w), WorkerBytes(OP.Apply(cfg, s, u, a), w))
  {
    assert w in s.ws ==> OX.LockOk(cfg, s.ws[w]);
  }

  lemma {:induction false} WorkerRunProjects(cfg: TL.Config, tr: seq<OP.State>, w: OP.Id)
    returns (ps: seq<InFlight>, es: seq<Event>)
    requires OP.Run(cfg, tr)
    ensures cfg.Valid() && AutomatonRun(cfg, ps, es) && |ps| == |tr|
    ensures forall j :: 0 <= j < |tr| ==> ps[j] == WorkerBytes(tr[j], w)
  {
    var n := |tr| - 1;
    if n == 0 {
      ps, es := [None], [];
    } else {
      forall i | 0 <= i < n - 1 ensures OP.StepAt(cfg, tr[..n], i) {
        assert OP.StepAt(cfg, tr, i);
      }
      ps, es := WorkerRunProjects(cfg, tr[..n], w);
      assert OP.StepAt(cfg, tr, n - 1);
      var u, a :| OP.StepBy(cfg, tr[n - 1], u, a, tr[n]);
      OX.RunKeepsLock(cfg, tr, n - 1);
      WorkerStepProjects(cfg, tr[n - 1], u, a, w);
      ps, es := ps + [WorkerBytes(tr[n], w)], es + [WorkerEvent(cfg, tr[n - 1], u, a, w)];
    }
  }
}
