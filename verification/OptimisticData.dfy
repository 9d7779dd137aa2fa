/** The writers of the optimistic protocols lose no update, in any configuration. A store that reaches a pending WRITE
    changes its version word only, so the user's words of an unlocked tuple are always what all updates in their order
    make of them. */
module OptimisticData {
  import opened Words
  import opened TupleLayout
  import opened OptimisticProtocol
  import opened OptimisticLinearizability
  import opened OptimisticExclusion

  ghost predicate SameData(cfg: Config, t: Tuple, u: Tuple)
    requires cfg.Valid()
  {
    |t| == cfg.Size() == |u| && forall i :: 0 <= i < cfg.Size() && cfg.IsData(i) ==> t[i] == u[i]
  }

  /** The update looks at the user's words only. */
  ghost predicate LooksAtData(cfg: Config, f: Update)
    requires cfg.Valid()
  {
    forall t: Tuple, u: Tuple, i: nat :: SameData(cfg, t, u) && i < cfg.Size() && cfg.IsData(i) ==> f(t, i) == f(u, i)
  }

  /** Each published tuple has the user's words of one update of the tuple before it. */
  ghost predicate DataHistory(cfg: Config, hist: seq<Tuple>, ops: seq<Update>)
    requires cfg.Valid()
  {
    && |hist| == |ops| + 1 && (forall k :: 0 <= k < |hist| ==> |hist[k]| == cfg.Size())
    && forall k :: 0 <= k < |ops| && LooksAtData(cfg, ops[k]) ==>
         SameData(cfg, hist[k + 1], AfterCommit(cfg, ops[k], hist[k]))
  }

  ghost predicate MemoryData(cfg: Config, s: State)
    requires cfg.Valid() && DataHistory(cfg, s.hist, s.ops)
  {
    |s.mem| == cfg.Size() &&
    forall i :: 0 <= i < cfg.Size() && cfg.IsData(i) ==> s.mem[i] == s.hist[Epoch(s, i / LINE)][i]
  }

  ghost predicate WorkerData(cfg: Config, s: State, x: Worker)
    requires cfg.Valid() && |s.mem| == cfg.Size() && WorkerShaped(cfg, x) && |s.hist| >= 1
  {
    && (x.pending != Nothing ==> |s.hist| >= 2)
    && (x.pending.Landing? ==> SameData(cfg, x.pending.bytes, s.hist[|s.hist| - 1]))
    && (x.pc.Load? && x.pc.won ==>
         forall i :: 0 <= i < cfg.Size() && cfg.IsData(i) && i / LINE in x.pc.got ==> x.pc.buf[i] == s.mem[i])
  }

  ghost predicate DataInv(cfg: Config, s: State) {
    && LockInv(cfg, s) && DataHistory(cfg, s.hist, s.ops) && MemoryData(cfg, s)
    && (forall w <- s.ws :: WorkerData(cfg, s, s.ws[w]))
  }

  // ---- every step keeps the invariant -----------------------------------------------------------------------

  /** The winner's copy has the user's words of the newest tuple. */
  lemma WinnerHasData(cfg: Config, s: State, w: Id)
    requires DataInv(cfg, s) && Enabled(cfg, s, w, Publish)
    ensures SameData(cfg, s.ws[w].pc.buf, s.hist[Newest(s)])
  {
    var buf := s.ws[w].pc.buf;
    assert WorkerData(cfg, s, s.ws[w]) && LockOk(cfg, s.ws[w]) && s.owner == Some(w);
    forall i | 0 <= i < cfg.Size() && cfg.IsData(i)
      ensures buf[i] == s.hist[Newest(s)][i]
    {
      assert i / LINE in s.ws[w].pc.got;
    }
  }

  /** Two copies with the same words of the user make the same commit of them. */
  lemma CommitsAgree(cfg: Config, f: Update, buf: Tuple, t: Tuple)
    requires cfg.Valid() && SameData(cfg, buf, t) && LooksAtData(cfg, f)
    ensures SameData(cfg, Payload(cfg, Edited(cfg, f, buf)), AfterCommit(cfg, f, t))
  {
    var locked := t[cfg.LockIndex() := 1];
    assert SameData(cfg, buf, locked);
    forall i | 0 <= i < cfg.Size() && cfg.IsData(i)
      ensures Payload(cfg, Edited(cfg, f, buf))[i] == AfterCommit(cfg, f, t)[i]
    {
      assert Edited(cfg, f, buf)[i] == f(buf, i) == f(locked, i) == Edited(cfg, f, locked)[i];
    }
  }

  lemma PublishKeepsHistory(cfg: Config, s: State, w: Id)
    requires DataInv(cfg, s) && Enabled(cfg, s, w, Publish)
    ensures var s' := PublishStep(cfg, s, w);
            && DataHistory(cfg, s'.hist, s'.ops) && |s'.hist| == |s.hist| + 1
            && SameData(cfg, s'.ws[w].pending.bytes, s'.hist[|s.hist|])
  {
    var f, n := s.ws[w].pc.f, Newest(s);
    var payload := Payload(cfg, Edited(cfg, f, s.ws[w].pc.buf));
    WinnerHasData(cfg, s, w);
    assert SameData(cfg, payload, payload[cfg.LockIndex() := 0]);
    if LooksAtData(cfg, f) {
      CommitsAgree(cfg, f, s.ws[w].pc.buf, s.hist[n]);
    }
  }

  lemma PublishKeepsMemory(cfg: Config, s: State, w: Id)
    requires DataInv(cfg, s) && Enabled(cfg, s, w, Publish)
    requires DataHistory(cfg, PublishStep(cfg, s, w).hist, PublishStep(cfg, s, w).ops)
    ensures MemoryData(cfg, PublishStep(cfg, s, w))
  {
    var s', n := PublishStep(cfg, s, w), Newest(s);
    assert LockOk(cfg, s.ws[w]) && s.owner == Some(w);
    forall l | 0 <= l < cfg.lines ensures Epoch(s', l) == n == Epoch(s, l) {}
  }

  lemma PublishKeepsData(cfg: Config, s: State, w: Id)
    requires DataInv(cfg, s) && Enabled(cfg, s, w, Publish)
    ensures DataInv(cfg, PublishStep(cfg, s, w))
  {
    var s' := PublishStep(cfg, s, w);
    StepKeepsLock(cfg, s, w, Publish);
    PublishKeepsHistory(cfg, s, w);
    PublishKeepsMemory(cfg, s, w);
    forall u | u in s'.ws ensures WorkerData(cfg, s', s'.ws[u]) {
      if u != w {
        assert WorkerData(cfg, s, s.ws[u]) && s.owner == Some(w) && !Holds(s.ws[u]);
      }
    }
  }

  lemma LandEpochs(cfg: Config, s: State, w: Id)
    requires DataInv(cfg, s) && Enabled(cfg, s, w, LandLine)
    ensures |LandStep(cfg, s, w).hist| >= 1
    ensures var s', k := LandStep(cfg, s, w), s.ws[w].pending.landed;
            forall l :: 0 <= l < cfg.lines ==> Epoch(s', l) == if l == k then Newest(s) else Epoch(s, l)
  {
    assert WorkerData(cfg, s, s.ws[w]) && LockOk(cfg, s.ws[w]) && s.owner == Some(w);
  }

  lemma LandKeepsMemory(cfg: Config, s: State, w: Id)
    requires DataInv(cfg, s) && Enabled(cfg, s, w, LandLine)
    ensures MemoryData(cfg, LandStep(cfg, s, w))
  {
    LandEpochs(cfg, s, w);
    assert WorkerData(cfg, s, s.ws[w]);
  }

  lemma LandKeepsWorkers(cfg: Config, s: State, w: Id, u: Id)
    requires DataInv(cfg, s) && Enabled(cfg, s, w, LandLine) && u in LandStep(cfg, s, w).ws
    requires |LandStep(cfg, s, w).mem| == cfg.Size() && WorkerShaped(cfg, LandStep(cfg, s, w).ws[u])
    ensures WorkerData(cfg, LandStep(cfg, s, w), LandStep(cfg, s, w).ws[u])
  {
    assert WorkerData(cfg, s, s.ws[w]) && LockOk(cfg, s.ws[w]) && s.owner == Some(w);
    assert WorkerData(cfg, s, s.ws[u]) && (u != w ==> !Holds(s.ws[u]));
  }

  lemma LandKeepsData(cfg: Config, s: State, w: Id)
    requires DataInv(cfg, s) && Enabled(cfg, s, w, LandLine)
    ensures DataInv(cfg, LandStep(cfg, s, w))
  {
    var s' := LandStep(cfg, s, w);
    StepKeepsLock(cfg, s, w, LandLine);
    LandKeepsMemory(cfg, s, w);
    forall u | u in s'.ws ensures WorkerData(cfg, s', s'.ws[u]) {
      LandKeepsWorkers(cfg, s, w, u);
    }
  }

  /** Zeroing reaches the version and the lock word. */
  lemma OverwrittenKeepsData(cfg: Config, p: Pending, t: Tuple)
    requires cfg.Valid() && p.Landing? && SameData(cfg, p.bytes, t)
    ensures Overwritten(cfg, p).Landing? && SameData(cfg, Overwritten(cfg, p).bytes, t)
  {
  }

  lemma LoadKeepsWorkerData(cfg: Config, s: State, w: Id, l: nat)
    requires DataInv(cfg, s) && Enabled(cfg, s, w, LoadLine(l))
    ensures var s' := Apply(cfg, s, w, LoadLine(l)); WorkerShaped(cfg, s'.ws[w]) && WorkerData(cfg, s', s'.ws[w])
  {
    assert WorkerData(cfg, s, s.ws[w]);
  }

  /** What any other step can make of its worker. */
  lemma OtherSteps(cfg: Config, s: State, w: Id, a: Action)
    requires Shaped(cfg, s) && Enabled(cfg, s, w, a) && !a.Publish? && !a.LandLine? && !a.LoadLine?
    requires s.ws[w].pending.Landing? ==> |s.ws[w].pending.bytes| == cfg.Size()
    ensures var x, x' := s.ws[w], Apply(cfg, s, w, a).ws[w];
            && (x'.pending == x.pending || x'.pending == Overwritten(cfg, x.pending) || x'.pending == Nothing)
            && (x'.pc.Load? ==> x'.pc.got == {} || (x.pending.Releasing? && x'.pc == x.pc))
  {
  }

  lemma OtherKeepsWorkerData(cfg: Config, s: State, w: Id, a: Action)
    requires DataInv(cfg, s) && Enabled(cfg, s, w, a) && !a.Publish? && !a.LandLine?
    requires var s' := Apply(cfg, s, w, a); Shaped(cfg, s') && WorkerShaped(cfg, s'.ws[w]) && s'.hist == s.hist
    ensures WorkerData(cfg, Apply(cfg, s, w, a), Apply(cfg, s, w, a).ws[w])
  {
    if a.LoadLine? {
      LoadKeepsWorkerData(cfg, s, w, a.line);
    } else {
      var p := s.ws[w].pending;
      assert WorkerData(cfg, s, s.ws[w]) && LockOk(cfg, s.ws[w]);
      OtherSteps(cfg, s, w, a);
      if p.Landing? {
        OverwrittenKeepsData(cfg, p, s.hist[|s.hist| - 1]);
      }
    }
  }

  /** Every other step leaves the user's words in memory ... */
  lemma OtherKeepsMemory(cfg: Config, s: State, w: Id, a: Action)
    requires DataInv(cfg, s) && Enabled(cfg, s, w, a) && !a.Publish? && !a.LandLine?
    ensures var s' := Apply(cfg, s, w, a); s'.hist == s.hist && s'.ops == s.ops && SameData(cfg, s'.mem, s.mem)
  {
  }

  /** ... and the number of each line's tuple. */
  lemma OtherKeepsEpochs(cfg: Config, s: State, w: Id, a: Action)
    requires DataInv(cfg, s) && Enabled(cfg, s, w, a) && !a.Publish? && !a.LandLine?
    ensures Apply(cfg, s, w, a).hist == s.hist
    ensures forall l :: Epoch(Apply(cfg, s, w, a), l) == Epoch(s, l)
  {
    assert LockOk(cfg, s.ws[w]) && (Holds(s.ws[w]) ==> s.owner == Some(w));
  }

  lemma OtherKeepsData(cfg: Config, s: State, w: Id, a: Action)
    requires DataInv(cfg, s) && Enabled(cfg, s, w, a) && !a.Publish? && !a.LandLine?
    ensures DataInv(cfg, Apply(cfg, s, w, a))
  {
    var s' := Apply(cfg, s, w, a);
    StepKeepsLock(cfg, s, w, a);
    OtherKeepsMemory(cfg, s, w, a);
    OtherKeepsEpochs(cfg, s, w, a);
    OtherKeepsWorkerData(cfg, s, w, a);
    forall u | u in s'.ws ensures WorkerData(cfg, s', s'.ws[u]) {
      if u != w {
        OtherWorkers(cfg, s, w, a, u);
        assert WorkerData(cfg, s, s.ws[u]);
      }
    }
  }

  lemma InitData(cfg: Config, s: State)
    requires Init(cfg, s)
    ensures DataInv(cfg, s)
  {
  }

  lemma {:induction false} RunKeepsData(cfg: Config, tr: seq<State>, j: nat)
    requires Run(cfg, tr) && j < |tr|
    ensures DataInv(cfg, tr[j])
  {
    if j == 0 {
      InitData(cfg, tr[0]);
    } else {
      RunKeepsData(cfg, tr, j - 1);
      assert StepAt(cfg, tr, j - 1);
      NextKeepsData(cfg, tr[j - 1], tr[j]);
    }
  }

  lemma NextKeepsData(cfg: Config, s: State, s': State)
    requires DataInv(cfg, s) && Next(cfg, s, s')
    ensures DataInv(cfg, s')
  {
    var w, a :| StepBy(cfg, s, w, a, s');
    match a
    case Publish => PublishKeepsData(cfg, s, w);
    case LandLine => LandKeepsData(cfg, s, w);
    case _ => OtherKeepsData(cfg, s, w, a);
  }

  // ---- nothing is lost --------------------------------------------------------------------------------------

  lemma {:induction false} DataIsReplay(cfg: Config, hist: seq<Tuple>, ops: seq<Update>, k: nat)
    requires cfg.Valid() && DataHistory(cfg, hist, ops) && k < |hist| && hist[0] == seq(cfg.Size(), _ => 0)
    requires forall n :: 0 <= n < |ops| ==> LooksAtData(cfg, ops[n])
    ensures SameData(cfg, hist[k], Replay(cfg, ops[..k]))
  {
    if k > 0 {
      var f, t, u := ops[k - 1], hist[k - 1], Replay(cfg, ops[..k - 1]);
      DataIsReplay(cfg, hist, ops, k - 1);
      assert ops[..k][..k - 1] == ops[..k - 1];
      CommitsAgree(cfg, f, t, u);
      CommitsAgree(cfg, f, t, t);
      assert SameData(cfg, hist[k], AfterCommit(cfg, f, t));
    }
  }

  /** Writers lose nothing, in every configuration: the user's words of published tuple number k are the replay of the
      first k updates, and those of an unlocked tuple the replay of all. */
  lemma DataIsNeverLost(cfg: Config, tr: seq<State>, j: nat)
    requires Run(cfg, tr) && j < |tr| && forall n :: 0 <= n < |tr[j].ops| ==> LooksAtData(cfg, tr[j].ops[n])
    ensures |tr[j].hist| == |tr[j].ops| + 1
    ensures forall k :: 0 <= k < |tr[j].hist| ==> SameData(cfg, tr[j].hist[k], Replay(cfg, tr[j].ops[..k]))
    ensures tr[j].owner == None ==> SameData(cfg, tr[j].mem, Replay(cfg, tr[j].ops))
  {
    RunKeepsData(cfg, tr, j);
    HistoryPrefix(cfg, tr, 0, j);
    var s := tr[j];
    forall k | 0 <= k < |s.hist| ensures SameData(cfg, s.hist[k], Replay(cfg, s.ops[..k])) {
      DataIsReplay(cfg, s.hist, s.ops, k);
    }
    assert s.ops[..|s.ops|] == s.ops;
    if s.owner == None {
      forall l ensures Epoch(s, l) == Newest(s) {}
    }
  }

  /** The experiment's updates look at the user's words only. */
  lemma IncrementLooksAtData(cfg: Config, f: Update)
    requires cfg.Valid() && IsIncrement(f)
    ensures LooksAtData(cfg, f)
  {
    forall t: Tuple, u: Tuple, i: nat | SameData(cfg, t, u) && i < cfg.Size() && cfg.IsData(i)
      ensures f(t, i) == f(u, i)
    {
      assert f(t, i) == Incremented(t)[i] && f(u, i) == Incremented(u)[i];
    }
  }
}
