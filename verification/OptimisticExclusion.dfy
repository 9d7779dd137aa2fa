/** Mutual exclusion of the optimistic protocols' writers. It holds in every configuration: no store that can reach a
    pending WRITE changes the lock word that the WRITE carries. */
module OptimisticExclusion {
  import opened Words
  import opened TupleLayout
  import opened OptimisticProtocol

  ghost predicate LockOk(cfg: Config, x: Worker)
    requires cfg.Valid() && WorkerShaped(cfg, x)
  {
    && (x.pending != Nothing ==> !x.pc.Load?)
    && (x.pc.Load? && x.pc.won && cfg.LockIndex() / LINE in x.pc.got ==> x.pc.buf[cfg.LockIndex()] == 1)
    && match x.pending
       case Nothing => true
       case Landing(_, landed, bytes) =>
         landed < cfg.lines && bytes[cfg.LockIndex()] == (if cfg.position.Header? then 1 else 0)
       case Releasing(_) => cfg.position.Header?
  }

  ghost predicate LockInv(cfg: Config, s: State) {
    && Shaped(cfg, s) && OwnerInv(s)
    && s.mem[cfg.LockIndex()] == (if s.owner.None? then 0 else 1)
    && (forall w <- s.ws :: WorkerShaped(cfg, s.ws[w]) && LockOk(cfg, s.ws[w]))
  }

  lemma PublishKeepsLock(cfg: Config, s: State, w: Id)
    requires LockInv(cfg, s) && Enabled(cfg, s, w, Publish)
    ensures LockOk(cfg, PublishStep(cfg, s, w).ws[w])
  {
    assert LockOk(cfg, s.ws[w]) && cfg.LockIndex() / LINE in s.ws[w].pc.got;
    assert !cfg.IsData(cfg.LockIndex()) && !cfg.IsVersion(cfg.LockIndex());
  }

  lemma WorkerKeepsLock(cfg: Config, s: State, w: Id, a: Action)
    requires LockInv(cfg, s) && Enabled(cfg, s, w, a)
    requires WorkerShaped(cfg, Apply(cfg, s, w, a).ws[w])
    ensures LockOk(cfg, Apply(cfg, s, w, a).ws[w])
  {
    assert LockOk(cfg, s.ws[w]) && (Holds(s.ws[w]) ==> s.owner == Some(w));
    if a.Publish? {
      PublishKeepsLock(cfg, s, w);
    }
  }

  /** Lock word, owner and holder change together. */
  lemma StepKeepsWord(cfg: Config, s: State, w: Id, a: Action)
    requires LockInv(cfg, s) && Enabled(cfg, s, w, a)
    ensures var s' := Apply(cfg, s, w, a);
            && |s'.mem| == cfg.Size() && s'.mem[cfg.LockIndex()] == (if s'.owner.None? then 0 else 1)
            && s'.ws == s.ws[w := s'.ws[w]]
            && s'.owner == (if Holds(s'.ws[w]) then Some(w) else if Holds(s.ws[w]) then None else s.owner)
            && (Holds(s'.ws[w]) ==> s.owner == None || s.owner == Some(w))
  {
    assert LockOk(cfg, s.ws[w]) && (Holds(s.ws[w]) ==> s.owner == Some(w));
  }

  lemma StepKeepsLock(cfg: Config, s: State, w: Id, a: Action)
    requires LockInv(cfg, s) && Enabled(cfg, s, w, a)
    ensures LockInv(cfg, Apply(cfg, s, w, a))
  {
    var s' := Apply(cfg, s, w, a);
    StepKeepsShape(cfg, s, w, a);
    StepKeepsWord(cfg, s, w, a);
    WorkerKeepsLock(cfg, s, w, a);
    forall u | u in s'.ws
      ensures WorkerShaped(cfg, s'.ws[u]) && LockOk(cfg, s'.ws[u])
    {
      assert u == w || s'.ws[u] == s.ws[u];
    }
  }

  lemma {:induction false} RunKeepsLock(cfg: Config, tr: seq<State>, j: nat)
    requires Run(cfg, tr) && j < |tr|
    ensures LockInv(cfg, tr[j])
  {
    if j > 0 {
      RunKeepsLock(cfg, tr, j - 1);
      assert StepAt(cfg, tr, j - 1);
      var w, a :| StepBy(cfg, tr[j - 1], w, a, tr[j]);
      StepKeepsLock(cfg, tr[j - 1], w, a);
    }
  }

  /** Between a successful CAS and the release nobody else holds the lock, also where copies are hit. */
  lemma AtMostOneHolder(cfg: Config, tr: seq<State>, j: nat, u: Id, w: Id)
    requires Run(cfg, tr) && j < |tr| && u in tr[j].ws && w in tr[j].ws
    requires Holds(tr[j].ws[u]) && Holds(tr[j].ws[w])
    ensures u == w && |tr[j].mem| == cfg.Size() && tr[j].mem[cfg.LockIndex()] == 1
  {
    RunKeepsLock(cfg, tr, j);
  }
}
