/** What the tail lock promises over whole runs of one tuple. */
module TailLockRuns {
  import opened Words
  import opened TailLock

  /** In every reachable state an even lock word is exactly twice the number of admitted readers and there is no
      writer; an odd one means exactly one writer and no admitted reader. The 2s of the readers that were turned
      away are gone with the writer's WRITE: the word a release leaves behind is 0. */
  lemma LockWordInRuns(cfg: Config, tr: seq<State>, j: nat)
    requires Run(cfg, tr) && j < |tr|
    ensures Shaped(tr[j])
    ensures forall w <- tr[j].ws :: w in tr[j].admitted <==> IsAdmitted(cfg, tr[j].ws[w])
    ensures tr[j].lock % 2 == 0 ==>
      tr[j].lock == 2 * |tr[j].admitted| && forall w <- tr[j].ws :: !IsOwner(cfg, tr[j].ws[w])
    ensures tr[j].lock % 2 == 1 ==>
      tr[j].admitted == {} && exists w :: w in tr[j].ws && IsOwner(cfg, tr[j].ws[w])
    ensures forall u, w :: u in tr[j].ws && w in tr[j].ws && IsOwner(cfg, tr[j].ws[u]) && IsOwner(cfg, tr[j].ws[w]) ==>
      u == w
    ensures forall w <- tr[j].ws :: Enabled(cfg, tr[j], w, ExecRelease) ==> Apply(cfg, tr[j], w, ExecRelease).lock == 0
  {
    RunInv(cfg, tr, j);
    var s := tr[j];
    LockWord(cfg, s);
    forall w | w in s.ws ensures WorkerOk(cfg, s, w) {}
    if s.owner.Some? {
      assert WorkerOk(cfg, s, s.owner.value);
    }
  }

  /** Only a release changes the counter, and an admitted reader has read it, in every step of every run. */
  lemma RunRefinesCounter(cfg: Config, tr: seq<State>, i: nat) returns (w: Id, a: Action)
    requires Run(cfg, tr) && i + 1 < |tr|
    ensures StepBy(cfg, tr[i], w, a, tr[i + 1])
    ensures tr[i + 1].val == tr[i].val + (if a.ExecRelease? then 1 else 0)
    ensures a.ReleaseShared? ==> AllAre(tr[i].ws[w].buf[..LOCK], tr[i].val % WORD)
    ensures tr[i].owner == None ==> AllAre(tr[i].data, tr[i].val % WORD)
  {
    RunInv(cfg, tr, i);
    assert StepAt(cfg, tr, i);
    w, a :| StepBy(cfg, tr[i], w, a, tr[i + 1]);
    StepRefinesCounter(cfg, tr[i], w, a);
  }
}
