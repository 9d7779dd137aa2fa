/** Exactly when the optimistic protocols keep their promises. Where fewer than 2^64 commits overlap, accepted reads are
    atomic and the consistency experiment never throws if and only if no store of a worker reaches a copy from which
    one of its WRITEs is pending. So it is with the version words of an unlocked tuple; the user's words are the replay
    of the updates in any case (`OptimisticData`). However many commits overlap, reads are atomic with FaRM and a single
    line only, and the experiment never throws with FaRM or a single line only. */
module OptimisticPromises {
  import opened Words
  import opened TupleLayout
  import opened OptimisticProtocol
  import opened OptimisticLinearizability
  import opened OptimisticCopies
  import opened OptimisticWrap
  import opened OptimisticThrow

  /** Fewer than 2^64 commits overlap. */
  ghost predicate AcceptedInBound(s: State, w: Id) {
    w in s.ws && s.ws[w].pc.Accepted? && s.ws[w].pc.rd.high - s.ws[w].pc.rd.low < WORD
  }

  /** The accepted copy is the committed tuple of an instant of the run. */
  ghost predicate IsCommitted(tr: seq<State>, j: nat, t: Tuple)
    requires j < |tr|
  {
    exists i :: 0 <= i < j && |tr[i].hist| >= 1 && Committed(tr[i]) == t
  }

  ghost predicate ReadsAtomically(tr: seq<State>) {
    forall j, w :: 0 <= j < |tr| && AcceptedInBound(tr[j], w) ==> IsCommitted(tr, j, tr[j].ws[w].pc.rd.buf)
  }

  /** run_check: no accepted reader that fewer than 2^64 commits overlap reaches the throw. */
  ghost predicate NeverThrowsInBound(tr: seq<State>) {
    forall j, w :: 0 <= j < |tr| && AcceptedInBound(tr[j], w) ==>
      |tr[j].ws[w].pc.rd.buf| >= LINE && FieldsEqual(tr[j].ws[w].pc.rd.buf)
  }

  ghost predicate OnlyIncrements(tr: seq<State>) {
    forall j, k :: 0 <= j < |tr| && 0 <= k < |tr[j].ops| ==> IsIncrement(tr[j].ops[k])
  }

  ghost predicate WholeTupleIsReplay(cfg: Config, tr: seq<State>)
    requires cfg.Valid()
  {
    forall j :: 0 <= j < |tr| && tr[j].owner == None ==> tr[j].mem == Replay(cfg, tr[j].ops)
  }

  /** A copy that is none of the published tuples was never committed. */
  lemma NotCommitted(cfg: Config, tr: seq<State>, t: Tuple)
    requires Run(cfg, tr) && t !in Last(tr).hist
    ensures !IsCommitted(tr, |tr| - 1, t)
  {
    forall i | 0 <= i < |tr| - 1 && |tr[i].hist| >= 1
      ensures Committed(tr[i]) != t
    {
      HistoryPrefix(cfg, tr, i, |tr| - 1);
      assert Committed(tr[i]) in tr[i].hist;
    }
  }

  /** Accepted reads are atomic in every run if and only if no store reaches a pending WRITE: with FaRM, with a header,
      with alternating copies, or with a tuple that is sent inline. */
  lemma ReadsAtomicallyExactly(cfg: Config)
    requires cfg.Valid()
    ensures (forall tr: seq<State> :: Run(cfg, tr) ==> ReadsAtomically(tr)) <==> cfg.KeepsPayload()
  {
    if cfg.KeepsPayload() {
      forall tr: seq<State>, j: nat, w: Id | Run(cfg, tr) && j < |tr| && AcceptedInBound(tr[j], w)
        ensures IsCommitted(tr, j, tr[j].ws[w].pc.rd.buf)
      {
        AcceptedReadIsLinearizable(cfg, tr, j, w);
      }
    } else {
      var tr := TornRun(cfg);
      var j := |tr| - 1;
      var t := tr[j].ws[1].pc.rd.buf;
      assert tr[j].hist[0][11] == 0 && t[11] == 1 && tr[j].hist[1][3] == 1 && t[3] == 0;
      NotCommitted(cfg, tr, t);
      assert AcceptedInBound(tr[j], 1);
    }
  }

  /** However many commits overlap. */
  ghost predicate AlwaysReadsAtomically(tr: seq<State>) {
    forall j, w :: 0 <= j < |tr| && w in tr[j].ws && tr[j].ws[w].pc.Accepted? ==>
      IsCommitted(tr, j, tr[j].ws[w].pc.rd.buf)
  }

  /** Without a bound on the commits that overlap, accepted reads are atomic in every run if and only if the protocol is
      FaRM and the tuple a single line. */
  lemma UnboundedExactly(cfg: Config)
    requires cfg.Valid()
    ensures (forall tr: seq<State> :: Run(cfg, tr) ==> AlwaysReadsAtomically(tr)) <==>
      cfg.consistency.FaRM? && cfg.lines == 1
  {
    if cfg.consistency.FaRM? && cfg.lines == 1 {
      forall tr: seq<State>, j: nat, w: Id | Run(cfg, tr) && j < |tr| && w in tr[j].ws && tr[j].ws[w].pc.Accepted?
        ensures IsCommitted(tr, j, tr[j].ws[w].pc.rd.buf)
      {
        AcceptedReadIsLinearizable(cfg, tr, j, w);
      }
    } else if cfg.KeepsPayload() {
      var tr := ProvisoIsSharp(cfg);
      var s := Last(tr);
      NotCommitted(cfg, tr, s.ws[1].pc.rd.buf);
      assert 1 in s.ws && s.ws[1].pc.Accepted? && !AlwaysReadsAtomically(tr);
    } else {
      ReadsAtomicallyExactly(cfg);
      var tr: seq<State> :| Run(cfg, tr) && !ReadsAtomically(tr);
      assert !AlwaysReadsAtomically(tr);
    }
  }

  lemma OpsGrow(cfg: Config, tr: seq<State>)
    requires Run(cfg, tr)
    ensures forall j, k :: 0 <= j < |tr| && 0 <= k < |tr[j].ops| ==> tr[j].ops[k] in Last(tr).ops
  {
    forall j | 0 <= j < |tr|
      ensures tr[j].ops <= Last(tr).ops
    {
      HistoryPrefix(cfg, tr, j, |tr| - 1);
    }
  }

  /** Where fewer than 2^64 commits overlap, the consistency experiment never throws, in every run of increments, if and
      only if the same holds. */
  lemma NeverThrowsExactly(cfg: Config)
    requires cfg.Valid()
    ensures (forall tr: seq<State> :: Run(cfg, tr) && OnlyIncrements(tr) ==> NeverThrowsInBound(tr)) <==>
      cfg.KeepsPayload()
  {
    if cfg.KeepsPayload() {
      forall tr: seq<State>, j: nat, w: Id | Run(cfg, tr) && OnlyIncrements(tr) && j < |tr| && AcceptedInBound(tr[j], w)
        ensures |tr[j].ws[w].pc.rd.buf| >= LINE && FieldsEqual(tr[j].ws[w].pc.rd.buf)
      {
        ConsistencyCheckNeverFails(cfg, tr, j, w);
      }
    } else {
      var tr := TornRun(cfg);
      var j := |tr| - 1;
      OpsGrow(cfg, tr);
      assert IsIncrement(INCREMENT);
      assert AcceptedInBound(tr[j], 1) && tr[j].ws[1].pc.rd.buf[11] == 1 && IsField(11);
    }
  }

  /** No accepted reader at all. */
  ghost predicate NeverThrows(tr: seq<State>) {
    forall j, w :: 0 <= j < |tr| && w in tr[j].ws && tr[j].ws[w].pc.Accepted? ==>
      |tr[j].ws[w].pc.rd.buf| >= LINE && FieldsEqual(tr[j].ws[w].pc.rd.buf)
  }

  /** However many commits overlap, the consistency experiment never throws, in every run of increments, if and only if
      the protocol is FaRM or the tuple a single line. */
  lemma UnboundedNeverThrowsExactly(cfg: Config)
    requires cfg.Valid()
    ensures (forall tr: seq<State> :: Run(cfg, tr) && OnlyIncrements(tr) ==> NeverThrows(tr)) <==>
      cfg.consistency.FaRM? || cfg.lines == 1
  {
    if Unbounded(cfg) {
      forall tr: seq<State>, j: nat, w: Id
        | Run(cfg, tr) && OnlyIncrements(tr) && j < |tr| && w in tr[j].ws && tr[j].ws[w].pc.Accepted?
        ensures |tr[j].ws[w].pc.rd.buf| >= LINE && FieldsEqual(tr[j].ws[w].pc.rd.buf)
      {
        ConsistencyCheckNeverFails(cfg, tr, j, w);
      }
    } else if cfg.KeepsPayload() {
      var tr := IncrementsThrow(cfg);
      OpsGrow(cfg, tr);
      assert 1 in Last(tr).ws && Last(tr).ws[1].pc.Accepted? && !NeverThrows(tr);
    } else {
      NeverThrowsExactly(cfg);
      var tr: seq<State> :| Run(cfg, tr) && OnlyIncrements(tr) && !NeverThrowsInBound(tr);
      assert !NeverThrows(tr);
    }
  }

  /** An unlocked tuple is the replay of all updates down to its version words, in every run, if and only if the same
      holds. It is a version word that is lost otherwise. */
  lemma WholeTupleIsReplayExactly(cfg: Config)
    requires cfg.Valid()
    ensures (forall tr: seq<State> :: Run(cfg, tr) ==> WholeTupleIsReplay(cfg, tr)) <==> cfg.KeepsPayload()
  {
    if cfg.KeepsPayload() {
      forall tr: seq<State>, j: nat | Run(cfg, tr) && j < |tr| && tr[j].owner == None
        ensures tr[j].mem == Replay(cfg, tr[j].ops)
      {
        WritersAreSerial(cfg, tr, j);
      }
    } else {
      var tr := TornRun(cfg);
      var s, v := Last(tr), cfg.VersionIndex();
      var zeros := Replay(cfg, []);
      assert s.ops[..0] == [] && Replay(cfg, s.ops) == AfterCommit(cfg, INCREMENT, zeros);
      AfterCommitBumps(cfg, INCREMENT, zeros, v);
      assert s.mem[v] == 0;
    }
  }
}
