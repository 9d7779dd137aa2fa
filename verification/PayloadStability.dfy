/** Exactly when every WRITE sends what was posted, in every run: the runs in which a reader's store, a READ of the
    second queue pair or a READ left over from an earlier operation reaches a copy from which a WRITE is pending. */
module PayloadStability {
  import opened Words
  import opened SendScripts
  import opened SendQueue
  import opened SendPayload
  import opened SendRuns
  import TL = TupleLayout

  // ---- one operation of a writer ----------------------------------------------------------------------------

  /** Since `s`, the writer has got to instruction `k` of its script, and the first queue is drained. */
  ghost predicate Writing(cfg: Config, s: State, s': State, k: nat) {
    && Shaped(cfg, s') && s'.op == Some(Writer) && s'.pc == k && s'.tot == 0 && s'.cur == s.cur
    && |s'.qs| == |s.qs| && s'.qs == s.qs[0 := s'.qs[0]] && s'.qs[0].done == |s'.qs[0].log|
  }

  lemma WriterLocks(cfg: Config, tr: seq<State>) returns (longer: seq<State>)
    requires Outside(cfg, tr)
    ensures Trace(cfg, longer) && Writing(cfg, Last(tr), Last(longer), 2)
  {
    longer := Complete(cfg, tr, 0);
    longer := Extend(cfg, longer, Begin(Writer));
    longer := Extend(cfg, longer, Run([]));
    longer := Extend(cfg, longer, Run([]));
    longer := Complete(cfg, longer, 0);
  }

  lemma WriterLoads(cfg: Config, tr: seq<State>, s: State) returns (longer: seq<State>)
    requires Trace(cfg, tr) && Writing(cfg, s, Last(tr), 2)
    ensures Trace(cfg, longer) && Writing(cfg, s, Last(longer), 4)
  {
    longer := PollServed(cfg, tr, 0);
    longer := Extend(cfg, longer, Run([]));
  }

  /** The position of the WRITE. */
  function WriteAt(cfg: Config): nat {
    if cfg.footer && !cfg.protocol.ReaderWriter? then 7 else 6
  }

  lemma WriterEdits(cfg: Config, tr: seq<State>, s: State) returns (longer: seq<State>)
    requires Trace(cfg, tr) && Writing(cfg, s, Last(tr), 4)
    ensures Trace(cfg, longer) && Writing(cfg, s, Last(longer), WriteAt(cfg))
    ensures Last(longer).bufs[s.cur] == Copy(cfg, 1)
  {
    longer := Extend(cfg, tr, Run(Copy(cfg, 1)));
    longer := Extend(cfg, longer, Run(Copy(cfg, 1)));
    if WriteAt(cfg) == 7 {
      longer := Extend(cfg, longer, Run(Copy(cfg, 1)));
    }
  }

  /** WRITE number `i` of the first queue, of version 1, is pending from copy `b`. */
  ghost predicate IsPending(cfg: Config, s: State, i: nat, b: nat) {
    && Shaped(cfg, s) && b < cfg.buffers && s.qs[0].done <= i < |s.qs[0].log|
    && s.qs[0].log[i].verb.Write? && s.qs[0].log[i].buf == b && s.qs[0].log[i].bytes == Copy(cfg, 1)
  }

  lemma WriterReturns(cfg: Config, tr: seq<State>, s: State) returns (longer: seq<State>, i: nat)
    requires Trace(cfg, tr) && Writing(cfg, s, Last(tr), WriteAt(cfg)) && Last(tr).bufs[s.cur] == Copy(cfg, 1)
    ensures Outside(cfg, longer) && IsPending(cfg, Last(longer), i, s.cur)
    ensures var s' := Last(longer);
            s'.cur == NextBuffer(cfg, s.cur) && |s'.qs| == |s.qs| && s'.qs == s.qs[0 := s'.qs[0]]
  {
    i := |Last(tr).qs[0].log|;
    longer := Extend(cfg, tr, Run([]));
    if WriteAt(cfg) == 6 {
      longer := Extend(cfg, longer, Run([]));
    }
    longer := Extend(cfg, longer, Return);
  }

  /** A whole operation of the writer, which leaves its WRITE pending. */
  lemma WriterPosts(cfg: Config, tr: seq<State>) returns (longer: seq<State>, i: nat)
    requires Outside(cfg, tr)
    ensures Outside(cfg, longer) && IsPending(cfg, Last(longer), i, Last(tr).cur)
    ensures var s, s' := Last(tr), Last(longer);
            s'.cur == NextBuffer(cfg, s.cur) && |s'.qs| == |s.qs| && s'.qs == s.qs[0 := s'.qs[0]]
  {
    longer := WriterLocks(cfg, tr);
    longer := WriterLoads(cfg, longer, Last(tr));
    longer := WriterEdits(cfg, longer, Last(tr));
    longer, i := WriterReturns(cfg, longer, Last(tr));
  }

  // ---- what reaches its WRITE -------------------------------------------------------------------------------

  /** The copy of a pending WRITE has changed. */
  lemma Reached(cfg: Config, s: State, i: nat, b: nat)
    requires IsPending(cfg, s, i, b) && !cfg.Inlines() && s.bufs[b][cfg.Size() - 2] == 0
    ensures !Stable(cfg, s)
  {
    assert Sends(cfg, s.qs[0].log[i], s.bufs)[cfg.Size() - 2] != s.qs[0].log[i].bytes[cfg.Size() - 2];
    assert !QueueStable(cfg, s.qs[0], s.bufs);
  }

  /** With a single copy of two lines or more, V2 Footer's zeroing does. */
  lemma ZeroingHitsPendingWrite(cfg: Config) returns (tr: seq<State>)
    requires cfg.Valid() && cfg.ZeroesFirst() && cfg.buffers == 1 && !cfg.Inlines()
    ensures Trace(cfg, tr) && Shaped(cfg, Last(tr)) && !Stable(cfg, Last(tr))
  {
    var i;
    tr := Start(cfg);
    tr, i := WriterPosts(cfg, tr);
    tr := Extend(cfg, tr, Begin(Reader(0)));
    tr := Extend(cfg, tr, Run([]));
    Reached(cfg, Last(tr), i, 0);
  }

  /** The oldest request of the second queue is a READ into the copy of a pending WRITE. */
  lemma ReadReaches(cfg: Config, tr: seq<State>, i: nat, b: nat) returns (longer: seq<State>)
    requires Trace(cfg, tr) && IsPending(cfg, Last(tr), i, b) && !cfg.Inlines()
    requires |Last(tr).qs| == 2 && Late(Last(tr).qs[1]) && Last(tr).qs[1].log[Last(tr).qs[1].done].buf == b
    ensures Trace(cfg, longer) && Shaped(cfg, Last(longer)) && !Stable(cfg, Last(longer))
  {
    longer := Extend(cfg, tr, CardStore(1, Copy(cfg, 0)));
    Reached(cfg, Last(longer), i, b);
  }

  /** With two queue pairs, a batch above 1 and a single copy of two lines or more, the next reader's READ does: it is
      on the other queue than the WRITE. */
  lemma OtherQueueHitsPendingWrite(cfg: Config) returns (tr: seq<State>)
    requires cfg.Valid() && cfg.protocol.RcTwoQueues? && cfg.batch > 1 && cfg.buffers == 1 && !cfg.Inlines()
    ensures Trace(cfg, tr) && Shaped(cfg, Last(tr)) && !Stable(cfg, Last(tr))
  {
    var i;
    tr := Start(cfg);
    tr, i := WriterPosts(cfg, tr);
    TwoQueuesScript(cfg);
    tr := Extend(cfg, tr, Begin(Reader(0)));
    tr := Extend(cfg, tr, Run([]));
    tr := Extend(cfg, tr, Run([]));
    tr := ReadReaches(cfg, tr, i, 0);
  }

  /** Writers' operations until copy `b` is the current one again. */
  function Distance(cfg: Config, cur: nat, b: nat): nat
    requires cur < cfg.buffers && b < cfg.buffers
  {
    if cur <= b then b - cur else b + cfg.buffers - cur
  }

  lemma {:induction false} ComeBack(cfg: Config, tr: seq<State>, b: nat) returns (longer: seq<State>)
    requires Outside(cfg, tr) && b < cfg.buffers && |Last(tr).qs| == 2
    ensures Outside(cfg, longer) && Last(longer).cur == b
    ensures |Last(longer).qs| == 2 && Last(longer).qs[1] == Last(tr).qs[1]
    decreases Distance(cfg, Last(tr).cur, b)
  {
    longer := tr;
    if Last(tr).cur != b {
      var i;
      longer, i := WriterPosts(cfg, longer);
      longer := ComeBack(cfg, longer, b);
    }
  }

  /** Where a reader's check does not wait for the data, a READ of an attempt can be left over when `lock` and `unlock`
      have returned. */
  lemma LateRead(cfg: Config) returns (tr: seq<State>)
    requires cfg.Valid() && !AwaitsData(cfg)
    ensures Outside(cfg, tr) && |Last(tr).qs| == 2 && Late(Last(tr).qs[1])
  {
    tr := LateAtCheck(cfg);
    tr := Leave(cfg, tr);
  }

  /** It does so as soon as a writer has the same copy again, however many copies alternate. */
  lemma LateReadHitsPendingWrite(cfg: Config) returns (tr: seq<State>)
    requires cfg.Valid() && !AwaitsData(cfg) && !cfg.Inlines()
    ensures Trace(cfg, tr) && Shaped(cfg, Last(tr)) && !Stable(cfg, Last(tr))
  {
    tr := LateRead(cfg);
    assert QueueShaped(cfg, Last(tr).qs[1]);
    var b, i := Last(tr).qs[1].log[Last(tr).qs[1].done].buf, 0;
    tr := ComeBack(cfg, tr, b);
    tr, i := WriterPosts(cfg, tr);
    tr := ReadReaches(cfg, tr, i, b);
  }

  // ---- the exact condition ----------------------------------------------------------------------------------

  ghost predicate StableThroughout(cfg: Config, tr: seq<State>) {
    forall j :: 0 <= j < |tr| ==> Shaped(cfg, tr[j]) && Stable(cfg, tr[j])
  }

  lemma SomethingReaches(cfg: Config) returns (tr: seq<State>)
    requires cfg.Valid() && !cfg.KeepsPayload()
    ensures Trace(cfg, tr) && Shaped(cfg, Last(tr)) && !Stable(cfg, Last(tr))
  {
    if cfg.Queues() == 1 {
      tr := ZeroingHitsPendingWrite(cfg);
    } else if cfg.batch % 2 == 1 {
      tr := LateReadHitsPendingWrite(cfg);
    } else {
      tr := OtherQueueHitsPendingWrite(cfg);
    }
  }

  /** Every WRITE sends exactly the bytes that were there when it was posted, in every run, if and only if it is
      inlined, or there is one queue pair and the worker alternates copies or its readers store nothing before they
      poll, or there are two, copies alternate and the batch is even. */
  lemma PayloadStableExactly(cfg: Config)
    requires cfg.Valid()
    ensures (forall tr: seq<State> :: Trace(cfg, tr) ==> StableThroughout(cfg, tr)) <==>
      || cfg.Inlines()
      || (if cfg.Queues() == 1 then !cfg.ZeroesFirst() || cfg.buffers >= 2 else cfg.buffers >= 2 && cfg.batch % 2 == 0)
  {
    if cfg.KeepsPayload() {
      forall tr: seq<State>, j: nat | Trace(cfg, tr) && j < |tr|
        ensures Shaped(cfg, tr[j]) && Stable(cfg, tr[j])
      {
        WritesAreStable(cfg, tr, j);
      }
    } else {
      var tr := SomethingReaches(cfg);
      assert !StableThroughout(cfg, tr);
    }
  }

  // ---- the optimistic protocols' machine --------------------------------------------------------------------

  /** The scripts of the protocols that `TupleLayout` describes. */
  function ScriptConfig(cfg: TL.Config): Config {
    Config(if cfg.consistency.FaRM? then FaRM else V2, cfg.position.Footer?, cfg.batch, cfg.buffers, cfg.lines)
  }

  /** What the optimistic protocols need of their copies is what the worker's scripts give, in every run. */
  lemma PayloadConditionsAgree(cfg: TL.Config)
    requires cfg.Valid()
    ensures cfg.KeepsPayload() <==>
      forall tr: seq<State> :: Trace(ScriptConfig(cfg), tr) ==> StableThroughout(ScriptConfig(cfg), tr)
  {
    PayloadStableExactly(ScriptConfig(cfg));
  }
}
