/** What one worker posts, polls and stores: lock() and unlock() of every protocol of frontend/OptimisticLocks.hpp as
    the straight-line script that they execute, run against a network card that completes the requests of a queue
    pair in posting order.

    The worker alternates between `buffers` local copies of the tuple (frontend/optmistic_benchmark.cpp has two,
    frontend/optdb_experiment.cpp one). A WRITE takes its bytes from the copy at any time until it completes, so
    nothing may change a copy from which a WRITE is pending. */
module SendScripts {
  import opened Words
  import TL = TupleLayout

  type Bytes = seq<Word>

  datatype Protocol = FaRM | V2 | Crc | Broken | Rc | RcTwoQueues | ReaderWriter

  datatype Config = Config(protocol: Protocol, footer: bool, batch: nat, buffers: nat, lines: nat)
  {
    predicate Valid() {
      batch >= 1 && buffers >= 1 && lines >= 1
    }

    function Size(): nat {
      TL.WordsOf(lines)
    }

    predicate Inlines() {
      TL.SentInline(Size())
    }

    /** No store of the worker or its card reaches a copy from which one of its WRITEs may still be pending. With two
        queue pairs the READs of the second one may overtake the WRITE. */
    predicate SeparatesCopies() {
      if Queues() == 1 then !ZeroesFirst() || buffers >= 2 else buffers >= 2 && batch % 2 == 0
    }

    predicate KeepsPayload() {
      Inlines() || SeparatesCopies()
    }

    /** rctx, and for `rcopt` rctx2. */
    function Queues(): nat {
      if protocol.RcTwoQueues? then 2 else 1
    }

    /** batch_size / 2 polls on either queue for an odd number of signaled READs. */
    predicate Odd() {
      protocol.RcTwoQueues? && batch > 1 && batch % 2 == 1
    }

    /** The reader stores into the local copy before its first poll. */
    predicate ZeroesFirst() {
      protocol.V2? && footer
    }
  }

  /** What the card does: a READ into the tuple copy or into another buffer, a WRITE from the tuple copy, or an
      atomic on the lock word. */
  datatype Verb = ReadTuple | ReadVersion | Write | Atomic

  datatype Instr =
    | Post(q: nat, verb: Verb, signaled: bool)
    | Zero                                       // tuple_buffer[index] = tuple_buffer[index + 1] = 0
    | Edit                                       // any store into the tuple copy
    | Poll(q: nat, expected: nat, room: nat)     // the loop until tot_comp == tot_expected; entries in wcReturn
    | Throw                                      // a check that may throw OLRestartException

  datatype Operation = Reader(opnum: nat) | Writer

  // ---- scripts --------------------------------------------------------------------------------------------

  function Repeat(x: Instr, n: nat): seq<Instr> {
    if n == 0 then [] else Repeat(x, n - 1) + [x]
  }

  function Alternate(first: nat, verb: Verb, signaled: bool, n: nat): seq<Instr>
    requires first <= 1
  {
    if n == 0 then []
    else Alternate(first, verb, signaled, n - 1) +
         [Post(if n % 2 == 1 then first else 1 - first, verb, signaled)]
  }

  function SharedReads(n: nat): seq<Instr> {
    if n == 0 then []
    else SharedReads(n - 1) + [Post(0, Atomic, false), Post(0, ReadTuple, true), Post(0, Atomic, false)]
  }

  const RC_BATCH_SIZE: nat := 32

  const READ := Post(0, ReadTuple, true)
  const AWAIT := Poll(0, 1, 1)

  function ReaderScript(cfg: Config, opnum: nat): seq<Instr> {
    match cfg.protocol
    case FaRM => Repeat(READ, cfg.batch) + [Poll(0, cfg.batch, RC_BATCH_SIZE), Throw, Throw]
    case V2 =>
      if cfg.footer then [Zero, READ, AWAIT, READ, AWAIT, Throw, READ, AWAIT, Throw, Throw]
      else [READ, AWAIT, READ, AWAIT, Throw, READ, AWAIT, Throw, Throw]
    case Crc => [READ, AWAIT, Throw, Throw, READ, AWAIT, Throw, Throw]
    case Broken =>
      Repeat(READ, cfg.batch) + [Poll(0, cfg.batch, RC_BATCH_SIZE)] +
      (Repeat(READ, cfg.batch) + [Poll(0, cfg.batch, RC_BATCH_SIZE), Throw])
    case Rc =>
      Repeat(Post(0, ReadTuple, false), cfg.batch) + Repeat(Post(0, ReadVersion, true), cfg.batch) +
      [Poll(0, cfg.batch, RC_BATCH_SIZE), Throw]
    case RcTwoQueues =>
      if cfg.batch > 1 then
        Alternate(0, ReadTuple, false, cfg.batch) + Alternate(1, ReadVersion, true, cfg.batch) +
        [Poll(0, cfg.batch / 2, RC_BATCH_SIZE), Poll(1, cfg.batch / 2, RC_BATCH_SIZE), Throw]
      else
        [Post(opnum % 2, ReadTuple, false), Post(1 - opnum % 2, ReadVersion, true), Poll(1 - opnum % 2, 1, 1), Throw]
    case ReaderWriter => SharedReads(cfg.batch) + [Poll(0, cfg.batch, RC_BATCH_SIZE)]
  }

  /** CAS, READ, check; the user's stores, the version and the lock slot; WRITE and, unless the WRITE itself
      releases the lock, the fetch-and-add. */
  function WriterScript(cfg: Config): seq<Instr> {
    if cfg.footer && !cfg.protocol.ReaderWriter? then
      [Post(0, Atomic, false), READ, AWAIT, Throw, Edit, Edit, Edit, Post(0, Write, false)]
    else
      [Post(0, Atomic, false), READ, AWAIT, Throw, Edit, Edit, Post(0, Write, false), Post(0, Atomic, false)]
  }

  function Script(cfg: Config, op: Operation): seq<Instr> {
    match op
    case Reader(opnum) => ReaderScript(cfg, opnum)
    case Writer => WriterScript(cfg)
  }

  // ---- the polling loop -----------------------------------------------------------------------------------

  /** Completions that have arrived by the time of the `k`-th poll. */
  ghost function Arrived(arrivals: seq<nat>, k: nat): nat
    requires k <= |arrivals|
  {
    if k == 0 then 0 else Arrived(arrivals, k - 1) + arrivals[k - 1]
  }

  /** The loop behind `Poll`: `arrivals[k]` completions come before its `k`-th poll. It takes all there are until it
      has `expected`, stops at the first poll that can, and leaves every further one for the next phase. */
  method PollLoop(arrivals: seq<nat>, expected: nat) returns (tot: nat, left: nat, polls: nat)
    ensures polls <= |arrivals| && tot + left == Arrived(arrivals, polls)
    ensures tot == expected || (polls == |arrivals| && tot < expected && left == 0)
    ensures polls > 0 ==> Arrived(arrivals, polls - 1) < expected
  {
    tot, left, polls := 0, 0, 0;
    while tot != expected && polls < |arrivals|
      invariant polls <= |arrivals| && tot <= expected && tot + left == Arrived(arrivals, polls)
      invariant tot < expected ==> left == 0
      invariant polls > 0 ==> Arrived(arrivals, polls - 1) < expected
    {
      var asked := expected - tot;
      var present := left + arrivals[polls];
      var comp := if present < asked then present else asked;
      tot, left, polls := tot + comp, present - comp, polls + 1;
    }
  }

  // ---- what a script does to a completion queue -----------------------------------------------------------

  function Effect(x: Instr, q: nat): int {
    match x
    case Post(p, _, signaled) => if p == q && signaled then 1 else 0
    case Poll(p, expected, _) => if p == q then 0 - expected else 0
    case _ => 0
  }

  /** Completions requested from queue `q` by the first `k` instructions, less those polled. */
  function Net(sc: seq<Instr>, k: nat, q: nat): int
    requires k <= |sc|
  {
    if k == 0 then 0 else Net(sc, k - 1, q) + Effect(sc[k - 1], q)
  }

  /** Since the last signaled request to `q`, only atomics were posted there. */
  predicate Quiet(sc: seq<Instr>, k: nat, q: nat)
    requires k <= |sc|
  {
    k > 0 &&
    if sc[k - 1].Post? && sc[k - 1].q == q then sc[k - 1].signaled || (sc[k - 1].verb.Atomic? && Quiet(sc, k - 1, q))
    else Quiet(sc, k - 1, q)
  }

  /** Since the last poll of `q`, only atomics were posted there. */
  predicate Clean(sc: seq<Instr>, k: nat, q: nat)
    requires k <= |sc|
  {
    k > 0 &&
    match sc[k - 1]
    case Poll(p, _, _) => p == q || Clean(sc, k - 1, q)
    case Post(p, verb, _) => (p != q || verb.Atomic?) && Clean(sc, k - 1, q)
    case _ => Clean(sc, k - 1, q)
  }

  ghost predicate Polled(sc: seq<Instr>, k: nat)
    requires k <= |sc|
  {
    exists j :: 0 <= j < k && sc[j].Poll?
  }

  ghost predicate Sent(sc: seq<Instr>, k: nat)
    requires k <= |sc|
  {
    exists j :: 0 <= j < k && sc[j] == Post(0, Write, false)
  }

  /** What one attempt leaves on the second queue. */
  function Leftover(cfg: Config, op: Operation, q: nat): nat {
    if cfg.Odd() && op.Reader? && q == 1 then 1 else 0
  }

  /** Every data READ is followed, on its own queue, by a signaled request that is polled. */
  predicate AwaitsData(cfg: Config) {
    cfg.protocol.RcTwoQueues? ==> cfg.batch % 2 == 0
  }

  /** Nothing is owed, and no data request is pending on a queue that this operation has polled. */
  ghost predicate Settled(cfg: Config, op: Operation, sc: seq<Instr>, k: nat)
    requires k <= |sc|
  {
    forall q :: 0 <= q < cfg.Queues() ==>
      Net(sc, k, q) == Leftover(cfg, op, q) && (AwaitsData(cfg) && (q == 0 || op.Reader?) ==> Clean(sc, k, q))
  }

  ghost predicate Fits(cfg: Config, op: Operation, sc: seq<Instr>, k: nat)
    requires k < |sc|
  {
    match sc[k]
    case Post(q, verb, signaled) =>
      && q < cfg.Queues()
      && (q == 0 || op.Reader?)
      && (verb.Write? ==> q == 0 && !signaled && op.Writer? && Clean(sc, k, 0))
      && (verb.Write? ==> forall j :: k < j < |sc| ==> sc[j] == Post(0, Atomic, false))
    case Zero => cfg.ZeroesFirst()
    case Edit => Polled(sc, k)
    case Poll(q, expected, room) =>
      && q < cfg.Queues() && (AwaitsData(cfg) ==> q == 0 || Polled(sc, k))
      && expected >= 1 && (cfg.batch <= RC_BATCH_SIZE ==> expected <= room)
      && Quiet(sc, k, q) && Net(sc, k, q) == expected + Leftover(cfg, op, q)
    case Throw => Polled(sc, k) && Settled(cfg, op, sc, k)
  }

  ghost predicate Ends(cfg: Config, op: Operation, sc: seq<Instr>) {
    && Polled(sc, |sc|)
    && (forall q :: 0 <= q < cfg.Queues() ==> Net(sc, |sc|, q) == Leftover(cfg, op, q))
    && (op.Reader? ==> Settled(cfg, op, sc, |sc|))
  }

  ghost predicate Disciplined(cfg: Config, op: Operation) {
    var sc := Script(cfg, op);
    Ends(cfg, op, sc) && forall k :: 0 <= k < |sc| ==> Fits(cfg, op, sc, k)
  }

  // ---- every script is disciplined ------------------------------------------------------------------------

  lemma {:induction false} NetPrefix(a: seq<Instr>, b: seq<Instr>, k: nat, q: nat)
    requires k <= |a|
    ensures Net(a + b, k, q) == Net(a, k, q)
  {
    if k > 0 {
      NetPrefix(a, b, k - 1, q);
    }
  }

  lemma {:induction false} NetSuffix(a: seq<Instr>, b: seq<Instr>, k: nat, q: nat)
    requires k <= |b|
    ensures Net(a + b, |a| + k, q) == Net(a, |a|, q) + Net(b, k, q)
  {
    if k == 0 {
      NetPrefix(a, b, |a|, q);
    } else {
      NetSuffix(a, b, k - 1, q);
    }
  }

  lemma {:induction false} Repeats(x: Instr, n: nat, q: nat)
    requires x.Post?
    ensures |Repeat(x, n)| == n && forall k :: 0 <= k < n ==> Repeat(x, n)[k] == x
    ensures Net(Repeat(x, n), n, q) == if x.signaled && x.q == q then n else 0
  {
    if n > 0 {
      Repeats(x, n - 1, q);
      NetPrefix(Repeat(x, n - 1), [x], n - 1, q);
    }
  }

  lemma {:induction false} Alternates(first: nat, verb: Verb, signaled: bool, n: nat, q: nat)
    requires first <= 1 && q <= 1
    ensures var sc := Alternate(first, verb, signaled, n);
            && |sc| == n
            && (forall k :: 0 <= k < n ==> sc[k] == Post(if k % 2 == 0 then first else 1 - first, verb, signaled))
            && Net(sc, n, q) == if !signaled then 0 else if q == first then (n + 1) / 2 else n / 2
  {
    if n > 0 {
      Alternates(first, verb, signaled, n - 1, q);
      NetPrefix(Alternate(first, verb, signaled, n - 1),
                [Post(if n % 2 == 1 then first else 1 - first, verb, signaled)], n - 1, q);
    }
  }

  lemma {:induction false} SharedNet(n: nat)
    ensures var sc := SharedReads(n);
            && |sc| == 3 * n && Net(sc, |sc|, 0) == n && (n > 0 ==> Quiet(sc, |sc|, 0))
            && (forall k :: 0 <= k < |sc| ==> sc[k] == Post(0, Atomic, false) || sc[k] == READ)
  {
    if n > 0 {
      SharedNet(n - 1);
      var turn := [Post(0, Atomic, false), READ, Post(0, Atomic, false)];
      var sc := SharedReads(n);
      NetSuffix(SharedReads(n - 1), turn, 3, 0);
      assert Net(turn, 1, 0) == 0;
      assert Net(turn, 2, 0) == 1;
      assert Net(turn, 3, 0) == 1;
      assert sc[|sc| - 1] == Post(0, Atomic, false) && sc[|sc| - 2] == READ;
      assert Quiet(sc, |sc| - 1, 0);
    }
  }

  lemma {:induction false} WriterDiscipline(cfg: Config)
    requires cfg.Valid()
    ensures Disciplined(cfg, Writer)
  {
    var sc := WriterScript(cfg);
    for q := 0 to 2
      invariant forall p :: 0 <= p < q ==>
        Net(sc, 4, p) == 0 && Net(sc, 3, p) == 0 && Net(sc, 2, p) == (if p == 0 then 1 else 0) && Net(sc, 8, p) == 0
    {
      assert Net(sc, 1, q) == 0;
      assert Net(sc, 2, q) == if q == 0 then 1 else 0;
      assert Net(sc, 3, q) == 0;
      assert Net(sc, 4, q) == 0;
      assert Net(sc, 5, q) == 0;
      assert Net(sc, 6, q) == 0;
      assert Net(sc, 7, q) == 0;
    }
    assert sc[2].Poll?;
    assert Clean(sc, 3, 0);
    assert Clean(sc, 4, 0);
    assert Clean(sc, 5, 0);
    assert Clean(sc, 6, 0);
    assert sc[6].Edit? ==> Clean(sc, 7, 0);
  }

  lemma {:induction false} V2Discipline(cfg: Config, opnum: nat)
    requires cfg.Valid() && cfg.protocol.V2?
    ensures Disciplined(cfg, Reader(opnum))
  {
    var sc := ReaderScript(cfg, opnum);
    var z := if cfg.footer then 1 else 0;
    assert Net(sc, z, 0) == 0;
    assert Net(sc, z + 1, 0) == 1;
    assert Net(sc, z + 2, 0) == 0;
    assert Net(sc, z + 3, 0) == 1;
    assert Net(sc, z + 4, 0) == 0;
    assert Net(sc, z + 5, 0) == 0;
    assert Net(sc, z + 6, 0) == 1;
    assert Net(sc, z + 7, 0) == 0;
    assert Net(sc, z + 8, 0) == 0;
    assert sc[z + 1].Poll?;
    assert Clean(sc, z + 4, 0) && Clean(sc, z + 7, 0) && Clean(sc, z + 8, 0);
  }

  lemma {:induction false} CrcDiscipline(cfg: Config, opnum: nat)
    requires cfg.Valid() && cfg.protocol.Crc?
    ensures Disciplined(cfg, Reader(opnum))
  {
    var sc := ReaderScript(cfg, opnum);
    assert Net(sc, 1, 0) == 1;
    assert Net(sc, 2, 0) == 0;
    assert Net(sc, 3, 0) == 0;
    assert Net(sc, 4, 0) == 0;
    assert Net(sc, 5, 0) == 1;
    assert Net(sc, 6, 0) == 0;
    assert Net(sc, 7, 0) == 0;
    assert sc[1].Poll?;
    assert Clean(sc, 2, 0) && Clean(sc, 3, 0) && Clean(sc, 6, 0) && Clean(sc, 7, 0);
  }

  lemma {:induction false} FaRMDiscipline(cfg: Config, opnum: nat)
    requires cfg.Valid() && cfg.protocol.FaRM?
    ensures Disciplined(cfg, Reader(opnum))
  {
    var sc, n := ReaderScript(cfg, opnum), cfg.batch;
    Repeats(READ, n, 0);
    NetPrefix(Repeat(READ, n), [Poll(0, n, RC_BATCH_SIZE), Throw, Throw], n, 0);
    assert sc[n].Poll?;
    assert Net(sc, n + 1, 0) == 0;
    assert Net(sc, n + 2, 0) == 0;
    assert Clean(sc, n + 1, 0) && Clean(sc, n + 2, 0);
  }

  lemma {:induction false} BrokenDiscipline(cfg: Config, opnum: nat)
    requires cfg.Valid() && cfg.protocol.Broken?
    ensures Disciplined(cfg, Reader(opnum))
  {
    var sc, n := ReaderScript(cfg, opnum), cfg.batch;
    var poll := Poll(0, n, RC_BATCH_SIZE);
    var lock, unlock := Repeat(READ, n) + [poll], Repeat(READ, n) + [poll, Throw];
    Repeats(READ, n, 0);
    NetPrefix(Repeat(READ, n), [poll], n, 0);
    NetPrefix(Repeat(READ, n), [poll, Throw], n, 0);
    NetPrefix(lock, unlock, n, 0);
    NetSuffix(lock, unlock, n, 0);
    var m := n + 1 + n;
    assert sc[n].Poll? && sc[m] == poll;
    assert Net(sc, m + 1, 0) == 0;
    assert Clean(sc, m + 1, 0);
  }

  lemma {:induction false} RcDiscipline(cfg: Config, opnum: nat)
    requires cfg.Valid() && cfg.protocol.Rc?
    ensures Disciplined(cfg, Reader(opnum))
  {
    var sc, n := ReaderScript(cfg, opnum), cfg.batch;
    var data, check := Repeat(Post(0, ReadTuple, false), n), Repeat(Post(0, ReadVersion, true), n);
    var tail := [Poll(0, n, RC_BATCH_SIZE), Throw];
    Repeats(Post(0, ReadTuple, false), n, 0);
    Repeats(Post(0, ReadVersion, true), n, 0);
    NetSuffix(data, check, n, 0);
    NetPrefix(data + check, tail, n + n, 0);
    assert sc[n + n].Poll?;
    assert Net(sc, n + n + 1, 0) == 0;
    assert Clean(sc, n + n + 1, 0);
  }

  lemma RcTwoQueuesReads(n: nat, q: nat)
    requires n > 1 && q <= 1
    ensures var body := Alternate(0, ReadTuple, false, n) + Alternate(1, ReadVersion, true, n);
            && |body| == n + n && Net(body, n + n, q) == (if q == 1 then n - n / 2 else n / 2)
            && Quiet(body, n + n, q)
            && (forall k :: 0 <= k < n + n ==>
                 body[k].Post? && body[k].q <= 1 && (body[k].verb.ReadTuple? || body[k].verb.ReadVersion?))
  {
    var data, check := Alternate(0, ReadTuple, false, n), Alternate(1, ReadVersion, true, n);
    Alternates(0, ReadTuple, false, n, q);
    Alternates(1, ReadVersion, true, n, q);
    NetSuffix(data, check, n, q);
    var body := data + check;
    assert body[n + n - 1] == check[n - 1] && body[n + n - 2] == check[n - 2];
    assert Quiet(body, n + n - 1, if n % 2 == 0 then 1 else 0);
  }

  /** Polling both queues for `half` completions settles the reads of `body`. */
  lemma TwoPolls(cfg: Config, op: Operation, body: seq<Instr>, half: nat)
    requires cfg.Queues() == 2 && op.Reader? && 1 <= half <= cfg.batch && |body| > 0
    requires forall q :: 0 <= q < 2 ==> Quiet(body, |body|, q) && Net(body, |body|, q) == half + Leftover(cfg, op, q)
    ensures var m := |body|;
            var sc := body + [Poll(0, half, RC_BATCH_SIZE), Poll(1, half, RC_BATCH_SIZE), Throw];
            Ends(cfg, op, sc) && Fits(cfg, op, sc, m) && Fits(cfg, op, sc, m + 1) && Fits(cfg, op, sc, m + 2)
  {
    var m, tail := |body|, [Poll(0, half, RC_BATCH_SIZE), Poll(1, half, RC_BATCH_SIZE), Throw];
    var sc := body + tail;
    forall q | 0 <= q < 2
      ensures Quiet(sc, m, q) && Net(sc, m, q) == half + Leftover(cfg, op, q)
    {
      QuietPrefix(body, tail, m, q);
      NetPrefix(body, tail, m, q);
    }
    assert sc[m].Poll? && sc[m + 1].Poll?;
    assert Polled(sc, m + 1);
    assert Net(sc, m + 1, 0) == 0 && Net(sc, m + 1, 1) == half + Leftover(cfg, op, 1);
    assert Net(sc, m + 2, 0) == 0 && Net(sc, m + 2, 1) == Leftover(cfg, op, 1);
    assert Clean(sc, m + 1, 0);
    assert Clean(sc, m + 2, 0) && Clean(sc, m + 2, 1);
  }

  /** The READs of a reader may go anywhere in its script. */
  lemma ReadsFit(cfg: Config, opnum: nat, body: seq<Instr>, tail: seq<Instr>)
    requires forall k :: 0 <= k < |body| ==>
      body[k].Post? && body[k].q < cfg.Queues() && (body[k].verb.ReadTuple? || body[k].verb.ReadVersion?)
    ensures forall k :: 0 <= k < |body| ==> Fits(cfg, Reader(opnum), body + tail, k)
  {
    forall k | 0 <= k < |body|
      ensures Fits(cfg, Reader(opnum), body + tail, k)
    {
      assert (body + tail)[k] == body[k];
    }
  }

  /** The READs of both queues, two polls and the check. */
  lemma TwoQueuesFit(cfg: Config, opnum: nat, body: seq<Instr>, half: nat)
    requires cfg.Queues() == 2 && 1 <= half <= cfg.batch && |body| > 0
    requires forall q :: 0 <= q < 2 ==>
      Quiet(body, |body|, q) && Net(body, |body|, q) == half + Leftover(cfg, Reader(opnum), q)
    requires forall k :: 0 <= k < |body| ==>
      body[k].Post? && body[k].q < 2 && (body[k].verb.ReadTuple? || body[k].verb.ReadVersion?)
    ensures var sc := body + [Poll(0, half, RC_BATCH_SIZE), Poll(1, half, RC_BATCH_SIZE), Throw];
            Ends(cfg, Reader(opnum), sc) && forall k :: 0 <= k < |sc| ==> Fits(cfg, Reader(opnum), sc, k)
  {
    TwoPolls(cfg, Reader(opnum), body, half);
    ReadsFit(cfg, opnum, body, [Poll(0, half, RC_BATCH_SIZE), Poll(1, half, RC_BATCH_SIZE), Throw]);
  }

  lemma {:induction false} RcTwoQueuesDiscipline(cfg: Config, opnum: nat)
    requires cfg.Valid() && cfg.protocol.RcTwoQueues? && cfg.batch > 1
    ensures Disciplined(cfg, Reader(opnum))
  {
    var n := cfg.batch;
    RcTwoQueuesReads(n, 0);
    RcTwoQueuesReads(n, 1);
    var body := Alternate(0, ReadTuple, false, n) + Alternate(1, ReadVersion, true, n);
    TwoQueuesFit(cfg, opnum, body, n / 2);
    assert Script(cfg, Reader(opnum)) == body + [Poll(0, n / 2, RC_BATCH_SIZE), Poll(1, n / 2, RC_BATCH_SIZE), Throw];
  }

  lemma {:induction false} RcSingleDiscipline(cfg: Config, opnum: nat)
    requires cfg.Valid() && cfg.protocol.RcTwoQueues? && cfg.batch == 1
    ensures Disciplined(cfg, Reader(opnum))
  {
    var sc := ReaderScript(cfg, opnum);
    for q := 0 to 2
      invariant forall p :: 0 <= p < q ==> Net(sc, 2, p) == (if p == 1 - opnum % 2 then 1 else 0)
      invariant forall p :: 0 <= p < q ==> Net(sc, 3, p) == 0 && Net(sc, 4, p) == 0
    {
      assert Net(sc, 1, q) == 0;
      assert Net(sc, 2, q) == if q == 1 - opnum % 2 then 1 else 0;
      assert Net(sc, 3, q) == 0;
    }
    assert sc[2].Poll?;
  }

  lemma {:induction false} SharedDiscipline(cfg: Config, opnum: nat)
    requires cfg.Valid() && cfg.protocol.ReaderWriter?
    ensures Disciplined(cfg, Reader(opnum))
  {
    var sc, n := ReaderScript(cfg, opnum), cfg.batch;
    var body := SharedReads(n);
    SharedNet(n);
    NetPrefix(body, [Poll(0, n, RC_BATCH_SIZE)], |body|, 0);
    QuietPrefix(body, [Poll(0, n, RC_BATCH_SIZE)], |body|, 0);
    assert sc[|body|].Poll?;
  }

  lemma {:induction false} QuietPrefix(a: seq<Instr>, b: seq<Instr>, k: nat, q: nat)
    requires k <= |a| && Quiet(a, k, q)
    ensures Quiet(a + b, k, q)
  {
    if !(a[k - 1].Post? && a[k - 1].q == q && a[k - 1].signaled) {
      QuietPrefix(a, b, k - 1, q);
    }
  }

  /** lock() and unlock() of every protocol, for every batch size. */
  lemma Discipline(cfg: Config, op: Operation)
    requires cfg.Valid()
    ensures Disciplined(cfg, op)
  {
    match op
    case Writer => WriterDiscipline(cfg);
    case Reader(opnum) =>
      match cfg.protocol
      case FaRM => FaRMDiscipline(cfg, opnum);
      case V2 => V2Discipline(cfg, opnum);
      case Crc => CrcDiscipline(cfg, opnum);
      case Broken => BrokenDiscipline(cfg, opnum);
      case Rc => RcDiscipline(cfg, opnum);
      case RcTwoQueues =>
        if cfg.batch > 1 { RcTwoQueuesDiscipline(cfg, opnum); } else { RcSingleDiscipline(cfg, opnum); }
      case ReaderWriter => SharedDiscipline(cfg, opnum);
  }
}
