/** What the scripts request: how often a reader or writer posts each kind of request, and that what `unlock` reads
    again is read after everything that `lock` has read. */
module SendRequests {
  import opened SendScripts

  /** How many requests of a kind a script posts. */
  function Requests(sc: seq<Instr>, verb: Verb): nat {
    if sc == [] then 0
    else Requests(sc[..|sc| - 1], verb) + if sc[|sc| - 1].Post? && sc[|sc| - 1].verb == verb then 1 else 0
  }

  lemma {:induction false} RequestsAppend(a: seq<Instr>, b: seq<Instr>, verb: Verb)
    ensures Requests(a + b, verb) == Requests(a, verb) + Requests(b, verb)
  {
    if b == [] {
      assert a + b == a;
    } else {
      var n := |b| - 1;
      assert (a + b)[..|a + b| - 1] == a + b[..n];
      RequestsAppend(a, b[..n], verb);
    }
  }

  lemma {:induction false} RequestsRepeat(x: Instr, n: nat, verb: Verb)
    requires x.Post?
    ensures Requests(Repeat(x, n), verb) == if x.verb == verb then n else 0
  {
    if n > 0 {
      assert Repeat(x, n)[..|Repeat(x, n)| - 1] == Repeat(x, n - 1);
      RequestsRepeat(x, n - 1, verb);
    }
  }

  lemma {:induction false} RequestsAlternate(first: nat, v: Verb, signaled: bool, n: nat, verb: Verb)
    requires first <= 1
    ensures Requests(Alternate(first, v, signaled, n), verb) == if v == verb then n else 0
  {
    if n > 0 {
      var sc := Alternate(first, v, signaled, n);
      assert sc[..|sc| - 1] == Alternate(first, v, signaled, n - 1);
      RequestsAlternate(first, v, signaled, n - 1, verb);
    }
  }

  lemma {:induction false} RequestsShared(n: nat, verb: Verb)
    ensures Requests(SharedReads(n), verb) == if verb.ReadTuple? then n else if verb.Atomic? then 2 * n else 0
  {
    if n > 0 {
      var turn := [Post(0, Atomic, false), Post(0, ReadTuple, true), Post(0, Atomic, false)];
      RequestsShared(n - 1, verb);
      RequestsAppend(SharedReads(n - 1), turn, verb);
      RequestsShort3(turn, verb);
    }
  }

  lemma RequestsShort3(sc: seq<Instr>, verb: Verb)
    requires |sc| == 3
    ensures Requests(sc, verb) == Requests([sc[0]], verb) + Requests([sc[1]], verb) + Requests([sc[2]], verb)
  {
    assert sc == [sc[0]] + [sc[1]] + [sc[2]];
    RequestsAppend([sc[0]], [sc[1]], verb);
    RequestsAppend([sc[0]] + [sc[1]], [sc[2]], verb);
  }

  /** Polls and checks request nothing. */
  lemma {:induction false} RequestsNone(sc: seq<Instr>, verb: Verb)
    requires forall k :: 0 <= k < |sc| ==> !sc[k].Post?
    ensures Requests(sc, verb) == 0
  {
    if sc != [] {
      RequestsNone(sc[..|sc| - 1], verb);
    }
  }

  /** The READs of the tuple that one attempt of a reader posts. */
  function TupleReads(cfg: Config): nat {
    match cfg.protocol
    case V2 => 3        // version and lock; the rest; version again
    case Crc => 2
    case Broken => 2 * cfg.batch
    case _ => cfg.batch
  }

  /** READs of a separate version, of RC. */
  function VersionReads(cfg: Config): nat {
    if cfg.protocol.Rc? || cfg.protocol.RcTwoQueues? then cfg.batch else 0
  }

  lemma RequestsPair(a: Instr, b: Instr, verb: Verb)
    ensures Requests([a, b], verb) == Requests([a], verb) + Requests([b], verb)
  {
    assert [a, b] == [a] + [b];
    RequestsAppend([a], [b], verb);
  }

  /** The READs of `data`, then those of `more`, then polls and checks. */
  lemma RequestsThree(data: seq<Instr>, more: seq<Instr>, tail: seq<Instr>, verb: Verb)
    requires forall k :: 0 <= k < |tail| ==> !tail[k].Post?
    ensures Requests(data + more + tail, verb) == Requests(data, verb) + Requests(more, verb)
    ensures Requests(data + tail, verb) == Requests(data, verb)
  {
    RequestsNone(tail, verb);
    RequestsAppend(data, more, verb);
    RequestsAppend(data + more, tail, verb);
    RequestsAppend(data, tail, verb);
  }

  lemma BrokenRequests(cfg: Config, verb: Verb)
    ensures Requests(ReaderScript(cfg.(protocol := Broken), 0), verb) == if verb.ReadTuple? then 2 * cfg.batch else 0
  {
    var n := cfg.batch;
    var batch, poll := Repeat(READ, n), Poll(0, n, RC_BATCH_SIZE);
    RequestsRepeat(READ, n, verb);
    RequestsThree(batch, [], [poll], verb);
    RequestsThree(batch, [], [poll, Throw], verb);
    RequestsAppend(batch + [poll], batch + [poll, Throw], verb);
  }

  /** One READ and its poll; a check in between. */
  lemma RereadRequests(cfg: Config, verb: Verb)
    requires cfg.protocol.V2? || cfg.protocol.Crc?
    ensures Requests(ReaderScript(cfg, 0), verb) == if verb.ReadTuple? then TupleReads(cfg) else 0
  {
    var turn := [READ, AWAIT];
    RequestsPair(READ, AWAIT, verb);
    RequestsNone([Zero], verb);
    RequestsNone([Throw], verb);
    RequestsNone([Throw, Throw], verb);
    if cfg.protocol.V2? {
      var first := turn + turn + [Throw];
      var body := first + turn + [Throw, Throw];
      RequestsAppend(turn, turn, verb);
      RequestsAppend(turn + turn, [Throw], verb);
      RequestsAppend(first, turn, verb);
      RequestsAppend(first + turn, [Throw, Throw], verb);
      RequestsAppend([Zero], body, verb);
      assert ReaderScript(cfg, 0) == if cfg.footer then [Zero] + body else body;
    } else {
      RequestsAppend(turn, [Throw, Throw], verb);
      RequestsAppend(turn + [Throw, Throw], turn, verb);
      RequestsAppend(turn + [Throw, Throw] + turn, [Throw, Throw], verb);
      assert ReaderScript(cfg, 0) == turn + [Throw, Throw] + turn + [Throw, Throw];
    }
  }

  lemma RcRequests(cfg: Config, opnum: nat, verb: Verb)
    requires cfg.Valid() && (cfg.protocol.Rc? || cfg.protocol.RcTwoQueues?)
    ensures Requests(ReaderScript(cfg, opnum), verb) ==
      if verb.ReadTuple? || verb.ReadVersion? then cfg.batch else 0
  {
    var n := cfg.batch;
    if cfg.protocol.Rc? {
      var data, check := Repeat(Post(0, ReadTuple, false), n), Repeat(Post(0, ReadVersion, true), n);
      RequestsRepeat(Post(0, ReadTuple, false), n, verb);
      RequestsRepeat(Post(0, ReadVersion, true), n, verb);
      RequestsThree(data, check, [Poll(0, n, RC_BATCH_SIZE), Throw], verb);
    } else if n > 1 {
      var data, check := Alternate(0, ReadTuple, false, n), Alternate(1, ReadVersion, true, n);
      RequestsAlternate(0, ReadTuple, false, n, verb);
      RequestsAlternate(1, ReadVersion, true, n, verb);
      RequestsThree(data, check, [Poll(0, n / 2, RC_BATCH_SIZE), Poll(1, n / 2, RC_BATCH_SIZE), Throw], verb);
    } else {
      var data, check := [Post(opnum % 2, ReadTuple, false)], [Post(1 - opnum % 2, ReadVersion, true)];
      var tail := [Poll(1 - opnum % 2, 1, 1), Throw];
      RequestsThree(data, check, tail, verb);
      assert ReaderScript(cfg, opnum) == data + check + tail;
    }
  }

  /** What one attempt of a reader posts, for every protocol and batch size. */
  lemma ReaderRequests(cfg: Config, opnum: nat, verb: Verb)
    requires cfg.Valid()
    ensures Requests(Script(cfg, Reader(opnum)), verb) ==
      match verb
      case ReadTuple => TupleReads(cfg)
      case ReadVersion => VersionReads(cfg)
      case Write => 0
      case Atomic => if cfg.protocol.ReaderWriter? then 2 * cfg.batch else 0
  {
    var n := cfg.batch;
    match cfg.protocol
    case FaRM =>
      RequestsRepeat(READ, n, verb);
      RequestsThree(Repeat(READ, n), [], [Poll(0, n, RC_BATCH_SIZE), Throw, Throw], verb);
    case V2 => RereadRequests(cfg, verb);
    case Crc => RereadRequests(cfg, verb);
    case Broken => BrokenRequests(cfg, verb);
    case Rc => RcRequests(cfg, opnum, verb);
    case RcTwoQueues => RcRequests(cfg, opnum, verb);
    case ReaderWriter =>
      RequestsShared(n, verb);
      RequestsThree(SharedReads(n), [], [Poll(0, n, RC_BATCH_SIZE)], verb);
  }

  /** A script that posts requests, then waits and edits, then posts again. */
  lemma RequestsAround(lock: seq<Instr>, edits: seq<Instr>, unlock: seq<Instr>, verb: Verb)
    requires forall k :: 0 <= k < |edits| ==> !edits[k].Post?
    ensures Requests(lock + edits + unlock, verb) == Requests(lock, verb) + Requests(unlock, verb)
  {
    RequestsNone(edits, verb);
    RequestsAppend(lock, edits, verb);
    RequestsAppend(lock + edits, unlock, verb);
  }

  /** A writer posts one compare-and-swap, one READ and one WRITE, and a fetch-and-add if the WRITE does not release the
      lock. */
  lemma WriterRequests(cfg: Config, verb: Verb)
    ensures Requests(Script(cfg, Writer), verb) ==
      match verb
      case ReadTuple => 1
      case ReadVersion => 0
      case Write => 1
      case Atomic => if cfg.footer && !cfg.protocol.ReaderWriter? then 1 else 2
  {
    var cas, write := Post(0, Atomic, false), Post(0, Write, false);
    var lock := [cas, READ];
    var edits := if cfg.footer && !cfg.protocol.ReaderWriter? then [AWAIT, Throw, Edit, Edit, Edit]
                 else [AWAIT, Throw, Edit, Edit];
    var unlock := if cfg.footer && !cfg.protocol.ReaderWriter? then [write] else [write, cas];
    RequestsPair(cas, READ, verb);
    RequestsPair(write, cas, verb);
    RequestsAround(lock, edits, unlock, verb);
    assert WriterScript(cfg) == lock + edits + unlock;
  }

  /** V2 and CRC read again in `unlock`: after a check, with every READ of `lock` completed, and nothing after it. */
  lemma RereadIsLast(cfg: Config, opnum: nat) returns (k: nat)
    requires cfg.Valid() && (cfg.protocol.V2? || cfg.protocol.Crc?)
    ensures var sc := Script(cfg, Reader(opnum));
      && k < |sc| && sc[k] == READ && Clean(sc, k, 0) && (exists i :: 0 <= i < k && sc[i] == Throw)
      && (forall i :: k < i < |sc| ==> !sc[i].Post?)
  {
    var sc := ReaderScript(cfg, opnum);
    k := if cfg.protocol.Crc? then 4 else if cfg.footer then 6 else 5;
    assert sc[k - 1] == Throw;
    var poll := if cfg.protocol.Crc? then 1 else k - 2;
    assert sc[poll].Poll?;
    assert Clean(sc, poll + 1, 0);
    assert cfg.protocol.Crc? ==> Clean(sc, poll + 2, 0);
  }
}
