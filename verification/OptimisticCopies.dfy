/** A run of the optimistic protocols in which a worker's next operation stores into the copy from which its WRITE is
    still pending, for every configuration in which that can happen.

    It has two workers. 1 reads version and lock of the zero tuple and fetches its first line. 0 increments the tuple,
    posts it as version 1, and begins to read, which clears the version in its only copy; so the whole WRITE lands
    with version 0. 1 fetches the other lines of the new tuple, reads version 0 again and accepts. */
module OptimisticCopies {
  import opened Words
  import opened TupleLayout
  import opened OptimisticProtocol
  import opened OptimisticLinearizability

  ghost predicate Hit(cfg: Config) {
    cfg.Valid() && !cfg.KeepsPayload()
  }

  // ---- the tuples of the witness ----------------------------------------------------------------------------

  ghost predicate IsZero(t: Tuple) {
    forall i :: 0 <= i < |t| ==> t[i] == 0
  }

  /** The zero tuple with its fields incremented and `version` as version. */
  ghost predicate IsBumped(cfg: Config, t: Tuple, version: int)
    requires cfg.Valid()
  {
    forall i :: 0 <= i < |t| ==> t[i] == if i == cfg.VersionIndex() then version else if IsField(i) then 1 else 0
  }

  /** A local copy whose first `k` lines were read under the lock. */
  ghost predicate IsLocked(cfg: Config, t: Tuple, k: nat)
    requires cfg.Valid()
  {
    forall i :: 0 <= i < |t| ==> t[i] == if i == cfg.LockIndex() && i / LINE < k then 1 else 0
  }

  /** What reader 1 has when writer 0 starts. */
  ghost predicate HasFirstLine(cfg: Config, s: State)
    requires cfg.Valid()
  {
    && 1 in s.ws && s.ws[1].pending == Nothing && s.ws[1].pc.Read?
    && var rd := s.ws[1].pc.rd;
       && rd.stage == Fetch && rd.got == {0} && rd.low == 0 == rd.high
       && |rd.buf| == cfg.Size() && IsZero(rd.buf)
  }

  /** Everything but reader 1 as at the start. */
  ghost predicate Untouched(cfg: Config, s: State)
    requires cfg.Valid()
  {
    && Shaped(cfg, s) && IsZero(s.mem) && s.owner == None
    && |s.hist| == 1 && |s.hist[0]| == cfg.Size() && IsZero(s.hist[0]) && s.ops == []
    && 0 in s.ws && s.ws[0] == Worker(Idle, Nothing) && 1 in s.ws && s.ws[1].pending == Nothing
  }

  lemma ReadVersion(cfg: Config) returns (tr: seq<State>)
    requires Hit(cfg)
    ensures Run(cfg, tr) && Untouched(cfg, Last(tr)) && Last(tr).ws[1].pc.Read?
    ensures var rd := Last(tr).ws[1].pc.rd;
            rd.stage == Fetch && rd.got == {} && rd.low == 0 && |rd.buf| == cfg.Size() && IsZero(rd.buf)
  {
    var zeros: Tuple := seq(cfg.Size(), _ => 0);
    var idle := Worker(Idle, Nothing);
    var s := State(zeros, map[0 := idle, 1 := idle], None, [zeros], [], 0);
    tr := [s];
    tr := Extend(cfg, tr, 1, BeginRead(zeros));
    tr := Extend(cfg, tr, 1, ReadControl);
  }

  lemma FirstLine(cfg: Config) returns (tr: seq<State>)
    requires Hit(cfg)
    ensures Run(cfg, tr) && Untouched(cfg, Last(tr)) && HasFirstLine(cfg, Last(tr))
  {
    tr := ReadVersion(cfg);
    tr := Extend(cfg, tr, 1, FetchLine(0));
  }

  /** Writer 0 has the lock and the first `k` lines. */
  ghost predicate Loading(cfg: Config, s: State, k: nat)
    requires cfg.Valid()
  {
    && Shaped(cfg, s) && HasFirstLine(cfg, s) && s.owner == Some(0) && IsLocked(cfg, s.mem, cfg.lines)
    && |s.hist| == 1 && |s.hist[0]| == cfg.Size() && IsZero(s.hist[0]) && s.ops == []
    && 0 in s.ws && s.ws[0].pending == Nothing && s.ws[0].pc.Load? && s.ws[0].pc.won && s.ws[0].pc.f == INCREMENT
    && IsLocked(cfg, s.ws[0].pc.buf, k) && (forall l :: l in s.ws[0].pc.got <==> 0 <= l < k)
  }

  lemma {:induction false} LoadLines(cfg: Config, tr: seq<State>, k: nat) returns (longer: seq<State>)
    requires Hit(cfg) && Run(cfg, tr) && Loading(cfg, Last(tr), k) && k <= cfg.lines
    ensures Run(cfg, longer) && Loading(cfg, Last(longer), cfg.lines)
    decreases cfg.lines - k
  {
    if k == cfg.lines {
      longer := tr;
    } else {
      longer := Extend(cfg, tr, 0, LoadLine(k));
      longer := LoadLines(cfg, longer, k + 1);
    }
  }

  lemma TakeLock(cfg: Config, tr: seq<State>) returns (longer: seq<State>)
    requires Hit(cfg) && Run(cfg, tr) && Untouched(cfg, Last(tr)) && HasFirstLine(cfg, Last(tr))
    ensures Run(cfg, longer) && Loading(cfg, Last(longer), cfg.lines)
  {
    longer := Extend(cfg, tr, 0, BeginUpdate(INCREMENT));
    longer := Extend(cfg, longer, 0, ExecCas);
    longer := LoadLines(cfg, longer, 0);
  }

  /** The first `k` lines of the WRITE have landed, with the version cleared. */
  ghost predicate LandingHit(cfg: Config, s: State, k: nat)
    requires cfg.Valid()
  {
    && Shaped(cfg, s) && HasFirstLine(cfg, s) && s.owner == Some(0)
    && (forall i :: 0 <= i < cfg.Size() && i / LINE < k ==>
         s.mem[i] == if IsField(i) then 1 else 0)
    && Published(cfg, s)
    && 0 in s.ws && s.ws[0].pending.Landing? && s.ws[0].pending.landed == k && IsBumped(cfg, s.ws[0].pending.bytes, 0)
  }

  /** One commit has been published. */
  ghost predicate Published(cfg: Config, s: State)
    requires cfg.Valid()
  {
    && |s.hist| == 2 && IsZero(s.hist[0]) && IsBumped(cfg, s.hist[1], 1) && s.ops == [INCREMENT]
    && |s.hist[0]| == cfg.Size() == |s.hist[1]|
  }

  lemma PayloadIsBumped(cfg: Config, buf: Tuple)
    requires Hit(cfg) && |buf| == cfg.Size() && IsLocked(cfg, buf, cfg.lines)
    ensures IsBumped(cfg, Payload(cfg, Edited(cfg, INCREMENT, buf)), 1)
  {
    var e := Edited(cfg, INCREMENT, buf);
    forall i | 0 <= i < cfg.Size()
      ensures Payload(cfg, e)[i] == if i == cfg.VersionIndex() then 1 else if IsField(i) then 1 else 0
    {
      assert IsField(i) ==> cfg.IsData(i);
    }
  }

  lemma PublishAndClear(cfg: Config, tr: seq<State>) returns (longer: seq<State>)
    requires Hit(cfg) && Run(cfg, tr) && Loading(cfg, Last(tr), cfg.lines)
    ensures Run(cfg, longer) && LandingHit(cfg, Last(longer), 0)
  {
    PayloadIsBumped(cfg, Last(tr).ws[0].pc.buf);
    longer := Extend(cfg, tr, 0, Publish);
    var bytes := Last(longer).ws[0].pending.bytes;
    longer := Extend(cfg, longer, 0, BeginRead(bytes));
  }

  ghost predicate LandedHit(cfg: Config, s: State)
    requires cfg.Valid()
  {
    && Shaped(cfg, s) && HasFirstLine(cfg, s) && s.owner == None && IsBumped(cfg, s.mem, 0) && Published(cfg, s)
  }

  lemma {:induction false} LandLines(cfg: Config, tr: seq<State>, k: nat) returns (longer: seq<State>)
    requires Hit(cfg) && Run(cfg, tr) && LandingHit(cfg, Last(tr), k) && k < cfg.lines
    ensures Run(cfg, longer) && LandedHit(cfg, Last(longer))
    decreases cfg.lines - k
  {
    longer := Extend(cfg, tr, 0, LandLine);
    if k + 1 < cfg.lines {
      longer := LandLines(cfg, longer, k + 1);
    }
  }

  /** Reader 1 has the first `k` lines; all but the first are from the new tuple. */
  ghost predicate Torn(cfg: Config, s: State, rd: Reading, k: nat)
    requires cfg.Valid()
  {
    && rd.low == 0 && rd.high <= 1 && |rd.buf| == cfg.Size()
    && rd.buf[cfg.VersionIndex()] == 0 && rd.buf[cfg.LockIndex()] == 0
    && (forall i :: 0 <= i < LINE ==> rd.buf[i] == 0)
    && (forall i :: LINE <= i < cfg.Size() && i / LINE < k && IsField(i) ==> rd.buf[i] == 1)
  }

  ghost predicate Fetching(cfg: Config, s: State, k: nat)
    requires cfg.Valid()
  {
    && Shaped(cfg, s) && s.owner == None && IsBumped(cfg, s.mem, 0) && Published(cfg, s)
    && 1 in s.ws && s.ws[1].pending == Nothing && s.ws[1].pc.Read? && s.ws[1].pc.rd.stage == Fetch
    && (forall l :: l in s.ws[1].pc.rd.got <==> 0 <= l < k) && Torn(cfg, s, s.ws[1].pc.rd, k)
  }

  lemma {:induction false} FetchLines(cfg: Config, tr: seq<State>, k: nat) returns (longer: seq<State>)
    requires Hit(cfg) && Run(cfg, tr) && 1 <= k <= cfg.lines && Fetching(cfg, Last(tr), k)
    ensures Run(cfg, longer) && Fetching(cfg, Last(longer), cfg.lines)
    decreases cfg.lines - k
  {
    if k == cfg.lines {
      longer := tr;
    } else {
      longer := Extend(cfg, tr, 1, FetchLine(k));
      longer := FetchLines(cfg, longer, k + 1);
    }
  }

  ghost predicate Rechecked(cfg: Config, s: State, stage: Stage)
    requires cfg.Valid()
  {
    && Shaped(cfg, s) && s.owner == None && IsBumped(cfg, s.mem, 0) && Published(cfg, s)
    && 1 in s.ws && s.ws[1].pc.Read? && s.ws[1].pc.rd.stage == stage && s.ws[1].pc.rd.prev == 0
    && Torn(cfg, s, s.ws[1].pc.rd, cfg.lines)
  }

  lemma CheckTorn(cfg: Config, tr: seq<State>) returns (longer: seq<State>)
    requires Hit(cfg) && Run(cfg, tr) && Fetching(cfg, Last(tr), cfg.lines)
    ensures Run(cfg, longer) && Rechecked(cfg, Last(longer), Recheck) && Last(longer).ws[1].pending == Nothing
  {
    longer := Extend(cfg, tr, 1, CheckFirst);
  }

  lemma RecheckTorn(cfg: Config, tr: seq<State>) returns (longer: seq<State>)
    requires Hit(cfg) && Run(cfg, tr) && Rechecked(cfg, Last(tr), Recheck)
    ensures Run(cfg, longer) && Rechecked(cfg, Last(longer), Done)
  {
    longer := Extend(cfg, tr, 1, ReadAgain);
  }

  lemma AcceptTorn(cfg: Config, tr: seq<State>) returns (longer: seq<State>)
    requires Hit(cfg) && Run(cfg, tr) && Fetching(cfg, Last(tr), cfg.lines)
    ensures Run(cfg, longer)
    ensures var s := Last(longer);
            && Shaped(cfg, s) && s.owner == None && IsBumped(cfg, s.mem, 0) && Published(cfg, s)
            && 1 in s.ws && s.ws[1].pc.Accepted? && Torn(cfg, s, s.ws[1].pc.rd, cfg.lines)
  {
    longer := CheckTorn(cfg, tr);
    longer := RecheckTorn(cfg, longer);
    longer := Extend(cfg, longer, 1, Decide);
  }

  lemma TornRun(cfg: Config) returns (tr: seq<State>)
    requires Hit(cfg)
    ensures Run(cfg, tr)
    ensures var s := Last(tr);
            && Shaped(cfg, s) && s.owner == None && IsBumped(cfg, s.mem, 0) && Published(cfg, s)
            && 1 in s.ws && s.ws[1].pc.Accepted? && Torn(cfg, s, s.ws[1].pc.rd, cfg.lines)
  {
    tr := FirstLine(cfg);
    tr := TakeLock(cfg, tr);
    tr := PublishAndClear(cfg, tr);
    tr := LandLines(cfg, tr, 0);
    tr := FetchLines(cfg, tr, 1);
    tr := AcceptTorn(cfg, tr);
  }
}
