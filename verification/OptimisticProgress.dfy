/** An undisturbed operation of the optimistic protocols completes, in every configuration that keeps payloads and from
    every reachable state: a writer commits, a reader accepts, and whoever owns the lock can release it. */
module OptimisticProgress {
  import opened Words
  import opened TupleLayout
  import opened OptimisticProtocol
  import opened OptimisticLinearizability
  import opened OptimisticDecisions

  lemma ExtendSound(cfg: Config, tr: seq<State>, w: Id, a: Action) returns (longer: seq<State>)
    requires Run(cfg, tr) && Inv(cfg, Last(tr)) && cfg.KeepsPayload() && Enabled(cfg, Last(tr), w, a)
    ensures Run(cfg, longer) && longer == tr + [Apply(cfg, Last(tr), w, a)] && Inv(cfg, Last(longer))
  {
    longer := Extend(cfg, tr, w, a);
    StepKeepsInv(cfg, Last(tr), w, a);
  }

  // ---- a writer ---------------------------------------------------------------------------------------------

  /** Nobody owns the lock, and worker `w` is idle. */
  ghost predicate Ready(cfg: Config, s: State, w: Id) {
    s.owner == None && w in s.ws && s.ws[w] == Worker(Idle, Nothing) && Inv(cfg, s)
  }

  /** Since `s`, the writer has taken the lock and read the first `k` lines. */
  ghost predicate Loading(cfg: Config, s: State, s': State, w: Id, f: Update, k: nat) {
    && Inv(cfg, s') && s'.hist == s.hist && s'.ops == s.ops && w in s'.ws && s'.ws == s.ws[w := s'.ws[w]]
    && s'.ws[w].pending == Nothing && s'.ws[w].pc.Load? && s'.ws[w].pc.won && s'.ws[w].pc.f == f
    && forall l :: 0 <= l < k ==> l in s'.ws[w].pc.got
  }

  lemma {:induction false} LoadLines(cfg: Config, tr: seq<State>, s: State, w: Id, f: Update, k: nat)
    returns (longer: seq<State>)
    requires Run(cfg, tr) && cfg.KeepsPayload() && Loading(cfg, s, Last(tr), w, f, k) && k <= cfg.lines
    ensures Run(cfg, longer) && Loading(cfg, s, Last(longer), w, f, cfg.lines)
    decreases cfg.lines - k
  {
    longer := tr;
    if k < cfg.lines {
      if k !in Last(longer).ws[w].pc.got {
        longer := ExtendSound(cfg, longer, w, LoadLine(k));
      }
      longer := LoadLines(cfg, longer, s, w, f, k + 1);
    }
  }

  lemma Lock(cfg: Config, tr: seq<State>, w: Id, f: Update) returns (longer: seq<State>)
    requires Run(cfg, tr) && cfg.KeepsPayload() && Ready(cfg, Last(tr), w)
    ensures Run(cfg, longer) && Loading(cfg, Last(tr), Last(longer), w, f, 0)
  {
    longer := ExtendSound(cfg, tr, w, BeginUpdate(f));
    longer := ExtendSound(cfg, longer, w, ExecCas);
  }

  /** Since `s`, the writer has published one commit and `k` of its lines have landed. */
  ghost predicate Unlocking(cfg: Config, s: State, s': State, w: Id, f: Update, k: nat) {
    && Inv(cfg, s') && s.hist <= s'.hist && |s'.hist| == |s.hist| + 1 && s'.ops == s.ops + [f]
    && w in s'.ws && s'.ws == s.ws[w := s'.ws[w]]
    && w in s.ws && s'.ws[w].pc == s.ws[w].pc && s'.ws[w].pending.Landing? && s'.ws[w].pending.landed == k
  }

  lemma PublishOne(cfg: Config, tr: seq<State>, s: State, w: Id, f: Update) returns (longer: seq<State>)
    requires Run(cfg, tr) && cfg.KeepsPayload() && Loading(cfg, s, Last(tr), w, f, cfg.lines)
    requires w in s.ws && s.ws[w].pc == Idle
    ensures Run(cfg, longer) && Unlocking(cfg, s, Last(longer), w, f, 0)
  {
    longer := ExtendSound(cfg, tr, w, Publish);
  }

  /** Since `s`, there was one commit. */
  ghost predicate OneMore(cfg: Config, s: State, s': State, w: Id, f: Update) {
    && Inv(cfg, s') && s'.owner == None && s'.ws == s.ws
    && s.hist <= s'.hist && |s'.hist| == |s.hist| + 1 && s'.ops == s.ops + [f]
  }

  /** Since `s`, the writer has published one commit, and all of it has landed. */
  ghost predicate Released(cfg: Config, s: State, s': State, w: Id, f: Update) {
    && Inv(cfg, s') && s.hist <= s'.hist && |s'.hist| == |s.hist| + 1 && s'.ops == s.ops + [f]
    && w in s'.ws && s'.ws == s.ws[w := s'.ws[w]]
    && w in s.ws && s'.ws[w].pc == s.ws[w].pc && s'.ws[w].pending.Releasing?
  }

  lemma LandFooter(cfg: Config, tr: seq<State>, s: State, w: Id, f: Update) returns (longer: seq<State>)
    requires Run(cfg, tr) && cfg.KeepsPayload() && w in s.ws && s.ws[w].pending == Nothing
    requires Unlocking(cfg, s, Last(tr), w, f, cfg.lines - 1) && cfg.lines >= 1 && cfg.position.Footer?
    ensures Run(cfg, longer) && OneMore(cfg, s, Last(longer), w, f)
  {
    longer := ExtendSound(cfg, tr, w, LandLine);
    assert Last(longer).ws == s.ws;
  }

  lemma LandHeader(cfg: Config, tr: seq<State>, s: State, w: Id, f: Update) returns (longer: seq<State>)
    requires Run(cfg, tr) && cfg.KeepsPayload() && w in s.ws && s.ws[w].pending == Nothing
    requires Unlocking(cfg, s, Last(tr), w, f, cfg.lines - 1) && cfg.lines >= 1 && cfg.position.Header?
    ensures Run(cfg, longer) && Released(cfg, s, Last(longer), w, f)
  {
    longer := ExtendSound(cfg, tr, w, LandLine);
  }

  lemma ReleaseLast(cfg: Config, tr: seq<State>, s: State, w: Id, f: Update) returns (longer: seq<State>)
    requires Run(cfg, tr) && cfg.KeepsPayload() && w in s.ws && s.ws[w].pending == Nothing
    requires Released(cfg, s, Last(tr), w, f)
    ensures Run(cfg, longer) && OneMore(cfg, s, Last(longer), w, f)
  {
    longer := ExtendSound(cfg, tr, w, ExecRelease);
    assert Last(longer).ws == s.ws;
  }

  lemma {:induction false} LandLines(cfg: Config, tr: seq<State>, s: State, w: Id, f: Update, k: nat)
    returns (longer: seq<State>)
    requires Run(cfg, tr) && cfg.KeepsPayload() && w in s.ws && s.ws[w].pending == Nothing
    requires Unlocking(cfg, s, Last(tr), w, f, k) && k < cfg.lines
    ensures Run(cfg, longer) && OneMore(cfg, s, Last(longer), w, f)
    decreases cfg.lines - k
  {
    if k + 1 < cfg.lines {
      longer := ExtendSound(cfg, tr, w, LandLine);
      longer := LandLines(cfg, longer, s, w, f, k + 1);
    } else {
      if cfg.position.Footer? {
        longer := LandFooter(cfg, tr, s, w, f);
      } else {
        longer := LandHeader(cfg, tr, s, w, f);
        longer := ReleaseLast(cfg, longer, s, w, f);
      }
    }
  }

  lemma Commit(cfg: Config, tr: seq<State>, w: Id, f: Update) returns (longer: seq<State>)
    requires Run(cfg, tr) && cfg.KeepsPayload() && Ready(cfg, Last(tr), w)
    ensures Run(cfg, longer) && OneMore(cfg, Last(tr), Last(longer), w, f) && Ready(cfg, Last(longer), w)
  {
    var s := Last(tr);
    longer := Lock(cfg, tr, w, f);
    longer := LoadLines(cfg, longer, s, w, f, 0);
    longer := PublishOne(cfg, longer, s, w, f);
    longer := LandLines(cfg, longer, s, w, f, 0);
  }

  /** A writer alone, with any update: in the end the tuple in memory has been updated once, and nothing else has
      changed. */
  lemma WriterCompletes(cfg: Config, tr: seq<State>, w: Id, f: Update) returns (longer: seq<State>)
    requires Run(cfg, tr) && cfg.KeepsPayload() && Ready(cfg, Last(tr), w)
    ensures Run(cfg, longer) && Ready(cfg, Last(longer), w) && Last(longer).ws == Last(tr).ws
    ensures Last(longer).mem == AfterCommit(cfg, f, Last(tr).mem) && Last(longer).ops == Last(tr).ops + [f]
  {
    longer := Commit(cfg, tr, w, f);
    FreeMemory(cfg, Last(tr));
    FreeMemory(cfg, Last(longer));
  }

  /** A worker that has won the lock and has nothing in its send queue. */
  lemma WinnerReleases(cfg: Config, tr: seq<State>, w: Id) returns (longer: seq<State>)
    requires Run(cfg, tr) && cfg.KeepsPayload() && Inv(cfg, Last(tr)) && w in Last(tr).ws
    requires Last(tr).ws[w].pc.Load? && Last(tr).ws[w].pc.won
    ensures Run(cfg, longer) && Last(longer).owner == None
    ensures Last(longer).ws == Last(tr).ws[w := Worker(Idle, Nothing)]
  {
    var f := Last(tr).ws[w].pc.f;
    assert WorkerInv(cfg, Last(tr), Last(tr).ws[w]);
    var s := Last(tr).(ws := Last(tr).ws[w := Worker(Idle, Nothing)]);
    longer := LoadLines(cfg, tr, s, w, f, 0);
    longer := PublishOne(cfg, longer, s, w, f);
    longer := LandLines(cfg, longer, s, w, f, 0);
  }

  /** A worker whose WRITE is landing. */
  lemma WriteLands(cfg: Config, tr: seq<State>, w: Id) returns (longer: seq<State>)
    requires Run(cfg, tr) && cfg.KeepsPayload() && Inv(cfg, Last(tr)) && w in Last(tr).ws
    requires Last(tr).ws[w].pending.Landing?
    ensures Run(cfg, longer) && Last(longer).owner == None
    ensures Last(longer).ws == Last(tr).ws[w := Last(tr).ws[w].(pending := Nothing)]
  {
    var t, x := Last(tr), Last(tr).ws[w];
    assert WorkerInv(cfg, t, x);
    var n := |t.hist| - 1;
    var s := t.(ws := t.ws[w := x.(pending := Nothing)], hist := t.hist[..n], ops := t.ops[..n - 1]);
    assert t.ops == s.ops + [x.pending.f];
    longer := LandLines(cfg, tr, s, w, x.pending.f, x.pending.landed);
  }

  /** Whoever owns the lock can release it without a step of anybody else. */
  lemma OwnerReleases(cfg: Config, tr: seq<State>) returns (longer: seq<State>, w: Id)
    requires Run(cfg, tr) && cfg.KeepsPayload() && Last(tr).owner.Some?
    ensures Run(cfg, longer) && Last(longer).owner == None && Last(tr).owner == Some(w) && w in Last(tr).ws
    ensures w in Last(longer).ws && Last(longer).ws == Last(tr).ws[w := Last(longer).ws[w]]
  {
    RunInv(cfg, tr, |tr| - 1);
    w := Last(tr).owner.value;
    var x := Last(tr).ws[w];
    if x.pending.Landing? {
      longer := WriteLands(cfg, tr, w);
    } else if x.pending.Releasing? {
      longer := ExtendSound(cfg, tr, w, ExecRelease);
    } else {
      longer := WinnerReleases(cfg, tr, w);
    }
  }

  // ---- a reader ---------------------------------------------------------------------------------------------

  /** The run `longer` goes on from `tr` with steps of reader `w` only, and nobody owns the lock meanwhile. */
  ghost predicate Undisturbed(cfg: Config, tr: seq<State>, longer: seq<State>, w: Id) {
    && Run(cfg, longer) && Inv(cfg, Last(longer)) && 1 <= |tr| < |longer| && tr <= longer && w in Last(longer).ws
    && Last(longer) == Last(tr).(ws := Last(tr).ws[w := Last(longer).ws[w]], clock := Last(longer).clock)
    && Last(longer).ws[w].pending == Nothing && Last(longer).ws[w].pc.Read?
    && Last(longer).ws[w].pc.rd.began == |tr| - 1
    && (forall k :: |tr| - 1 <= k < |longer| ==> longer[k].owner == None && longer[k].mem == Last(tr).mem)
  }

  lemma ReadersChangeNothing(cfg: Config, s: State, w: Id, a: Action)
    requires Shaped(cfg, s) && Enabled(cfg, s, w, a) && s.ws[w].pc.Read? && Apply(cfg, s, w, a).ws[w].pc.Read?
    requires a.ReadControl? || a.FetchLine? || a.NextRead? || a.CheckFirst? || a.ReadAgain?
    ensures var x, x' := s.ws[w], Apply(cfg, s, w, a).ws[w];
      && Apply(cfg, s, w, a) == s.(ws := s.ws[w := x'], clock := s.clock + 1)
      && x'.pending == x.pending && x'.pc.rd.began == x.pc.rd.began
  {
  }

  lemma ReaderStep(cfg: Config, tr: seq<State>, mid: seq<State>, w: Id, a: Action) returns (longer: seq<State>)
    requires cfg.KeepsPayload() && Undisturbed(cfg, tr, mid, w) && Enabled(cfg, Last(mid), w, a)
    requires a.ReadControl? || a.FetchLine? || a.NextRead? || a.CheckFirst? || a.ReadAgain?
    requires Apply(cfg, Last(mid), w, a).ws[w].pc.Read?
    ensures Undisturbed(cfg, tr, longer, w) && longer == mid + [Apply(cfg, Last(mid), w, a)]
  {
    ReadersChangeNothing(cfg, Last(mid), w, a);
    longer := ExtendSound(cfg, mid, w, a);
  }

  lemma ReaderBegins(cfg: Config, tr: seq<State>, w: Id) returns (longer: seq<State>)
    requires Run(cfg, tr) && cfg.KeepsPayload() && Ready(cfg, Last(tr), w)
    ensures Undisturbed(cfg, tr, longer, w)
    ensures var rd := Last(longer).ws[w].pc.rd;
            rd.got == {} && rd.round == 1 && rd.stage == if cfg.consistency.FaRM? then Fetch else Control
  {
    RunClock(cfg, tr, |tr| - 1);
    longer := ExtendSound(cfg, tr, w, BeginRead(Last(tr).mem));
  }

  /** The first `k` lines have been fetched. */
  ghost predicate FirstLines(rd: Reading, k: nat) {
    rd.stage == Fetch && forall l :: l in rd.got <==> 0 <= l < k
  }

  lemma {:induction false} FetchLines(cfg: Config, tr: seq<State>, mid: seq<State>, w: Id, k: nat)
    returns (longer: seq<State>)
    requires cfg.KeepsPayload() && Undisturbed(cfg, tr, mid, w)
    requires FirstLines(Last(mid).ws[w].pc.rd, k) && k <= cfg.lines
    ensures Undisturbed(cfg, tr, longer, w) && FirstLines(Last(longer).ws[w].pc.rd, cfg.lines)
    ensures Last(longer).ws[w].pc.rd.round == Last(mid).ws[w].pc.rd.round
    decreases cfg.lines - k
  {
    longer := mid;
    if k < cfg.lines {
      longer := ReaderStep(cfg, tr, longer, w, FetchLine(k));
      longer := FetchLines(cfg, tr, longer, w, k + 1);
    }
  }

  /** FaRM's READs of one batch. */
  lemma {:induction false} FetchRounds(cfg: Config, tr: seq<State>, mid: seq<State>, w: Id) returns (longer: seq<State>)
    requires cfg.KeepsPayload() && Undisturbed(cfg, tr, mid, w) && FirstLines(Last(mid).ws[w].pc.rd, 0)
    requires cfg.consistency.FaRM? && 1 <= Last(mid).ws[w].pc.rd.round <= cfg.batch
    ensures Undisturbed(cfg, tr, longer, w) && Enabled(cfg, Last(longer), w, Decide)
    decreases cfg.batch - Last(mid).ws[w].pc.rd.round
  {
    longer := FetchLines(cfg, tr, mid, w, 0);
    if Last(longer).ws[w].pc.rd.round < cfg.batch {
      longer := ReaderStep(cfg, tr, longer, w, NextRead);
      longer := FetchRounds(cfg, tr, longer, w);
    }
  }

  /** V2's first small READ and the lines. */
  lemma ReadControlAndLines(cfg: Config, tr: seq<State>, mid: seq<State>, w: Id) returns (longer: seq<State>)
    requires cfg.KeepsPayload() && Undisturbed(cfg, tr, mid, w) && cfg.consistency.V2?
    requires Last(mid).ws[w].pc.rd.stage == Control && Last(mid).ws[w].pc.rd.got == {}
    ensures Undisturbed(cfg, tr, longer, w) && Enabled(cfg, Last(longer), w, CheckFirst)
  {
    longer := ReaderStep(cfg, tr, mid, w, ReadControl);
    longer := FetchLines(cfg, tr, longer, w, 0);
  }

  /** Nobody owned the lock when an undisturbed reader fetched it. */
  lemma FreeWhenFetched(cfg: Config, tr: seq<State>, mid: seq<State>, w: Id)
    requires cfg.KeepsPayload() && Undisturbed(cfg, tr, mid, w) && Enabled(cfg, Last(mid), w, CheckFirst)
    ensures Last(mid).ws[w].pc.rd.at < |mid| && mid[Last(mid).ws[w].pc.rd.at].owner == None
  {
    RunDated(cfg, mid, |mid| - 1, w);
  }

  /** An undisturbed reader's check in `lock` lets it go on. */
  lemma CheckLetsGo(cfg: Config, tr: seq<State>, mid: seq<State>, w: Id) returns (longer: seq<State>)
    requires cfg.KeepsPayload() && Undisturbed(cfg, tr, mid, w) && Enabled(cfg, Last(mid), w, CheckFirst)
    ensures Undisturbed(cfg, tr, longer, w) && Enabled(cfg, Last(longer), w, ReadAgain)
  {
    ChecksFirstExactly(cfg, mid, |mid| - 1, w);
    FreeWhenFetched(cfg, tr, mid, w);
    longer := ReaderStep(cfg, tr, mid, w, CheckFirst);
  }

  lemma ReaderDecides(cfg: Config, tr: seq<State>, w: Id) returns (longer: seq<State>)
    requires Run(cfg, tr) && cfg.KeepsPayload() && Ready(cfg, Last(tr), w)
    ensures Undisturbed(cfg, tr, longer, w) && Enabled(cfg, Last(longer), w, Decide)
  {
    longer := ReaderBegins(cfg, tr, w);
    if cfg.consistency.FaRM? {
      longer := FetchRounds(cfg, tr, longer, w);
    } else {
      longer := ReadControlAndLines(cfg, tr, longer, w);
      longer := CheckLetsGo(cfg, tr, longer, w);
      longer := ReaderStep(cfg, tr, longer, w, ReadAgain);
    }
  }

  lemma ReaderAccepts(cfg: Config, tr: seq<State>, mid: seq<State>, w: Id) returns (longer: seq<State>)
    requires cfg.KeepsPayload() && Undisturbed(cfg, tr, mid, w) && Enabled(cfg, Last(mid), w, Decide)
    ensures Run(cfg, longer) && |longer| == |mid| + 1 && mid < longer && w in Last(longer).ws
    ensures Last(longer).ws[w].pc == Accepted(Last(mid).ws[w].pc.rd) && InBound(cfg, Last(mid).ws[w].pc.rd)
    ensures Last(longer) == Last(mid).(ws := Last(mid).ws[w := Last(longer).ws[w]], clock := Last(longer).clock)
  {
    UndisturbedAccepts(cfg, mid, |mid| - 1, w);
    longer := ExtendSound(cfg, mid, w, Decide);
  }

  /** A reader alone: it accepts, with exactly the tuple that is in memory, and nothing else has changed. */
  lemma ReaderCompletes(cfg: Config, tr: seq<State>, w: Id) returns (longer: seq<State>)
    requires Run(cfg, tr) && cfg.KeepsPayload() && Ready(cfg, Last(tr), w)
    ensures Run(cfg, longer) && w in Last(longer).ws && Last(longer).ws[w].pc.Accepted?
    ensures Last(longer).ws[w].pc.rd.buf == Last(tr).mem
    ensures Last(longer) == Last(tr).(ws := Last(tr).ws[w := Last(longer).ws[w]], clock := Last(longer).clock)
  {
    var mid := ReaderDecides(cfg, tr, w);
    longer := ReaderAccepts(cfg, tr, mid, w);
    AcceptedReadIsLinearizable(cfg, longer, |longer| - 1, w);
    var at := Last(longer).ws[w].pc.rd.at;
    assert longer[at] == mid[at];
  }
}
