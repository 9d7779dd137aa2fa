/** The optimistic tuple protocols of frontend/OptimisticLocks.hpp as a state machine.

    One remote tuple, any number of workers, which may also be busy with other tuples. Each worker's operations take
    effect in the order in which its queue pair received them. A WRITE lands line by line at increasing addresses, a
    READ fetches the lines in any order, one line is indivisible, and so is an atomic.

    `unlock()` does not wait for its WRITE. It stays in the send queue as `pending` while the worker begins its next
    operation, and a WRITE that is not inlined takes its bytes from the worker's copy only when a line lands: `bytes`
    is what the copy holds now.

    `owner`, `hist`, `ops`, `clock` and the second half of `Reading` are history variables: no guard and no
    word of memory depends on them. */
module OptimisticProtocol {
  import opened Words
  import opened TupleLayout

  type Id = nat

  /** The user's modification: the new value of each data word, given the tuple as read under the lock. */
  type Update = (Tuple, nat) -> Word

  datatype Stage = Control | Fetch | Recheck | Done

  datatype Reading = Reading(
    // OptimisticLock's own state
    stage: Stage, round: nat, got: set<nat>, buf: Tuple, prev: Word,
    // commit number of each fetched line, of V2's re-read version and of the lock word; lock state when read
    stamp: seq<nat>, vstamp: nat, base: nat, free: bool,
    // commits finished before the first fetch and published before the last one
    low: nat, high: nat,
    // clock of the operation's start, of the first fetch, of the fetch of the lock word, of the last fetch
    began: nat, first: nat, at: nat, last: nat)

  datatype Pc =
    | Idle
    | Cas(f: Update)                                           // CAS and READ posted
    | Load(won: bool, f: Update, got: set<nat>, buf: Tuple)    // CAS done, READ executing
    | Read(rd: Reading)
    | Accepted(rd: Reading)                                    // unlock() returned without OLRestartException

  /** What the last ExclusiveLock::unlock left in the send queue. */
  datatype Pending =
    | Nothing
    | Landing(f: Update, landed: nat, bytes: Tuple)            // WRITE executing
    | Releasing(f: Update)                                     // HeaderLock's fetch-and-add

  datatype Worker = Worker(pc: Pc, pending: Pending)

  datatype State = State(
    mem: Tuple, ws: map<Id, Worker>,
    owner: Option<Id>, hist: seq<Tuple>, ops: seq<Update>, clock: nat)

  datatype Action =
    | BeginUpdate(f: Update) | ExecCas | LoadLine(line: nat) | Lose | Publish | LandLine | ExecRelease
    | BeginRead(junk: Tuple) | ReadControl | FetchLine(line: nat) | NextRead | CheckFirst | ReadAgain | Decide
    | Finish | ReadElsewhere

  // ---- tuples ---------------------------------------------------------------------------------------------

  ghost function Edited(cfg: Config, f: Update, t: Tuple): Tuple
    requires cfg.Valid()
  {
    seq(|t|, i requires 0 <= i < |t| => if cfg.IsData(i) then f(t, i) else t[i])
  }

  /** The tuple after one whole exclusive section that started from the unlocked tuple `t`. */
  ghost function AfterCommit(cfg: Config, f: Update, t: Tuple): Tuple
    requires cfg.Valid() && |t| == cfg.Size()
  {
    Payload(cfg, Edited(cfg, f, t[cfg.LockIndex() := 1]))[cfg.LockIndex() := 0]
  }

  /** V2 reads the version and the lock apart from the rest of the tuple. */
  predicate InBulkRead(cfg: Config, i: nat)
    requires cfg.Valid()
  {
    cfg.consistency.FaRM? || (i != cfg.VersionIndex() && i != cfg.LockIndex())
  }

  /** The local copy after one line of the bulk READ has been fetched. */
  ghost function WithLine(cfg: Config, buf: Tuple, mem: Tuple, line: nat): Tuple
    requires cfg.Valid() && |buf| == |mem|
  {
    seq(|buf|, i requires 0 <= i < |buf| => if i / LINE == line && InBulkRead(cfg, i) then mem[i] else buf[i])
  }

  /** `from` copied into `mem` for one line. */
  ghost function Landed(mem: Tuple, from: Tuple, line: nat): Tuple
    requires |from| == |mem|
  {
    seq(|mem|, i requires 0 <= i < |mem| => if i / LINE == line then from[i] else mem[i])
  }

  ghost predicate AllLines(cfg: Config, got: set<nat>) {
    forall l :: 0 <= l < cfg.lines ==> l in got
  }

  /** checkConsistencyProof (FaRM) or the comparison with prev_version (V2), and checkLock. */
  ghost predicate Accepts(cfg: Config, rd: Reading)
    requires cfg.Valid() && |rd.buf| == cfg.Size()
  {
    && (if cfg.consistency.FaRM? then VersionsAgree(rd.buf) else rd.buf[cfg.VersionIndex()] == rd.prev)
    && rd.buf[cfg.LockIndex()] == 0
  }

  // ---- history --------------------------------------------------------------------------------------------

  ghost predicate IsLanding(s: State) {
    s.owner.Some? && s.owner.value in s.ws && s.ws[s.owner.value].pending.Landing? && |s.hist| >= 2
  }

  ghost predicate Committing(s: State) {
    s.owner.Some? && s.owner.value in s.ws && s.ws[s.owner.value].pending != Nothing && |s.hist| >= 2
  }

  /** The number of the newest published tuple. */
  ghost function Newest(s: State): nat
    requires |s.hist| >= 1
  {
    |s.hist| - 1
  }

  /** The number of the tuple that line `l` of the memory belongs to. */
  ghost function Epoch(s: State, l: nat): nat
    requires |s.hist| >= 1
  {
    if IsLanding(s) && l >= s.ws[s.owner.value].pending.landed then |s.hist| - 2 else |s.hist| - 1
  }

  /** A commit counts from the instant the lock word becomes 0 again. */
  ghost function CommittedIndex(s: State): nat
    requires |s.hist| >= 1
  {
    if Committing(s) then |s.hist| - 2 else |s.hist| - 1
  }

  ghost function Committed(s: State): Tuple
    requires |s.hist| >= 1
  {
    s.hist[CommittedIndex(s)]
  }

  // ---- the machine ----------------------------------------------------------------------------------------

  ghost predicate Init(cfg: Config, s: State) {
    && cfg.Valid()
    && s.mem == seq(cfg.Size(), _ => 0)
    && (forall w <- s.ws :: s.ws[w] == Worker(Idle, Nothing))
    && s.owner == None && s.hist == [s.mem] && s.ops == [] && s.clock == 0
  }

  /** The sizes of buffers: the part of the invariant that the step functions need to be defined. */
  ghost predicate Shaped(cfg: Config, s: State) {
    && cfg.Valid() && |s.mem| == cfg.Size() && |s.hist| >= 1
    && (forall w <- s.ws :: WorkerShaped(cfg, s.ws[w]))
  }

  ghost predicate WorkerShaped(cfg: Config, x: Worker) {
    && (x.pending.Landing? ==> |x.pending.bytes| == cfg.Size())
    && match x.pc
       case Load(_, _, _, buf) => |buf| == cfg.Size()
       case Read(rd) => |rd.buf| == cfg.Size() && |rd.stamp| == cfg.lines
       case Accepted(rd) => |rd.buf| == cfg.Size() && |rd.stamp| == cfg.lines
       case _ => true
  }

  /** Nothing that was posted after a pending WRITE executes before it. A reader that reuses the only copy finds there
      what the WRITE sends. */
  ghost predicate Enabled(cfg: Config, s: State, w: Id, a: Action)
    requires cfg.Valid()
  {
    w in s.ws &&
    var x := s.ws[w];
    match (a, x.pc)
    case (BeginUpdate(_), Idle) => true
    case (ExecCas, Cas(_)) => x.pending.Nothing?
    case (LoadLine(l), Load(_, _, got, _)) => l < cfg.lines && l !in got
    case (Lose, Load(won, _, got, _)) => !won && AllLines(cfg, got)
    case (Publish, Load(won, _, got, _)) => won && AllLines(cfg, got)
    case (LandLine, _) => x.pending.Landing?
    case (ExecRelease, _) => x.pending.Releasing?
    case (BeginRead(junk), Idle) =>
      |junk| == cfg.Size() && (cfg.buffers == 1 && x.pending.Landing? ==> junk == x.pending.bytes)
    case (ReadControl, Read(rd)) => x.pending.Nothing? && rd.stage == Control
    case (FetchLine(l), Read(rd)) => x.pending.Nothing? && rd.stage == Fetch && l < cfg.lines && l !in rd.got
    case (NextRead, Read(rd)) => cfg.consistency.FaRM? && AllLines(cfg, rd.got) && rd.round < cfg.batch
    case (CheckFirst, Read(rd)) => rd.stage == Fetch && cfg.consistency.V2? && AllLines(cfg, rd.got)
    case (ReadAgain, Read(rd)) => rd.stage == Recheck
    case (Decide, Read(rd)) =>
      if cfg.consistency.FaRM? then AllLines(cfg, rd.got) && rd.round == cfg.batch else rd.stage == Done
    case (Finish, Accepted(_)) => true
    case (ReadElsewhere, Idle) => true
    case _ => false
  }

  ghost function Put(s: State, w: Id, x: Worker): State {
    s.(ws := s.ws[w := x], clock := s.clock + 1)
  }

  ghost function PutPc(s: State, w: Id, pc: Pc): State
    requires w in s.ws
  {
    Put(s, w, s.ws[w].(pc := pc))
  }

  /** postCompareSwap(W_UNLOCKED, W_LOCKED): the old value decides, after the READ, who throws. */
  ghost function CasStep(cfg: Config, s: State, w: Id): State
    requires Shaped(cfg, s) && Enabled(cfg, s, w, ExecCas)
  {
    var won := s.mem[cfg.LockIndex()] == 0;
    var s' := PutPc(s, w, Load(won, s.ws[w].pc.f, {}, s.mem));
    if won then s'.(mem := s.mem[cfg.LockIndex() := 1], owner := Some(w)) else s'
  }

  /** The user's stores, ExclusiveLock::unlock's stores and the posting of the WRITE. */
  ghost function PublishStep(cfg: Config, s: State, w: Id): State
    requires Shaped(cfg, s) && Enabled(cfg, s, w, Publish)
  {
    var pc := s.ws[w].pc;
    var payload := Payload(cfg, Edited(cfg, pc.f, pc.buf));
    Put(s, w, Worker(Idle, Landing(pc.f, 0, payload))).(
      hist := s.hist + [payload[cfg.LockIndex() := 0]],
      ops := s.ops + [pc.f])
  }

  /** One line of the WRITE. FooterLock's last line carries the unlocked lock word. */
  ghost function LandStep(cfg: Config, s: State, w: Id): State
    requires Shaped(cfg, s) && Enabled(cfg, s, w, LandLine)
  {
    var x, p := s.ws[w], s.ws[w].pending;
    var mem := Landed(s.mem, p.bytes, p.landed);
    if p.landed + 1 < cfg.lines then Put(s, w, x.(pending := Landing(p.f, p.landed + 1, p.bytes))).(mem := mem)
    else if cfg.position.Header? then Put(s, w, x.(pending := Releasing(p.f))).(mem := mem)
    else Put(s, w, x.(pending := Nothing)).(mem := mem, owner := None)
  }

  /** HeaderLock: postFetchAdd(int64_t{-1}). */
  ghost function ReleaseStep(cfg: Config, s: State, w: Id): State
    requires Shaped(cfg, s) && Enabled(cfg, s, w, ExecRelease)
  {
    var lock := cfg.LockIndex();
    Put(s, w, s.ws[w].(pending := Nothing)).(mem := s.mem[lock := Plus(s.mem[lock], -1)], owner := None)
  }

  /** V2 with a footer clears the version and lock slots of the copy. */
  ghost function Zeroed(cfg: Config, t: Tuple): Tuple
    requires cfg.Valid() && |t| == cfg.Size()
  {
    if cfg.ZeroesFirst() then Cleared(t) else t
  }

  /** With a single copy, the stores of OptimisticLock::lock reach the WRITE that is still pending from it. */
  ghost function Overwritten(cfg: Config, p: Pending): Pending
    requires cfg.Valid() && (p.Landing? ==> |p.bytes| == cfg.Size())
  {
    if p.Landing? && cfg.buffers == 1 && !cfg.Inlines() then Landing(p.f, p.landed, Zeroed(cfg, p.bytes)) else p
  }

  /** OptimisticLock::lock begins. */
  ghost function BeginReadStep(cfg: Config, s: State, w: Id, junk: Tuple): State
    requires Shaped(cfg, s) && Enabled(cfg, s, w, BeginRead(junk))
  {
    var stage := if cfg.consistency.FaRM? then Fetch else Control;
    var stamp := seq(cfg.lines, _ => 0);
    var rd :=
      Reading(stage, 1, {}, Zeroed(cfg, junk), 0, stamp, 0, 0, false, 0, 0, s.clock, s.clock, s.clock, s.clock);
    Put(s, w, Worker(Read(rd), Overwritten(cfg, s.ws[w].pending)))
  }

  /** The worker reads another tuple, with the same copy. */
  ghost function ReadElsewhereStep(cfg: Config, s: State, w: Id): State
    requires Shaped(cfg, s) && Enabled(cfg, s, w, ReadElsewhere)
  {
    Put(s, w, Worker(Idle, Overwritten(cfg, s.ws[w].pending)))
  }

  /** V2's first READ of 16 bytes: version and lock of one line, at one instant. */
  ghost function ReadControlStep(cfg: Config, s: State, w: Id): State
    requires Shaped(cfg, s) && Enabled(cfg, s, w, ReadControl)
  {
    var rd := s.ws[w].pc.rd;
    var v, lock := cfg.VersionIndex(), cfg.LockIndex();
    PutPc(s, w, Read(rd.(
      stage := Fetch, buf := rd.buf[v := s.mem[v]][lock := s.mem[lock]],
      base := Epoch(s, lock / LINE), free := s.owner == None, low := CommittedIndex(s), high := Newest(s),
      first := s.clock, at := s.clock, last := s.clock)))
  }

  /** One line of the bulk READ. */
  ghost function FetchStep(cfg: Config, s: State, w: Id, l: nat): State
    requires Shaped(cfg, s) && Enabled(cfg, s, w, FetchLine(l))
  {
    var rd := s.ws[w].pc.rd;
    var opens := cfg.consistency.FaRM? && rd.got == {};
    var locks := cfg.consistency.FaRM? && l == cfg.LockIndex() / LINE;
    PutPc(s, w, Read(rd.(
      got := rd.got + {l}, buf := WithLine(cfg, rd.buf, s.mem, l),
      stamp := rd.stamp[l := Epoch(s, l)],
      base := if locks then Epoch(s, l) else rd.base,
      free := if locks then s.owner == None else rd.free,
      low := if opens then CommittedIndex(s) else rd.low,
      high := Newest(s),
      first := if opens then s.clock else rd.first,
      at := if locks then s.clock else rd.at,
      last := s.clock)))
  }

  /** V2 after the bulk READ: prev_version is taken and checkLock may restart. */
  ghost function CheckFirstStep(cfg: Config, s: State, w: Id): State
    requires Shaped(cfg, s) && Enabled(cfg, s, w, CheckFirst)
  {
    var rd := s.ws[w].pc.rd;
    if rd.buf[cfg.LockIndex()] != 0 then PutPc(s, w, Idle)
    else PutPc(s, w, Read(rd.(stage := Recheck, prev := rd.buf[cfg.VersionIndex()])))
  }

  /** V2's unlock(): Header re-reads the version, Footer the version and the lock. */
  ghost function ReadAgainStep(cfg: Config, s: State, w: Id): State
    requires Shaped(cfg, s) && Enabled(cfg, s, w, ReadAgain)
  {
    var rd := s.ws[w].pc.rd;
    var v, lock := cfg.VersionIndex(), cfg.LockIndex();
    var buf := rd.buf[v := s.mem[v]];
    PutPc(s, w, Read(rd.(
      stage := Done, buf := if cfg.position.Footer? then buf[lock := s.mem[lock]] else buf,
      vstamp := Epoch(s, v / LINE), high := Newest(s), last := s.clock)))
  }

  ghost function DecideStep(cfg: Config, s: State, w: Id): State
    requires Shaped(cfg, s) && Enabled(cfg, s, w, Decide)
  {
    var rd := s.ws[w].pc.rd;
    PutPc(s, w, if Accepts(cfg, rd) then Accepted(rd) else Idle)
  }

  ghost function Apply(cfg: Config, s: State, w: Id, a: Action): State
    requires Shaped(cfg, s) && Enabled(cfg, s, w, a)
  {
    match a
    case BeginUpdate(f) => PutPc(s, w, Cas(f))
    case ExecCas => CasStep(cfg, s, w)
    case LoadLine(l) =>
      var pc := s.ws[w].pc;
      PutPc(s, w, Load(pc.won, pc.f, pc.got + {l}, Landed(pc.buf, s.mem, l)))
    case Lose => PutPc(s, w, Idle)
    case Publish => PublishStep(cfg, s, w)
    case LandLine => LandStep(cfg, s, w)
    case ExecRelease => ReleaseStep(cfg, s, w)
    case BeginRead(junk) => BeginReadStep(cfg, s, w, junk)
    case ReadControl => ReadControlStep(cfg, s, w)
    case FetchLine(l) => FetchStep(cfg, s, w, l)
    case NextRead => var rd := s.ws[w].pc.rd; PutPc(s, w, Read(rd.(got := {}, round := rd.round + 1)))
    case CheckFirst => CheckFirstStep(cfg, s, w)
    case ReadAgain => ReadAgainStep(cfg, s, w)
    case Decide => DecideStep(cfg, s, w)
    case Finish => PutPc(s, w, Idle)
    case ReadElsewhere => ReadElsewhereStep(cfg, s, w)
  }

  ghost predicate Next(cfg: Config, s: State, s': State) {
    exists w, a :: StepBy(cfg, s, w, a, s')
  }

  ghost predicate StepBy(cfg: Config, s: State, w: Id, a: Action, s': State) {
    Shaped(cfg, s) && Enabled(cfg, s, w, a) && s' == Apply(cfg, s, w, a)
  }

  /** A run: a finite sequence of states, each a step of some worker after the one before. */
  ghost predicate Run(cfg: Config, tr: seq<State>) {
    && |tr| >= 1 && Init(cfg, tr[0])
    && (forall i :: 0 <= i < |tr| - 1 ==> StepAt(cfg, tr, i))
  }

  ghost predicate StepAt(cfg: Config, tr: seq<State>, i: nat)
    requires i + 1 < |tr|
  {
    Next(cfg, tr[i], tr[i + 1])
  }

  // ---- the invariant --------------------------------------------------------------------------------------

  ghost predicate Holds(x: Worker) {
    (x.pc.Load? && x.pc.won) || x.pending != Nothing
  }

  /** Every published tuple is unlocked and carries its own number as version. */
  ghost predicate History(cfg: Config, hist: seq<Tuple>, ops: seq<Update>)
    requires cfg.Valid()
  {
    && |hist| >= 1 && |ops| == |hist| - 1
    && (forall k :: 0 <= k < |hist| ==> |hist[k]| == cfg.Size() && hist[k][cfg.LockIndex()] == 0)
    && (forall k, i :: 0 <= k < |hist| && 0 <= i < cfg.Size() && cfg.IsVersion(i) ==> hist[k][i] == k % WORD)
    && (forall k :: 1 <= k < |hist| ==> hist[k] == AfterCommit(cfg, ops[k - 1], hist[k - 1]))
  }

  ghost predicate HistInv(cfg: Config, s: State)
    requires cfg.Valid()
  {
    History(cfg, s.hist, s.ops)
  }

  /** Each line holds the tuple of its epoch; the lock word says whether there is an owner. */
  ghost predicate MemInv(cfg: Config, s: State)
    requires cfg.Valid() && HistInv(cfg, s)
  {
    && |s.mem| == cfg.Size()
    && (forall i :: 0 <= i < cfg.Size() && i != cfg.LockIndex() ==> s.mem[i] == s.hist[Epoch(s, i / LINE)][i])
    && s.mem[cfg.LockIndex()] == (if s.owner.None? then 0 else 1)
  }

  ghost predicate OwnerInv(s: State) {
    && (s.owner.Some? ==> s.owner.value in s.ws && Holds(s.ws[s.owner.value]))
    && (forall w <- s.ws :: Holds(s.ws[w]) ==> s.owner == Some(w))
  }

  ghost predicate ReadingInv(cfg: Config, s: State, rd: Reading)
    requires cfg.Valid() && HistInv(cfg, s)
  {
    var v, lock := cfg.VersionIndex(), cfg.LockIndex();
    && |rd.buf| == cfg.Size() && |rd.stamp| == cfg.lines
    && rd.low <= CommittedIndex(s) && rd.high <= Newest(s)
    && (forall l :: l in rd.got ==> l < cfg.lines)
    && (forall l :: 0 <= l < cfg.lines && l in rd.got ==>
          rd.low <= rd.stamp[l] <= rd.high && rd.stamp[l] <= Epoch(s, l))
    && (forall i :: 0 <= i < cfg.Size() && i / LINE in rd.got && InBulkRead(cfg, i) && i != lock ==>
          rd.buf[i] == s.hist[rd.stamp[i / LINE]][i])
    && (if cfg.consistency.FaRM?
        then
          && rd.stage == Fetch
          && (lock / LINE in rd.got ==> rd.base == rd.stamp[lock / LINE] && (rd.buf[lock] == 0 <==> rd.free))
        else
          && (rd.stage == Control ==> rd.got == {})
          && (rd.stage != Control ==>
                && rd.low <= rd.base <= rd.high && rd.base <= Epoch(s, v / LINE)
                && (rd.free ==> rd.base == rd.low)
                && (rd.stage != Done || cfg.position.Header? ==> (rd.buf[lock] == 0 <==> rd.free)))
          && (rd.stage == Fetch || rd.stage == Recheck ==> rd.buf[v] == rd.base % WORD)
          && (rd.stage == Recheck || rd.stage == Done ==>
                AllLines(cfg, rd.got) && rd.free && rd.prev == rd.base % WORD)
          && (rd.stage == Done ==>
                && rd.base <= rd.vstamp <= rd.high
                && rd.buf[v] == rd.vstamp % WORD
                && (rd.buf[lock] == 0 ==> forall l :: 0 <= l < cfg.lines ==> rd.stamp[l] <= rd.vstamp)))
  }

  ghost predicate PcInv(cfg: Config, s: State, pc: Pc)
    requires cfg.Valid() && HistInv(cfg, s) && MemInv(cfg, s)
  {
    match pc
    case Load(won, _, got, buf) =>
      && |buf| == cfg.Size()
      && (won ==> forall i :: 0 <= i < cfg.Size() && i / LINE in got ==> buf[i] == s.mem[i])
    case Read(rd) => ReadingInv(cfg, s, rd)
    case Accepted(rd) => ReadingInv(cfg, s, rd) && Accepts(cfg, rd) && AllLines(cfg, rd.got) &&
                         (cfg.consistency.V2? ==> rd.stage == Done)
    case _ => true
  }

  /** What is in the send queue is the newest published tuple. */
  ghost predicate Posted(cfg: Config, hist: seq<Tuple>, ops: seq<Update>, p: Pending)
    requires cfg.Valid() && History(cfg, hist, ops)
  {
    match p
    case Nothing => true
    case Landing(f, landed, bytes) =>
      && landed < cfg.lines && |bytes| == cfg.Size() && |hist| >= 2
      && hist[|hist| - 1] == bytes[cfg.LockIndex() := 0]
      && bytes[cfg.LockIndex()] == (if cfg.position.Header? then 1 else 0)
      && f == ops[|ops| - 1]
    case Releasing(f) => cfg.position.Header? && |hist| >= 2 && f == ops[|ops| - 1]
  }

  ghost predicate WorkerInv(cfg: Config, s: State, x: Worker)
    requires cfg.Valid() && HistInv(cfg, s) && MemInv(cfg, s)
  {
    PcInv(cfg, s, x.pc) && Posted(cfg, s.hist, s.ops, x.pending) && (x.pending != Nothing ==> !x.pc.Load?)
  }

  ghost predicate Inv(cfg: Config, s: State)
    ensures Inv(cfg, s) ==> Shaped(cfg, s)
  {
    && cfg.Valid() && HistInv(cfg, s) && MemInv(cfg, s) && OwnerInv(s)
    && (forall w <- s.ws :: WorkerInv(cfg, s, s.ws[w]))
  }

  // ---- every step keeps the invariant -----------------------------------------------------------------------

  /** History is only appended to and no line ever goes back to an older tuple. */
  ghost predicate Grows(cfg: Config, s: State, s': State)
    requires cfg.Valid() && HistInv(cfg, s) && HistInv(cfg, s')
  {
    && |s.hist| <= |s'.hist|
    && (forall k :: 0 <= k < |s.hist| ==> s'.hist[k] == s.hist[k])
    && (forall l :: 0 <= l < cfg.lines ==> Epoch(s, l) <= Epoch(s', l))
    && CommittedIndex(s) <= CommittedIndex(s')
  }

  lemma VersionOf(cfg: Config, s: State, k: nat, i: nat)
    requires cfg.Valid() && HistInv(cfg, s) && k < |s.hist| && i < cfg.Size() && cfg.IsVersion(i)
    ensures s.hist[k][i] == k % WORD
  {
  }

  lemma ReadingStable(cfg: Config, s: State, s': State, rd: Reading)
    requires cfg.Valid() && HistInv(cfg, s) && HistInv(cfg, s') && Grows(cfg, s, s')
    requires ReadingInv(cfg, s, rd)
    ensures ReadingInv(cfg, s', rd)
  {
  }

  /** What a worker knows depends on memory and history only. */
  lemma SameView(cfg: Config, s: State, s': State, x: Worker)
    requires cfg.Valid() && HistInv(cfg, s) && MemInv(cfg, s) && HistInv(cfg, s') && MemInv(cfg, s')
    requires s'.mem == s.mem && s'.hist == s.hist && s'.ops == s.ops && Grows(cfg, s, s')
    requires WorkerInv(cfg, s, x)
    ensures WorkerInv(cfg, s', x)
  {
    if x.pc.Read? || x.pc.Accepted? {
      ReadingStable(cfg, s, s', x.pc.rd);
    }
  }

  /** A step of a worker that changes nothing but its program counter. */
  lemma QuietStep(cfg: Config, s: State, w: Id, x: Worker)
    requires Inv(cfg, s) && w in s.ws && Holds(x) == Holds(s.ws[w]) && x.pending == s.ws[w].pending
    requires WorkerInv(cfg, s, x)
    ensures Inv(cfg, Put(s, w, x))
  {
    var s' := Put(s, w, x);
    assert IsLanding(s') == IsLanding(s) && CommittedIndex(s') == CommittedIndex(s);
    forall l ensures Epoch(s', l) == Epoch(s, l) {}
    forall u | u in s'.ws ensures WorkerInv(cfg, s', s'.ws[u]) {
      assert WorkerInv(cfg, s, s'.ws[u]);
      SameView(cfg, s, s', s'.ws[u]);
    }
  }

  /** A step of the owner, or of the worker that becomes the owner. */
  lemma OwnerStep(cfg: Config, s: State, s': State, w: Id, x: Worker)
    requires Inv(cfg, s) && w in s.ws && (s.owner == None || s.owner == Some(w))
    requires s'.ws == s.ws[w := x] && s'.owner == (if Holds(x) then Some(w) else None)
    requires HistInv(cfg, s') && MemInv(cfg, s') && Grows(cfg, s, s') && WorkerInv(cfg, s', x)
    ensures Inv(cfg, s')
  {
    forall u | u in s'.ws && u != w ensures WorkerInv(cfg, s', s'.ws[u]) {
      assert WorkerInv(cfg, s, s.ws[u]) && !Holds(s.ws[u]);
      if s.ws[u].pc.Read? || s.ws[u].pc.Accepted? {
        ReadingStable(cfg, s, s', s.ws[u].pc.rd);
      }
    }
  }

  lemma CasKeepsInv(cfg: Config, s: State, w: Id)
    requires Inv(cfg, s) && Enabled(cfg, s, w, ExecCas)
    ensures Inv(cfg, CasStep(cfg, s, w))
  {
    var s' := CasStep(cfg, s, w);
    if s.mem[cfg.LockIndex()] == 0 {
      forall l ensures Epoch(s', l) == Epoch(s, l) {}
      OwnerStep(cfg, s, s', w, s'.ws[w]);
    } else {
      QuietStep(cfg, s, w, s'.ws[w]);
    }
  }

  lemma LoadLineKeepsInv(cfg: Config, s: State, w: Id, l: nat)
    requires Inv(cfg, s) && Enabled(cfg, s, w, LoadLine(l))
    ensures Inv(cfg, Apply(cfg, s, w, LoadLine(l)))
  {
    var s' := Apply(cfg, s, w, LoadLine(l));
    assert WorkerInv(cfg, s, s.ws[w]);
    QuietStep(cfg, s, w, s'.ws[w]);
  }

  /** The owner's finished copy is the committed tuple with the lock set, so what it publishes is one commit. */
  lemma PublishIsCommit(cfg: Config, s: State, w: Id)
    requires Inv(cfg, s) && Enabled(cfg, s, w, Publish)
    ensures s.ws[w].pc.buf == s.hist[Newest(s)][cfg.LockIndex() := 1]
    ensures PublishStep(cfg, s, w).hist == s.hist + [AfterCommit(cfg, s.ws[w].pc.f, s.hist[Newest(s)])]
    ensures PublishStep(cfg, s, w).ws[w].pending.bytes[cfg.LockIndex()] == (if cfg.position.Header? then 1 else 0)
  {
    assert !cfg.IsData(cfg.LockIndex()) && !cfg.IsVersion(cfg.LockIndex());
    assert WorkerInv(cfg, s, s.ws[w]) && s.owner == Some(w);
    var buf := s.ws[w].pc.buf;
    forall i | 0 <= i < cfg.Size() ensures buf[i] == s.hist[Newest(s)][cfg.LockIndex() := 1][i] {
      assert i / LINE in s.ws[w].pc.got;
    }
    assert buf == s.hist[Newest(s)][cfg.LockIndex() := 1];
  }

  lemma AfterCommitBumps(cfg: Config, f: Update, t: Tuple, i: nat)
    requires cfg.Valid() && |t| == cfg.Size() && i < cfg.Size() && cfg.IsVersion(i)
    ensures AfterCommit(cfg, f, t)[i] == Plus(t[i], 1)
  {
    assert i != cfg.LockIndex();
    assert !cfg.IsData(i);
    var locked := t[cfg.LockIndex() := 1];
    assert locked[i] == t[i];
    var e := Edited(cfg, f, locked);
    assert e[i] == locked[i];
    assert Payload(cfg, e)[i] == Plus(e[i], 1);
  }

  lemma AfterCommitVersions(cfg: Config, f: Update, t: Tuple, n: nat)
    requires cfg.Valid() && |t| == cfg.Size()
    requires forall i :: 0 <= i < cfg.Size() && cfg.IsVersion(i) ==> t[i] == n % WORD
    ensures var t' := AfterCommit(cfg, f, t);
            && |t'| == cfg.Size() && t'[cfg.LockIndex()] == 0
            && forall i :: 0 <= i < cfg.Size() && cfg.IsVersion(i) ==> t'[i] == (n + 1) % WORD
  {
    PlusMod(n, 1);
    forall i | 0 <= i < cfg.Size() && cfg.IsVersion(i)
      ensures AfterCommit(cfg, f, t)[i] == (n + 1) % WORD
    {
      AfterCommitBumps(cfg, f, t, i);
    }
  }

  /** Appending one commit to the history of commits. */
  lemma CommitKeepsHist(cfg: Config, hist: seq<Tuple>, ops: seq<Update>, f: Update)
    requires cfg.Valid() && History(cfg, hist, ops)
    ensures History(cfg, hist + [AfterCommit(cfg, f, hist[|hist| - 1])], ops + [f])
  {
    AfterCommitVersions(cfg, f, hist[|hist| - 1], |hist| - 1);
  }

  lemma PublishKeepsInv(cfg: Config, s: State, w: Id)
    requires Inv(cfg, s) && Enabled(cfg, s, w, Publish)
    ensures Inv(cfg, PublishStep(cfg, s, w))
  {
    var s' := PublishStep(cfg, s, w);
    PublishIsCommit(cfg, s, w);
    CommitKeepsHist(cfg, s.hist, s.ops, s.ws[w].pc.f);
    assert s.owner == Some(w);
    var n := Newest(s);
    forall k | 0 <= k <= n ensures s'.hist[k] == s.hist[k] {}
    forall l | 0 <= l < cfg.lines ensures Epoch(s', l) == n && Epoch(s, l) == n {}
    OwnerStep(cfg, s, s', w, s'.ws[w]);
  }

  /** A landing line moves from the tuple before last to the last one. */
  lemma LandMovesLine(cfg: Config, s: State, w: Id)
    requires Inv(cfg, s) && Enabled(cfg, s, w, LandLine)
    ensures var s' := LandStep(cfg, s, w);
            && s.owner == Some(w) && s'.hist == s.hist && s'.ops == s.ops && HistInv(cfg, s') && MemInv(cfg, s')
            && (forall l :: 0 <= l < cfg.lines ==>
                 Epoch(s', l) == if l == s.ws[w].pending.landed then Newest(s) else Epoch(s, l))
            && CommittedIndex(s) <= CommittedIndex(s')
  {
    var s' := LandStep(cfg, s, w);
    assert WorkerInv(cfg, s, s.ws[w]) && s.owner == Some(w);
    forall l | 0 <= l < cfg.lines
      ensures Epoch(s', l) == if l == s.ws[w].pending.landed then Newest(s) else Epoch(s, l)
    {}
  }

  lemma LandKeepsPosted(cfg: Config, s: State, w: Id)
    requires Inv(cfg, s) && Enabled(cfg, s, w, LandLine)
    ensures var s' := LandStep(cfg, s, w);
            && Posted(cfg, s.hist, s.ops, s'.ws[w].pending) && s'.ws[w].pc == s.ws[w].pc && !s.ws[w].pc.Load?
            && s'.owner == (if s'.ws[w].pending != Nothing then Some(w) else None)
  {
    assert WorkerInv(cfg, s, s.ws[w]) && s.owner == Some(w);
  }

  lemma LandGrows(cfg: Config, s: State, w: Id)
    requires Inv(cfg, s) && Enabled(cfg, s, w, LandLine)
    ensures var s' := LandStep(cfg, s, w);
            HistInv(cfg, s') && MemInv(cfg, s') && Grows(cfg, s, s')
  {
    LandMovesLine(cfg, s, w);
  }

  lemma LandKeepsWorker(cfg: Config, s: State, s': State, w: Id)
    requires Inv(cfg, s) && Enabled(cfg, s, w, LandLine) && s' == LandStep(cfg, s, w)
    requires HistInv(cfg, s') && MemInv(cfg, s') && Grows(cfg, s, s') && s'.hist == s.hist && s'.ops == s.ops
    ensures WorkerInv(cfg, s', s'.ws[w]) && s'.owner == (if Holds(s'.ws[w]) then Some(w) else None)
  {
    LandKeepsPosted(cfg, s, w);
    assert WorkerInv(cfg, s, s.ws[w]);
    var pc := s.ws[w].pc;
    if pc.Read? || pc.Accepted? {
      ReadingStable(cfg, s, s', pc.rd);
    }
  }

  lemma LandKeepsInv(cfg: Config, s: State, w: Id)
    requires Inv(cfg, s) && Enabled(cfg, s, w, LandLine)
    ensures Inv(cfg, LandStep(cfg, s, w))
  {
    var s' := LandStep(cfg, s, w);
    LandMovesLine(cfg, s, w);
    LandGrows(cfg, s, w);
    LandKeepsWorker(cfg, s, s', w);
    OwnerStep(cfg, s, s', w, s'.ws[w]);
  }

  lemma ReleaseKeepsInv(cfg: Config, s: State, w: Id)
    requires Inv(cfg, s) && Enabled(cfg, s, w, ExecRelease)
    ensures Inv(cfg, ReleaseStep(cfg, s, w))
  {
    var s' := ReleaseStep(cfg, s, w);
    assert WorkerInv(cfg, s, s.ws[w]) && s.owner == Some(w);
    forall l ensures Epoch(s', l) == Epoch(s, l) {}
    OwnerStep(cfg, s, s', w, s'.ws[w]);
  }

  /** While the lock word is 0 the memory is exactly the newest tuple. */
  lemma FreeMemory(cfg: Config, s: State)
    requires Inv(cfg, s) && s.owner == None
    ensures s.mem == s.hist[Newest(s)] == Committed(s)
  {
    forall i | 0 <= i < cfg.Size() ensures s.mem[i] == s.hist[Newest(s)][i] {}
  }

  /** V2's version word shares its line with the lock word and names the tuple that the line belongs to. */
  lemma V2Control(cfg: Config, s: State)
    requires Inv(cfg, s) && cfg.consistency.V2?
    ensures cfg.VersionIndex() != cfg.LockIndex() && cfg.VersionIndex() / LINE == cfg.LockIndex() / LINE
    ensures cfg.VersionIndex() / LINE < cfg.lines
    ensures s.mem[cfg.VersionIndex()] == Epoch(s, cfg.VersionIndex() / LINE) % WORD
  {
    var v := cfg.VersionIndex();
    assert cfg.IsVersion(v);
    assert s.mem[v] == s.hist[Epoch(s, v / LINE)][v];
  }

  lemma ReadControlKeepsInv(cfg: Config, s: State, w: Id)
    requires Inv(cfg, s) && Enabled(cfg, s, w, ReadControl)
    ensures Inv(cfg, ReadControlStep(cfg, s, w))
  {
    var s' := ReadControlStep(cfg, s, w);
    assert WorkerInv(cfg, s, s.ws[w]);
    V2Control(cfg, s);
    QuietStep(cfg, s, w, s'.ws[w]);
  }

  lemma FetchKeepsReading(cfg: Config, s: State, rd: Reading, rd': Reading, l: nat)
    requires cfg.Valid() && HistInv(cfg, s) && MemInv(cfg, s) && ReadingInv(cfg, s, rd)
    requires rd.stage == Fetch && l < cfg.lines && l !in rd.got
    requires rd'.stage == Fetch && rd'.got == rd.got + {l} && rd'.prev == rd.prev
    requires rd'.buf == WithLine(cfg, rd.buf, s.mem, l) && rd'.stamp == rd.stamp[l := Epoch(s, l)]
    requires rd'.high == Newest(s)
    requires if cfg.consistency.FaRM? && rd.got == {} then rd'.low == CommittedIndex(s) else rd'.low == rd.low
    requires if cfg.consistency.FaRM? && l == cfg.LockIndex() / LINE
             then rd'.base == Epoch(s, l) && rd'.free == (s.owner == None)
             else rd'.base == rd.base && rd'.free == rd.free
    ensures ReadingInv(cfg, s, rd')
  {
    forall k | 0 <= k < cfg.lines && k in rd'.got
      ensures rd'.low <= rd'.stamp[k] <= rd'.high && rd'.stamp[k] <= Epoch(s, k)
    {
      assert k == l || k in rd.got;
    }
  }

  lemma FetchKeepsInv(cfg: Config, s: State, w: Id, l: nat)
    requires Inv(cfg, s) && Enabled(cfg, s, w, FetchLine(l))
    ensures Inv(cfg, FetchStep(cfg, s, w, l))
  {
    var s' := FetchStep(cfg, s, w, l);
    assert WorkerInv(cfg, s, s.ws[w]);
    FetchKeepsReading(cfg, s, s.ws[w].pc.rd, s'.ws[w].pc.rd, l);
    QuietStep(cfg, s, w, s'.ws[w]);
  }

  lemma CheckFirstKeepsInv(cfg: Config, s: State, w: Id)
    requires Inv(cfg, s) && Enabled(cfg, s, w, CheckFirst)
    ensures Inv(cfg, CheckFirstStep(cfg, s, w))
  {
    var s' := CheckFirstStep(cfg, s, w);
    assert WorkerInv(cfg, s, s.ws[w]);
    QuietStep(cfg, s, w, s'.ws[w]);
  }

  /** Header: the version line lands first. Footer: it lands last, but then the lock word tells. */
  lemma LinesBehindVersion(cfg: Config, s: State, rd: Reading, l: nat)
    requires Inv(cfg, s) && cfg.consistency.V2? && ReadingInv(cfg, s, rd) && rd.stage == Recheck && l < cfg.lines
    requires cfg.position.Header? || s.mem[cfg.LockIndex()] == 0
    ensures rd.stamp[l] <= Epoch(s, l) <= Epoch(s, cfg.VersionIndex() / LINE)
  {
    assert l in rd.got;
  }

  lemma ReadAgainKeepsReading(cfg: Config, s: State, rd: Reading, rd': Reading)
    requires cfg.Valid() && HistInv(cfg, s) && ReadingInv(cfg, s, rd) && cfg.consistency.V2?
    requires rd.stage == Recheck && |rd'.buf| == cfg.Size()
    requires forall i :: 0 <= i < cfg.Size() && InBulkRead(cfg, i) ==> rd'.buf[i] == rd.buf[i]
    requires cfg.position.Header? ==> rd'.buf[cfg.LockIndex()] == rd.buf[cfg.LockIndex()]
    requires rd' == rd.(stage := Done, buf := rd'.buf, vstamp := Epoch(s, cfg.VersionIndex() / LINE),
                        high := Newest(s), last := s.clock)
    requires rd'.buf[cfg.VersionIndex()] == rd'.vstamp % WORD
    requires rd'.buf[cfg.LockIndex()] == 0 ==> forall l :: 0 <= l < cfg.lines ==> rd.stamp[l] <= rd'.vstamp
    ensures ReadingInv(cfg, s, rd')
  {
  }

  lemma ReadAgainKeepsInv(cfg: Config, s: State, w: Id)
    requires Inv(cfg, s) && Enabled(cfg, s, w, ReadAgain)
    ensures Inv(cfg, ReadAgainStep(cfg, s, w))
  {
    var s' := ReadAgainStep(cfg, s, w);
    var rd, rd' := s.ws[w].pc.rd, s'.ws[w].pc.rd;
    assert WorkerInv(cfg, s, s.ws[w]);
    V2Control(cfg, s);
    forall l | 0 <= l < cfg.lines && rd'.buf[cfg.LockIndex()] == 0
      ensures rd.stamp[l] <= rd'.vstamp
    {
      LinesBehindVersion(cfg, s, rd, l);
    }
    ReadAgainKeepsReading(cfg, s, rd, rd');
    QuietStep(cfg, s, w, s'.ws[w]);
  }

  /** The steps that only move a worker's program counter or its round. */
  lemma LocalStepKeepsInv(cfg: Config, s: State, w: Id, a: Action)
    requires Inv(cfg, s) && Enabled(cfg, s, w, a)
    requires a.BeginUpdate? || a.Lose? || a.BeginRead? || a.NextRead? || a.Decide? || a.Finish? || a.ReadElsewhere?
    requires cfg.KeepsPayload()
    ensures Inv(cfg, Apply(cfg, s, w, a))
  {
    assert WorkerInv(cfg, s, s.ws[w]);
    QuietStep(cfg, s, w, Apply(cfg, s, w, a).ws[w]);
  }

  lemma StepKeepsInv(cfg: Config, s: State, w: Id, a: Action)
    requires Inv(cfg, s) && Enabled(cfg, s, w, a) && cfg.KeepsPayload()
    ensures Inv(cfg, Apply(cfg, s, w, a))
  {
    match a
    case ExecCas => CasKeepsInv(cfg, s, w);
    case LoadLine(l) => LoadLineKeepsInv(cfg, s, w, l);
    case Publish => PublishKeepsInv(cfg, s, w);
    case LandLine => LandKeepsInv(cfg, s, w);
    case ExecRelease => ReleaseKeepsInv(cfg, s, w);
    case ReadControl => ReadControlKeepsInv(cfg, s, w);
    case FetchLine(l) => FetchKeepsInv(cfg, s, w, l);
    case CheckFirst => CheckFirstKeepsInv(cfg, s, w);
    case ReadAgain => ReadAgainKeepsInv(cfg, s, w);
    case _ => LocalStepKeepsInv(cfg, s, w, a);
  }

  lemma StepKeepsShape(cfg: Config, s: State, w: Id, a: Action)
    requires Shaped(cfg, s) && Enabled(cfg, s, w, a)
    ensures Shaped(cfg, Apply(cfg, s, w, a))
  {
    var s' := Apply(cfg, s, w, a);
    assert WorkerShaped(cfg, s.ws[w]) && WorkerShaped(cfg, s'.ws[w]);
  }

  lemma StepTicks(cfg: Config, s: State, w: Id, a: Action)
    requires Shaped(cfg, s) && Enabled(cfg, s, w, a)
    ensures Apply(cfg, s, w, a).clock == s.clock + 1
    ensures s.hist <= Apply(cfg, s, w, a).hist && s.ops <= Apply(cfg, s, w, a).ops
  {
  }

  lemma NextKeepsInv(cfg: Config, s: State, s': State)
    requires Inv(cfg, s) && Next(cfg, s, s') && cfg.KeepsPayload()
    ensures Inv(cfg, s') && s'.clock == s.clock + 1 && s.hist <= s'.hist
  {
    var w, a :| StepBy(cfg, s, w, a, s');
    StepKeepsInv(cfg, s, w, a);
    StepTicks(cfg, s, w, a);
  }
}
