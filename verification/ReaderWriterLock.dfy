/** The reader/writer lock of frontend/locking_benchmark.cpp, all eight flag combinations.

    Any number of tuples, each a lock word and `words` payload words; any number of workers, each with one queue
    pair and one local buffer `buf`. Operations of one worker take effect in posting order. READ and WRITE
    transfer one word at a time, in any order. `late` is what the previous operation left in the send queue
    without waiting for it; nothing posted after it takes effect before it is gone.

    `owner`, `readers`, `val` and `uncounted` are history variables. */
module ReaderWriterLock {
  import opened Words

  type Id = nat

  const EXCLUSIVE_LOCKED: int := 0x1000_0000_0000_0000
  const EXCLUSIVE_UNLOCK_TO_BE_ADDED: int := 0xFFFF_FFFF_FFFF_FFFF - EXCLUSIVE_LOCKED + 1

  datatype Config = Config(
    speculativeRead: bool, writeCombining: bool, orderRelease: bool,
    tuples: nat, words: nat)

  datatype Late =
    | Nothing
    | LateWrite(t: nat, done: set<nat>)   // WRITE executing, fetch-and-add behind it
    | LateExclusive(t: nat)               // x_order_release's fetch-and-add
    | LateShared(t: nat)                  // s_order_release's fetch-and-add

  datatype Pc =
    | Idle
    // read: fetch-and-add posted; result to be tested; READ; undo posted; checked; s_unlock posted
    | SAdd(t: nat) | STest(t: nat) | SRead(t: nat, done: set<nat>) | SUndo(t: nat) | SGot(t: nat) | SDrop(t: nat)
    // write: CAS posted; result to be tested; READ; read; WRITE; x_unlock posted; done
    | XCas(t: nat) | XTest(t: nat) | XRead(t: nat, done: set<nat>) | XGot(t: nat)
    | XWrite(t: nat, done: set<nat>) | XAdd(t: nat) | XDone(t: nat)

  datatype Worker = Worker(pc: Pc, late: Late, buf: seq<Word>)

  datatype Cell = Cell(lock: Word, data: seq<Word>, owner: Option<Id>, readers: set<Id>, val: nat)

  datatype State = State(mem: seq<Cell>, ws: map<Id, Worker>, updates: nat, uncounted: set<Id>)

  datatype Action =
    | StartShared(t: nat) | ExecAdd | TestShared | ExecUndo | ReleaseShared | ExecDrop | ExecLateShared
    | StartExclusive(t: nat) | ExecCas | TestExclusive | Post | EndWrite | ExecXAdd | Count
    | ReadWord(i: nat) | EndRead | WriteWord(i: nat)
    | LateWriteWord(i: nat) | EndLateWrite | ExecLateExclusive

  // ---- the machine ----------------------------------------------------------------------------------------

  /** Word 0 is the lock word. */
  function Fetched(c: Cell, i: nat): Word
    requires i <= |c.data|
  {
    if i == 0 then c.lock else c.data[i - 1]
  }

  /** The basic variants READ the whole tuple, the speculative ones leave out the lock word. */
  function FirstRead(cfg: Config): nat {
    if cfg.speculativeRead then 1 else 0
  }

  ghost predicate DoneFrom(lo: nat, hi: nat, done: set<nat>) {
    forall i :: lo <= i <= hi ==> i in done
  }

  ghost predicate Init(cfg: Config, s: State) {
    && cfg.words >= 1 && |s.ws| < EXCLUSIVE_LOCKED
    && |s.mem| == cfg.tuples
    && (forall t :: 0 <= t < cfg.tuples ==> s.mem[t] == Cell(0, seq(cfg.words, _ => 0), None, {}, 0))
    && (forall w <- s.ws :: s.ws[w].pc == Idle && s.ws[w].late == Nothing && |s.ws[w].buf| == cfg.words + 1)
    && s.updates == 0 && s.uncounted == {}
  }

  /** Sizes and ranges: what the step functions need to be defined. */
  ghost predicate Shaped(cfg: Config, s: State) {
    && cfg.words >= 1 && |s.mem| == cfg.tuples
    && (forall t :: 0 <= t < cfg.tuples ==> |s.mem[t].data| == cfg.words)
    && (forall w <- s.ws :: WorkerShaped(cfg, s.ws[w]))
  }

  ghost predicate WorkerShaped(cfg: Config, x: Worker) {
    && |x.buf| == cfg.words + 1
    && (x.pc != Idle ==> x.pc.t < cfg.tuples)
    && (x.late != Nothing ==> x.late.t < cfg.tuples && (x.pc.Idle? || x.pc.SAdd? || x.pc.XCas?))
  }

  ghost predicate Enabled(cfg: Config, s: State, w: Id, a: Action) {
    w in s.ws &&
    var x := s.ws[w];
    match a
    case StartShared(t) => x.pc.Idle? && t < cfg.tuples
    case StartExclusive(t) => x.pc.Idle? && t < cfg.tuples
    case ExecAdd => x.pc.SAdd? && x.late.Nothing?
    case TestShared => x.pc.STest?
    case ExecUndo => x.pc.SUndo?
    case ReleaseShared => x.pc.SGot?
    case ExecDrop => x.pc.SDrop?
    case ExecLateShared => x.late.LateShared?
    case ExecCas => x.pc.XCas? && x.late.Nothing?
    case TestExclusive => x.pc.XTest?
    case ReadWord(i) => (x.pc.SRead? || x.pc.XRead?) && FirstRead(cfg) <= i <= cfg.words && i !in x.pc.done
    case EndRead => (x.pc.SRead? || x.pc.XRead?) && DoneFrom(FirstRead(cfg), cfg.words, x.pc.done)
    case Post => x.pc.XGot?
    case WriteWord(i) => x.pc.XWrite? && 1 <= i <= cfg.words && i !in x.pc.done
    case EndWrite => x.pc.XWrite? && DoneFrom(1, cfg.words, x.pc.done)
    case ExecXAdd => x.pc.XAdd?
    case Count => x.pc.XDone?
    case LateWriteWord(i) => x.late.LateWrite? && 1 <= i <= cfg.words && i !in x.late.done
    case EndLateWrite => x.late.LateWrite? && DoneFrom(1, cfg.words, x.late.done)
    case ExecLateExclusive => x.late.LateExclusive?
  }

  ghost function Put(s: State, w: Id, x: Worker): State {
    s.(ws := s.ws[w := x])
  }

  ghost function PutCell(s: State, w: Id, x: Worker, t: nat, c: Cell): State
    requires t < |s.mem|
  {
    s.(ws := s.ws[w := x], mem := s.mem[t := c])
  }

  /** postFetchAdd(1): the worker is registered from here on. */
  ghost function AddStep(cfg: Config, s: State, w: Id): State
    requires Shaped(cfg, s) && Enabled(cfg, s, w, ExecAdd)
  {
    var x := s.ws[w];
    var c := s.mem[x.pc.t];
    PutCell(s, w,
      x.(buf := x.buf[0 := c.lock], pc := if cfg.speculativeRead then SRead(x.pc.t, {}) else STest(x.pc.t)),
      x.pc.t, c.(lock := Plus(c.lock, 1), readers := c.readers + {w}))
  }

  /** postFetchAdd(int64_t{-1}) of s_unlock, after which the worker is at `pc`. */
  ghost function SubStep(cfg: Config, s: State, w: Id, t: nat, pc: Pc, late: Late): State
    requires Shaped(cfg, s) && w in s.ws && t < cfg.tuples
  {
    var x := s.ws[w];
    var c := s.mem[t];
    PutCell(s, w, x.(buf := x.buf[0 := c.lock], pc := pc, late := late),
      t, c.(lock := Plus(c.lock, -1), readers := c.readers - {w}))
  }

  /** postCompareSwap(UNLOCKED, EXCLUSIVE_LOCKED): the abstract counter is incremented here. */
  ghost function CasStep(cfg: Config, s: State, w: Id): State
    requires Shaped(cfg, s) && Enabled(cfg, s, w, ExecCas)
  {
    var x := s.ws[w];
    var t := x.pc.t;
    var c := s.mem[t];
    var x' := x.(buf := x.buf[0 := c.lock], pc := if cfg.speculativeRead then XRead(t, {}) else XTest(t));
    if c.lock == 0
    then PutCell(s, w, x', t, c.(lock := EXCLUSIVE_LOCKED, owner := Some(w), val := c.val + 1))
           .(uncounted := s.uncounted + {w})
    else Put(s, w, x')
  }

  /** postFetchAdd(EXCLUSIVE_UNLOCK_TO_BE_ADDED). */
  ghost function XAddStep(cfg: Config, s: State, w: Id, t: nat, pc: Pc, late: Late): State
    requires Shaped(cfg, s) && w in s.ws && t < cfg.tuples
  {
    var x := s.ws[w];
    var c := s.mem[t];
    PutCell(s, w, x.(buf := x.buf[0 := c.lock], pc := pc, late := late),
      t, c.(lock := Plus(c.lock, EXCLUSIVE_UNLOCK_TO_BE_ADDED), owner := None))
  }

  /** The completion of the READ; with a speculative read the lock result is tested only now. */
  ghost function EndReadStep(cfg: Config, s: State, w: Id): State
    requires Shaped(cfg, s) && Enabled(cfg, s, w, EndRead)
  {
    var x := s.ws[w];
    var t := x.pc.t;
    Put(s, w, x.(pc :=
      if x.pc.SRead? then
        if cfg.speculativeRead && x.buf[0] >= EXCLUSIVE_LOCKED then SUndo(t) else SGot(t)
      else
        if cfg.speculativeRead && x.buf[0] != 0 then XCas(t) else XGot(t)))
  }

  /** The loop that stores the new version into the payload of the local buffer. */
  ghost function Refilled(buf: seq<Word>): seq<Word>
    requires |buf| >= 2
  {
    [buf[0]] + seq(|buf| - 1, _ => Plus(buf[1], 1))
  }

  method Refill(buf: array<Word>)
    requires buf.Length >= 2
    modifies buf
    ensures buf[..] == Refilled(old(buf[..]))
  {
    buf[1] := Plus(buf[1], 1);
    var newVersion := buf[1];
    for i := 1 to buf.Length
      invariant buf[0] == old(buf[0])
      invariant forall k :: 1 <= k < i ==> buf[k] == newVersion
    {
      buf[i] := newVersion;
    }
  }

  /** The writer has its copy: new version, WRITE and fetch-and-add are posted. */
  ghost function PostStep(cfg: Config, s: State, w: Id): State
    requires Shaped(cfg, s) && Enabled(cfg, s, w, Post)
  {
    var x := s.ws[w];
    var x' := x.(buf := Refilled(x.buf));
    if cfg.writeCombining && cfg.orderRelease
    then Put(s, w, x'.(pc := Idle, late := LateWrite(x.pc.t, {})))
           .(updates := s.updates + 1, uncounted := s.uncounted - {w})
    else Put(s, w, x'.(pc := XWrite(x.pc.t, {})))
  }

  ghost function ReadWordStep(cfg: Config, s: State, w: Id, i: nat): State
    requires Shaped(cfg, s) && Enabled(cfg, s, w, ReadWord(i))
  {
    var x := s.ws[w];
    var t, done := x.pc.t, x.pc.done + {i};
    Put(s, w, x.(
      buf := x.buf[i := Fetched(s.mem[t], i)],
      pc := if x.pc.SRead? then SRead(t, done) else XRead(t, done)))
  }

  ghost function WriteWordStep(cfg: Config, s: State, w: Id, i: nat): State
    requires Shaped(cfg, s) && Enabled(cfg, s, w, WriteWord(i))
  {
    var x := s.ws[w];
    var t := x.pc.t;
    var c := s.mem[t];
    PutCell(s, w, x.(pc := XWrite(t, x.pc.done + {i})), t, c.(data := c.data[i - 1 := x.buf[i]]))
  }

  ghost function LateWriteWordStep(cfg: Config, s: State, w: Id, i: nat): State
    requires Shaped(cfg, s) && Enabled(cfg, s, w, LateWriteWord(i))
  {
    var x := s.ws[w];
    var t := x.late.t;
    var c := s.mem[t];
    PutCell(s, w, x.(late := LateWrite(t, x.late.done + {i})), t, c.(data := c.data[i - 1 := x.buf[i]]))
  }

  ghost function Apply(cfg: Config, s: State, w: Id, a: Action): State
    requires Shaped(cfg, s) && Enabled(cfg, s, w, a)
  {
    var x := s.ws[w];
    match a
    case StartShared(t) => Put(s, w, x.(pc := SAdd(t)))
    case StartExclusive(t) => Put(s, w, x.(pc := XCas(t)))
    case ExecAdd => AddStep(cfg, s, w)
    case TestShared =>
      Put(s, w, x.(pc := if x.buf[0] >= EXCLUSIVE_LOCKED then SUndo(x.pc.t) else SRead(x.pc.t, {})))
    case ExecUndo => SubStep(cfg, s, w, x.pc.t, SAdd(x.pc.t), x.late)
    case ReleaseShared =>
      Put(s, w, if cfg.orderRelease then x.(pc := Idle, late := LateShared(x.pc.t)) else x.(pc := SDrop(x.pc.t)))
    case ExecDrop => SubStep(cfg, s, w, x.pc.t, Idle, x.late)
    case ExecLateShared => SubStep(cfg, s, w, x.late.t, x.pc, Nothing)
    case ExecCas => CasStep(cfg, s, w)
    case TestExclusive => Put(s, w, x.(pc := if x.buf[0] != 0 then XCas(x.pc.t) else XRead(x.pc.t, {})))
    case ReadWord(i) => ReadWordStep(cfg, s, w, i)
    case EndRead => EndReadStep(cfg, s, w)
    case Post => PostStep(cfg, s, w)
    case WriteWord(i) => WriteWordStep(cfg, s, w, i)
    case EndWrite => Put(s, w, x.(pc := XAdd(x.pc.t)))
    case ExecXAdd => XAddStep(cfg, s, w, x.pc.t, XDone(x.pc.t), x.late)
    case Count => Put(s, w, x.(pc := Idle)).(updates := s.updates + 1, uncounted := s.uncounted - {w})
    case LateWriteWord(i) => LateWriteWordStep(cfg, s, w, i)
    case EndLateWrite => Put(s, w, x.(late := LateExclusive(x.late.t)))
    case ExecLateExclusive => XAddStep(cfg, s, w, x.late.t, x.pc, Nothing)
  }

  ghost predicate StepBy(cfg: Config, s: State, w: Id, a: Action, s': State) {
    Shaped(cfg, s) && Enabled(cfg, s, w, a) && s' == Apply(cfg, s, w, a)
  }

  ghost predicate Next(cfg: Config, s: State, s': State) {
    exists w, a :: StepBy(cfg, s, w, a, s')
  }

  ghost predicate StepAt(cfg: Config, tr: seq<State>, i: nat)
    requires i + 1 < |tr|
  {
    Next(cfg, tr[i], tr[i + 1])
  }

  ghost predicate Run(cfg: Config, tr: seq<State>) {
    && |tr| >= 1 && Init(cfg, tr[0])
    && (forall i :: 0 <= i < |tr| - 1 ==> StepAt(cfg, tr, i))
  }

  // ---- the invariant --------------------------------------------------------------------------------------

  datatype Role = NoRole | Rejected | Reader | Writer

  /** What the current operation is to its tuple: a registered attempt that is turned away or admitted, or the
      winner of the CAS that has not executed its release. */
  ghost function RoleNow(cfg: Config, x: Worker): Role
    requires |x.buf| >= 1
  {
    match x.pc
    case STest(_) => if x.buf[0] < EXCLUSIVE_LOCKED then Reader else Rejected
    case SRead(_, _) => if cfg.speculativeRead && x.buf[0] >= EXCLUSIVE_LOCKED then Rejected else Reader
    case SUndo(_) => Rejected
    case SGot(_) => Reader
    case SDrop(_) => Reader
    case XTest(_) => if x.buf[0] == 0 then Writer else NoRole
    case XRead(_, _) => if cfg.speculativeRead && x.buf[0] != 0 then NoRole else Writer
    case XGot(_) => Writer
    case XWrite(_, _) => Writer
    case XAdd(_) => Writer
    case _ => NoRole
  }

  /** What the unfinished release of the previous operation is to its tuple. */
  ghost function RoleLate(x: Worker): Role {
    match x.late
    case Nothing => NoRole
    case LateShared(_) => Reader
    case _ => Writer
  }

  /** The role of the current operation at tuple `t`. */
  ghost function At(cfg: Config, x: Worker, t: nat): Role
    requires |x.buf| >= 1
  {
    if x.pc != Idle && x.pc.t == t then RoleNow(cfg, x) else NoRole
  }

  ghost function LateAt(x: Worker, t: nat): Role {
    if x.late != Nothing && x.late.t == t then RoleLate(x) else NoRole
  }

  /** Registered: between the fetch-and-add of 1 and the one of -1. */
  ghost predicate Shares(cfg: Config, x: Worker, t: nat)
    requires |x.buf| >= 1
  {
    At(cfg, x, t) == Reader || At(cfg, x, t) == Rejected || LateAt(x, t) == Reader
  }

  /** Between the successful CAS and the release. */
  ghost predicate Owns(cfg: Config, x: Worker, t: nat)
    requires |x.buf| >= 1
  {
    At(cfg, x, t) == Writer || LateAt(x, t) == Writer
  }

  /** Won the CAS, but the local counter of updates does not say so yet. */
  ghost predicate Uncounted(cfg: Config, x: Worker)
    requires |x.buf| >= 1
  {
    x.pc.XDone? || RoleNow(cfg, x) == Writer
  }

  ghost predicate AllAre(d: seq<Word>, v: int) {
    forall i :: 0 <= i < |d| ==> d[i] == v
  }

  /** The lock word is 2^60 X + R; a free tuple holds its counter in every payload word. */
  ghost predicate CellInv(c: Cell) {
    && c.lock == ((if c.owner.Some? then EXCLUSIVE_LOCKED else 0) + |c.readers|) % WORD
    && (c.owner.Some? ==> c.val >= 1)
    && (c.owner.None? ==> AllAre(c.data, c.val % WORD))
  }

  /** Which workers the history variables of tuple `t` name. */
  ghost predicate Roles(cfg: Config, s: State, t: nat)
    requires Shaped(cfg, s) && t < cfg.tuples
  {
    && s.mem[t].readers <= s.ws.Keys
    && (s.mem[t].owner.Some? ==> s.mem[t].owner.value in s.ws)
    && (forall w {:trigger RolesOf(cfg, s.ws[w], w, t, s.mem[t])} ::
          w in s.ws ==> RolesOf(cfg, s.ws[w], w, t, s.mem[t]))
  }

  ghost predicate CellOk(cfg: Config, s: State, t: nat)
    requires Shaped(cfg, s)
  {
    t < cfg.tuples ==> CellInv(s.mem[t]) && Roles(cfg, s, t)
  }

  ghost predicate WorkerOk(cfg: Config, s: State, w: Id)
    requires Shaped(cfg, s)
  {
    w in s.ws ==> Knows(cfg, s.ws[w], s.mem) && (w in s.uncounted <==> Uncounted(cfg, s.ws[w]))
  }

  ghost predicate RolesOf(cfg: Config, x: Worker, w: Id, t: nat, c: Cell)
    requires |x.buf| >= 1
  {
    (w in c.readers <==> Shares(cfg, x, t)) && (c.owner == Some(w) <==> Owns(cfg, x, t))
  }

  ghost predicate CopyIs(x: Worker, done: set<nat>, v: int) {
    forall i :: 1 <= i < |x.buf| && i in done ==> x.buf[i] == v
  }

  ghost predicate MemIs(c: Cell, done: set<nat>, v: int) {
    forall i :: 0 <= i < |c.data| && i + 1 in done ==> c.data[i] == v
  }

  /** What the current operation of a worker knows about its tuple `c`. */
  ghost predicate KnowsNow(cfg: Config, x: Worker, c: Cell)
    requires |x.buf| >= 2
  {
    && (RoleNow(cfg, x) == Reader ==> c.owner.None?)
    && (RoleNow(cfg, x) == Writer ==> c.val >= 1)
    && (match x.pc
        case SRead(_, done) => RoleNow(cfg, x) == Reader ==> CopyIs(x, done, c.val % WORD)
        case SGot(_) => AllAre(x.buf[1..], c.val % WORD)
        case XTest(_) => RoleNow(cfg, x) == Writer ==> AllAre(c.data, (c.val - 1) % WORD)
        case XRead(_, done) => RoleNow(cfg, x) == Writer ==>
            AllAre(c.data, (c.val - 1) % WORD) && CopyIs(x, done, (c.val - 1) % WORD)
        case XGot(_) => AllAre(x.buf[1..], (c.val - 1) % WORD)
        case XWrite(_, done) => AllAre(x.buf[1..], c.val % WORD) && MemIs(c, done, c.val % WORD)
        case XAdd(_) => AllAre(c.data, c.val % WORD)
        case _ => true)
  }

  ghost predicate KnowsLate(x: Worker, c: Cell)
    requires |x.buf| >= 2
  {
    match x.late
    case LateShared(_) => c.owner.None?
    case LateWrite(_, done) => c.val >= 1 && AllAre(x.buf[1..], c.val % WORD) && MemIs(c, done, c.val % WORD)
    case LateExclusive(_) => c.val >= 1 && AllAre(c.data, c.val % WORD)
    case Nothing => true
  }

  ghost predicate Knows(cfg: Config, x: Worker, mem: seq<Cell>)
    requires cfg.words >= 1 && |mem| == cfg.tuples && WorkerShaped(cfg, x)
  {
    && (x.pc != Idle ==> KnowsNow(cfg, x, mem[x.pc.t]))
    && (x.late != Nothing ==> KnowsLate(x, mem[x.late.t]))
  }

  ghost function Total(mem: seq<Cell>): nat {
    if mem == [] then 0 else Total(mem[..|mem| - 1]) + mem[|mem| - 1].val
  }

  /** Increments won are updates counted plus increments not counted yet. */
  ghost predicate CountInv(cfg: Config, s: State)
    requires Shaped(cfg, s)
  {
    && s.uncounted <= s.ws.Keys
    && Total(s.mem) == s.updates + |s.uncounted|
  }

  ghost predicate Inv(cfg: Config, s: State) {
    && Shaped(cfg, s) && |s.ws| < EXCLUSIVE_LOCKED
    && (forall t: nat :: CellOk(cfg, s, t))
    && (forall w: Id :: WorkerOk(cfg, s, w))
    && CountInv(cfg, s)
  }

  // ---- every step keeps the invariant -----------------------------------------------------------------------

  lemma {:induction false} TotalUpdate(mem: seq<Cell>, t: nat, c: Cell)
    requires t < |mem|
    ensures Total(mem[t := c]) == Total(mem) - mem[t].val + c.val
  {
    var n := |mem| - 1;
    if t == n {
      assert mem[t := c][..n] == mem[..n];
    } else {
      assert mem[t := c][..n] == mem[..n][t := c];
      TotalUpdate(mem[..n], t, c);
    }
  }

  lemma SubsetSize(a: set<Id>, b: set<Id>)
    requires a <= b
    ensures |a| <= |b|
  {
    if a != {} {
      var x :| x in a;
      SubsetSize(a - {x}, b - {x});
    }
  }

  /** With fewer than 2^60 workers the lock word does not wrap, so its parts can be told apart. */
  lemma LockWord(cfg: Config, s: State, t: nat)
    requires Inv(cfg, s) && t < cfg.tuples
    ensures |s.mem[t].readers| <= |s.ws| < EXCLUSIVE_LOCKED
    ensures s.mem[t].lock == (if s.mem[t].owner.Some? then EXCLUSIVE_LOCKED else 0) + |s.mem[t].readers|
    ensures s.mem[t].lock >= EXCLUSIVE_LOCKED <==> s.mem[t].owner.Some?
  {
    assert CellOk(cfg, s, t);
    SubsetSize(s.mem[t].readers, s.ws.Keys);
  }

  /** The other workers' places in the history variables of a tuple are as before. */
  ghost predicate SameRoles(c: Cell, c': Cell, w: Id) {
    && c'.readers <= c.readers + {w} && c.readers <= c'.readers + {w}
    && (c'.owner == c.owner || (c.owner == None && c'.owner == Some(w)) || (c.owner == Some(w) && c'.owner == None))
  }

  /** What the other workers rely on: nobody is registered at a tuple that gets an owner or a new value, and only
      the owner changes the payload. */
  ghost predicate Respects(c: Cell, c': Cell, w: Id) {
    && (c'.val == c.val || (c.readers == {} && c.owner == None))
    && (c.owner == None && c'.owner != None ==> c.readers == {})
    && (c'.data != c.data ==> c.owner == Some(w))
  }

  ghost function Moved(s: State, w: Id, x: Worker, t: nat, c: Cell, updates: nat, uncounted: set<Id>): State
    requires t < |s.mem|
  {
    State(s.mem[t := c], s.ws[w := x], updates, uncounted)
  }

  lemma FrameRoles(cfg: Config, s: State, s': State, w: Id, x: Worker, t: nat, c: Cell, k: nat)
    requires Inv(cfg, s) && Shaped(cfg, s') && w in s.ws && t < cfg.tuples && SameRoles(s.mem[t], c, w)
    requires s'.ws == s.ws[w := x] && s'.mem == s.mem[t := c] && |x.buf| >= 1
    requires k < cfg.tuples && RolesOf(cfg, x, w, k, s'.mem[k])
    ensures Roles(cfg, s', k)
  {
    assert CellOk(cfg, s, k);
    forall u | u in s'.ws ensures RolesOf(cfg, s'.ws[u], u, k, s'.mem[k]) {
      assert RolesOf(cfg, s.ws[u], u, k, s.mem[k]);
    }
  }

  lemma FrameKnows(cfg: Config, s: State, w: Id, t: nat, c: Cell, u: Id)
    requires Inv(cfg, s) && t < cfg.tuples && u in s.ws && u != w
    requires |c.data| == cfg.words && Respects(s.mem[t], c, w)
    ensures Knows(cfg, s.ws[u], s.mem[t := c])
  {
    assert CellOk(cfg, s, t) && WorkerOk(cfg, s, u);
    assert RolesOf(cfg, s.ws[u], u, t, s.mem[t]);
  }

  /** A step of worker `w` on tuple `t` that leaves them as `x` and `c` keeps the invariant. */
  lemma Frame(cfg: Config, s: State, w: Id, x: Worker, t: nat, c: Cell, updates: nat, uncounted: set<Id>)
    requires Inv(cfg, s) && w in s.ws && t < cfg.tuples
    requires WorkerShaped(cfg, x) && |c.data| == cfg.words && CellInv(c)
    requires SameRoles(s.mem[t], c, w) && Respects(s.mem[t], c, w)
    requires RolesOf(cfg, x, w, t, c)
    requires forall k :: 0 <= k < cfg.tuples && k != t ==>
      At(cfg, x, k) == At(cfg, s.ws[w], k) && LateAt(x, k) == LateAt(s.ws[w], k)
    requires Knows(cfg, x, s.mem[t := c])
    requires uncounted == if Uncounted(cfg, x) then s.uncounted + {w} else s.uncounted - {w}
    requires c.val - s.mem[t].val == updates + |uncounted| - s.updates - |s.uncounted|
    ensures Inv(cfg, Moved(s, w, x, t, c, updates, uncounted))
  {
    var s' := Moved(s, w, x, t, c, updates, uncounted);
    assert Shaped(cfg, s');
    TotalUpdate(s.mem, t, c);
    forall k: nat ensures CellOk(cfg, s', k) {
      if k < cfg.tuples {
        assert CellOk(cfg, s, k);
        assert RolesOf(cfg, s.ws[w], w, k, s.mem[k]);
        FrameRoles(cfg, s, s', w, x, t, c, k);
      }
    }
    forall u: Id ensures WorkerOk(cfg, s', u) {
      if u in s.ws && u != w {
        assert WorkerOk(cfg, s, u);
        FrameKnows(cfg, s, w, t, c, u);
      }
    }
    assert s'.ws.Keys == s.ws.Keys;
  }

  /** A step that changes only the worker, not its roles. */
  lemma QuietFrame(cfg: Config, s: State, w: Id, x: Worker)
    requires Inv(cfg, s) && w in s.ws && WorkerShaped(cfg, x)
    requires forall k :: 0 <= k < cfg.tuples ==>
      At(cfg, x, k) == At(cfg, s.ws[w], k) && LateAt(x, k) == LateAt(s.ws[w], k)
    requires Knows(cfg, x, s.mem) && (Uncounted(cfg, x) <==> Uncounted(cfg, s.ws[w]))
    ensures Inv(cfg, Put(s, w, x))
  {
    var s' := Put(s, w, x);
    assert Shaped(cfg, s') && WorkerOk(cfg, s, w);
    forall k: nat ensures CellOk(cfg, s', k) {
      if k < cfg.tuples {
        assert CellOk(cfg, s, k);
        assert RolesOf(cfg, s.ws[w], w, k, s.mem[k]);
        forall u | u in s'.ws ensures RolesOf(cfg, s'.ws[u], u, k, s'.mem[k]) {
          assert RolesOf(cfg, s.ws[u], u, k, s.mem[k]);
        }
      }
    }
    forall u: Id ensures WorkerOk(cfg, s', u) {
      assert WorkerOk(cfg, s, u);
    }
    assert s'.ws.Keys == s.ws.Keys;
  }

  /** The facts about worker `w` and tuple `t` that the step lemmas start from. */
  lemma Facts(cfg: Config, s: State, w: Id, t: nat)
    requires Inv(cfg, s) && w in s.ws && t < cfg.tuples
    ensures WorkerShaped(cfg, s.ws[w]) && Knows(cfg, s.ws[w], s.mem)
    ensures CellInv(s.mem[t]) && RolesOf(cfg, s.ws[w], w, t, s.mem[t])
    ensures w in s.uncounted <==> Uncounted(cfg, s.ws[w])
    ensures |s.mem[t].readers| <= |s.ws| < EXCLUSIVE_LOCKED
    ensures s.mem[t].lock == (if s.mem[t].owner.Some? then EXCLUSIVE_LOCKED else 0) + |s.mem[t].readers|
  {
    LockWord(cfg, s, t);
    assert WorkerOk(cfg, s, w) && CellOk(cfg, s, t);
    assert RolesOf(cfg, s.ws[w], w, t, s.mem[t]);
  }

  lemma AddKeepsInv(cfg: Config, s: State, w: Id)
    requires Inv(cfg, s) && Enabled(cfg, s, w, ExecAdd)
    ensures Inv(cfg, AddStep(cfg, s, w))
  {
    var s' := AddStep(cfg, s, w);
    var t := s.ws[w].pc.t;
    Facts(cfg, s, w, t);
    Frame(cfg, s, w, s'.ws[w], t, s'.mem[t], s.updates, s.uncounted);
  }

  lemma FreeCell(cfg: Config, s: State, t: nat)
    requires Inv(cfg, s) && t < cfg.tuples && s.mem[t].lock == 0
    ensures s.mem[t].readers == {} && s.mem[t].owner == None
  {
    LockWord(cfg, s, t);
  }

  /** What the winner is ... */
  lemma WinnerOwns(cfg: Config, s: State, w: Id)
    requires Inv(cfg, s) && Enabled(cfg, s, w, ExecCas) && s.mem[s.ws[w].pc.t].lock == 0
    ensures var s', t := CasStep(cfg, s, w), s.ws[w].pc.t;
            && WorkerShaped(cfg, s'.ws[w]) && CellInv(s'.mem[t]) && RolesOf(cfg, s'.ws[w], w, t, s'.mem[t])
            && Uncounted(cfg, s'.ws[w]) && w !in s.uncounted
  {
    var t := s.ws[w].pc.t;
    Facts(cfg, s, w, t);
    FreeCell(cfg, s, t);
  }

  /** ... and knows. */
  lemma WinnerKnows(cfg: Config, s: State, w: Id)
    requires Inv(cfg, s) && Enabled(cfg, s, w, ExecCas) && s.mem[s.ws[w].pc.t].lock == 0
    ensures var s' := CasStep(cfg, s, w); WorkerShaped(cfg, s'.ws[w]) && Knows(cfg, s'.ws[w], s'.mem)
  {
    var t := s.ws[w].pc.t;
    Facts(cfg, s, w, t);
    FreeCell(cfg, s, t);
  }

  lemma CasWins(cfg: Config, s: State, w: Id)
    requires Inv(cfg, s) && Enabled(cfg, s, w, ExecCas) && s.mem[s.ws[w].pc.t].lock == 0
    ensures Inv(cfg, CasStep(cfg, s, w))
  {
    var s' := CasStep(cfg, s, w);
    var t := s.ws[w].pc.t;
    Facts(cfg, s, w, t);
    FreeCell(cfg, s, t);
    WinnerOwns(cfg, s, w);
    WinnerKnows(cfg, s, w);
    Frame(cfg, s, w, s'.ws[w], t, s'.mem[t], s.updates, s'.uncounted);
  }

  lemma SubKeepsInv(cfg: Config, s: State, w: Id, t: nat, pc: Pc)
    requires Inv(cfg, s) && w in s.ws && t < cfg.tuples
    requires (s.ws[w].pc == SUndo(t) && pc == SAdd(t)) || (s.ws[w].pc == SDrop(t) && pc == Idle)
    ensures Inv(cfg, SubStep(cfg, s, w, t, pc, s.ws[w].late))
  {
    var s' := SubStep(cfg, s, w, t, pc, s.ws[w].late);
    Facts(cfg, s, w, t);
    Frame(cfg, s, w, s'.ws[w], t, s'.mem[t], s.updates, s.uncounted);
  }

  lemma LateSubKeepsInv(cfg: Config, s: State, w: Id)
    requires Inv(cfg, s) && Enabled(cfg, s, w, ExecLateShared)
    ensures Inv(cfg, Apply(cfg, s, w, ExecLateShared))
  {
    var s' := Apply(cfg, s, w, ExecLateShared);
    var t := s.ws[w].late.t;
    Facts(cfg, s, w, t);
    Frame(cfg, s, w, s'.ws[w], t, s'.mem[t], s.updates, s.uncounted);
  }

  lemma XAddKeepsInv(cfg: Config, s: State, w: Id, t: nat, pc: Pc, late: Late)
    requires Inv(cfg, s) && w in s.ws && t < cfg.tuples
    requires
      var x := s.ws[w];
      || (x.pc == XAdd(t) && pc == XDone(t) && late == x.late)
      || (x.late == LateExclusive(t) && pc == x.pc && late == Nothing)
    ensures Inv(cfg, XAddStep(cfg, s, w, t, pc, late))
  {
    var s' := XAddStep(cfg, s, w, t, pc, late);
    Facts(cfg, s, w, t);
    Frame(cfg, s, w, s'.ws[w], t, s'.mem[t], s.updates, s.uncounted);
  }

  lemma ReadWordKeepsInv(cfg: Config, s: State, w: Id, i: nat)
    requires Inv(cfg, s) && Enabled(cfg, s, w, ReadWord(i))
    ensures Inv(cfg, ReadWordStep(cfg, s, w, i))
  {
    var t := s.ws[w].pc.t;
    Facts(cfg, s, w, t);
    QuietFrame(cfg, s, w, ReadWordStep(cfg, s, w, i).ws[w]);
  }

  lemma EndReadKeepsInv(cfg: Config, s: State, w: Id)
    requires Inv(cfg, s) && Enabled(cfg, s, w, EndRead)
    ensures Inv(cfg, EndReadStep(cfg, s, w))
  {
    var t := s.ws[w].pc.t;
    Facts(cfg, s, w, t);
    QuietFrame(cfg, s, w, EndReadStep(cfg, s, w).ws[w]);
  }

  lemma RefilledIs(buf: seq<Word>, n: nat)
    requires |buf| >= 2 && n >= 1 && AllAre(buf[1..], (n - 1) % WORD)
    ensures |Refilled(buf)| == |buf| && AllAre(Refilled(buf)[1..], n % WORD)
  {
    assert buf[1] == buf[1..][0];
  }

  /** x_order_release leaves WRITE and release in the send queue. */
  lemma PostAndGo(cfg: Config, s: State, w: Id)
    requires Inv(cfg, s) && Enabled(cfg, s, w, Post) && cfg.writeCombining && cfg.orderRelease
    ensures Inv(cfg, PostStep(cfg, s, w))
  {
    var s' := PostStep(cfg, s, w);
    var t := s.ws[w].pc.t;
    Facts(cfg, s, w, t);
    RefilledIs(s.ws[w].buf, s.mem[t].val);
    assert s.mem[t := s.mem[t]] == s.mem;
    Frame(cfg, s, w, s'.ws[w], t, s.mem[t], s'.updates, s'.uncounted);
  }

  lemma PostKeepsInv(cfg: Config, s: State, w: Id)
    requires Inv(cfg, s) && Enabled(cfg, s, w, Post)
    ensures Inv(cfg, PostStep(cfg, s, w))
  {
    if cfg.writeCombining && cfg.orderRelease {
      PostAndGo(cfg, s, w);
    } else {
      var t := s.ws[w].pc.t;
      Facts(cfg, s, w, t);
      RefilledIs(s.ws[w].buf, s.mem[t].val);
      QuietFrame(cfg, s, w, PostStep(cfg, s, w).ws[w]);
    }
  }

  /** A step of the owner that stores into the payload and keeps its roles. */
  lemma DataFrame(cfg: Config, s: State, w: Id, x: Worker, t: nat, data: seq<Word>)
    requires Inv(cfg, s) && w in s.ws && t < cfg.tuples && s.mem[t].owner == Some(w)
    requires WorkerShaped(cfg, x) && |data| == cfg.words && Uncounted(cfg, x) == Uncounted(cfg, s.ws[w])
    requires forall k :: 0 <= k < cfg.tuples ==>
      At(cfg, x, k) == At(cfg, s.ws[w], k) && LateAt(x, k) == LateAt(s.ws[w], k)
    requires Knows(cfg, x, s.mem[t := s.mem[t].(data := data)])
    ensures Inv(cfg, PutCell(s, w, x, t, s.mem[t].(data := data)))
  {
    Facts(cfg, s, w, t);
    Frame(cfg, s, w, x, t, s.mem[t].(data := data), s.updates, s.uncounted);
  }

  lemma WriteWordKeepsInv(cfg: Config, s: State, w: Id, i: nat)
    requires Inv(cfg, s) && Enabled(cfg, s, w, WriteWord(i))
    ensures Inv(cfg, WriteWordStep(cfg, s, w, i))
  {
    var s' := WriteWordStep(cfg, s, w, i);
    var t := s.ws[w].pc.t;
    Facts(cfg, s, w, t);
    assert s.ws[w].buf[i] == s.ws[w].buf[1..][i - 1];
    DataFrame(cfg, s, w, s'.ws[w], t, s'.mem[t].data);
  }

  lemma LateWriteWordKeepsInv(cfg: Config, s: State, w: Id, i: nat)
    requires Inv(cfg, s) && Enabled(cfg, s, w, LateWriteWord(i))
    ensures Inv(cfg, LateWriteWordStep(cfg, s, w, i))
  {
    var s' := LateWriteWordStep(cfg, s, w, i);
    var t := s.ws[w].late.t;
    Facts(cfg, s, w, t);
    assert s.ws[w].buf[i] == s.ws[w].buf[1..][i - 1];
    DataFrame(cfg, s, w, s'.ws[w], t, s'.mem[t].data);
  }

  lemma ReleaseSharedKeepsInv(cfg: Config, s: State, w: Id)
    requires Inv(cfg, s) && Enabled(cfg, s, w, ReleaseShared)
    ensures Inv(cfg, Apply(cfg, s, w, ReleaseShared))
  {
    var s' := Apply(cfg, s, w, ReleaseShared);
    var t := s.ws[w].pc.t;
    Facts(cfg, s, w, t);
    assert s.mem[t := s.mem[t]] == s.mem;
    Frame(cfg, s, w, s'.ws[w], t, s.mem[t], s.updates, s.uncounted);
  }

  lemma CountKeepsInv(cfg: Config, s: State, w: Id)
    requires Inv(cfg, s) && Enabled(cfg, s, w, Count)
    ensures Inv(cfg, Apply(cfg, s, w, Count))
  {
    var s' := Apply(cfg, s, w, Count);
    var t := s.ws[w].pc.t;
    Facts(cfg, s, w, t);
    assert s.mem[t := s.mem[t]] == s.mem;
    Frame(cfg, s, w, s'.ws[w], t, s.mem[t], s'.updates, s'.uncounted);
  }

  lemma StartKeepsInv(cfg: Config, s: State, w: Id, a: Action)
    requires Inv(cfg, s) && Enabled(cfg, s, w, a) && (a.StartShared? || a.StartExclusive?)
    ensures Inv(cfg, Apply(cfg, s, w, a))
  {
    Facts(cfg, s, w, a.t);
    QuietFrame(cfg, s, w, Apply(cfg, s, w, a).ws[w]);
  }

  lemma EndWriteKeepsInv(cfg: Config, s: State, w: Id)
    requires Inv(cfg, s) && Enabled(cfg, s, w, EndWrite)
    ensures Inv(cfg, Apply(cfg, s, w, EndWrite))
  {
    Facts(cfg, s, w, s.ws[w].pc.t);
    QuietFrame(cfg, s, w, Apply(cfg, s, w, EndWrite).ws[w]);
  }

  lemma EndLateWriteKeepsInv(cfg: Config, s: State, w: Id)
    requires Inv(cfg, s) && Enabled(cfg, s, w, EndLateWrite)
    ensures Inv(cfg, Apply(cfg, s, w, EndLateWrite))
  {
    Facts(cfg, s, w, s.ws[w].late.t);
    QuietFrame(cfg, s, w, Apply(cfg, s, w, EndLateWrite).ws[w]);
  }

  lemma TestKeepsInv(cfg: Config, s: State, w: Id, a: Action)
    requires Inv(cfg, s) && Enabled(cfg, s, w, a) && (a.TestShared? || a.TestExclusive?)
    ensures Inv(cfg, Apply(cfg, s, w, a))
  {
    Facts(cfg, s, w, s.ws[w].pc.t);
    QuietFrame(cfg, s, w, Apply(cfg, s, w, a).ws[w]);
  }

  lemma CasLoses(cfg: Config, s: State, w: Id)
    requires Inv(cfg, s) && Enabled(cfg, s, w, ExecCas) && s.mem[s.ws[w].pc.t].lock != 0
    ensures Inv(cfg, CasStep(cfg, s, w))
  {
    Facts(cfg, s, w, s.ws[w].pc.t);
    QuietFrame(cfg, s, w, CasStep(cfg, s, w).ws[w]);
  }

  lemma StepKeepsInv(cfg: Config, s: State, w: Id, a: Action)
    requires Inv(cfg, s) && Enabled(cfg, s, w, a)
    ensures Inv(cfg, Apply(cfg, s, w, a))
  {
    var x := s.ws[w];
    match a
    case ExecAdd => AddKeepsInv(cfg, s, w);
    case ExecCas => if s.mem[x.pc.t].lock == 0 { CasWins(cfg, s, w); } else { CasLoses(cfg, s, w); }
    case ExecUndo => SubKeepsInv(cfg, s, w, x.pc.t, SAdd(x.pc.t));
    case ExecDrop => SubKeepsInv(cfg, s, w, x.pc.t, Idle);
    case ExecLateShared => LateSubKeepsInv(cfg, s, w);
    case ExecXAdd => XAddKeepsInv(cfg, s, w, x.pc.t, XDone(x.pc.t), x.late);
    case ExecLateExclusive => XAddKeepsInv(cfg, s, w, x.late.t, x.pc, Nothing);
    case ReadWord(i) => ReadWordKeepsInv(cfg, s, w, i);
    case EndRead => EndReadKeepsInv(cfg, s, w);
    case Post => PostKeepsInv(cfg, s, w);
    case WriteWord(i) => WriteWordKeepsInv(cfg, s, w, i);
    case LateWriteWord(i) => LateWriteWordKeepsInv(cfg, s, w, i);
    case ReleaseShared => ReleaseSharedKeepsInv(cfg, s, w);
    case Count => CountKeepsInv(cfg, s, w);
    case TestShared => TestKeepsInv(cfg, s, w, a);
    case TestExclusive => TestKeepsInv(cfg, s, w, a);
    case EndWrite => EndWriteKeepsInv(cfg, s, w);
    case EndLateWrite => EndLateWriteKeepsInv(cfg, s, w);
    case _ => StartKeepsInv(cfg, s, w, a);
  }

  lemma {:induction false} TotalZero(mem: seq<Cell>)
    requires forall t :: 0 <= t < |mem| ==> mem[t].val == 0
    ensures Total(mem) == 0
  {
    if mem != [] { TotalZero(mem[..|mem| - 1]); }
  }

  lemma InitInv(cfg: Config, s: State)
    requires Init(cfg, s)
    ensures Inv(cfg, s)
  {
    TotalZero(s.mem);
    forall t: nat ensures CellOk(cfg, s, t) {}
    forall w: Id ensures WorkerOk(cfg, s, w) {}
  }

  lemma NextKeepsInv(cfg: Config, s: State, s': State)
    requires Inv(cfg, s) && Next(cfg, s, s')
    ensures Inv(cfg, s')
  {
    var w, a :| StepBy(cfg, s, w, a, s');
    StepKeepsInv(cfg, s, w, a);
  }
}
