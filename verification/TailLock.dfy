/** The tail lock of frontend/locking_benchmark_tail.cpp with order_release off: the lock word is the last word
    of the tuple, a writer releases it with the WRITE of the whole tuple, and a reader that is turned away leaves
    its increment of 2 in the lock word.

    One tuple and any number of workers; every operation is waited for, so a worker is at one tuple at a time. Its
    buffer may hold anything when it starts (`junk`).
    READ and WRITE transfer word by word in any order, except that the lock word of a WRITE lands last.
    `owner`, `admitted`, `rejected` and `val` are history variables. */
module TailLock {
  import opened Words

  type Id = nat

  /** LOCK_OFFSET_INDEX: seven payload words, then the lock word. */
  const LOCK: nat := 7

  datatype Config = Config(speculativeRead: bool)

  datatype Pc =
    | Idle
    | SAdd | STest | SRead(done: set<nat>) | SGot | SDrop
    | XCas | XTest | XRead(done: set<nat>) | XGot | XWrite(done: set<nat>)

  datatype Worker = Worker(pc: Pc, buf: seq<Word>)

  datatype State = State(
    lock: Word, data: seq<Word>, ws: map<Id, Worker>,
    owner: Option<Id>, admitted: set<Id>, rejected: nat, val: nat)

  datatype Action =
    | StartShared(junk: seq<Word>) | ExecAdd | TestShared | ReleaseShared | ExecSub
    | StartExclusive(junk: seq<Word>) | ExecCas | TestExclusive | Refill | ExecRelease
    | ReadWord(i: nat) | EndRead | WriteWord(i: nat)

  // ---- the machine ----------------------------------------------------------------------------------------

  ghost predicate Init(s: State) {
    && s.lock == 0 && s.data == seq(LOCK, _ => 0)
    && (forall w <- s.ws :: s.ws[w].pc == Idle && |s.ws[w].buf| == LOCK + 1)
    && |s.ws| < WORD / 2
    && s.owner == None && s.admitted == {} && s.rejected == 0 && s.val == 0
  }

  ghost predicate Shaped(s: State) {
    |s.data| == LOCK && forall w <- s.ws :: |s.ws[w].buf| == LOCK + 1
  }

  /** basic_x_lock reads the lock word too, all the other variants only the payload. */
  ghost function LastRead(cfg: Config, pc: Pc): nat {
    if pc.XRead? && !cfg.speculativeRead then LOCK else LOCK - 1
  }

  ghost predicate Enabled(cfg: Config, s: State, w: Id, a: Action) {
    w in s.ws &&
    var x := s.ws[w];
    match a
    case StartShared(junk) => x.pc.Idle? && |junk| == LOCK + 1
    case StartExclusive(junk) => x.pc.Idle? && |junk| == LOCK + 1
    case ExecAdd => x.pc.SAdd?
    case TestShared => x.pc.STest?
    case ReleaseShared => x.pc.SGot?
    case ExecSub => x.pc.SDrop?
    case ExecCas => x.pc.XCas?
    case TestExclusive => x.pc.XTest?
    case ReadWord(i) => (x.pc.SRead? || x.pc.XRead?) && i <= LastRead(cfg, x.pc) && i !in x.pc.done
    case EndRead => (x.pc.SRead? || x.pc.XRead?) && forall i :: 0 <= i <= LastRead(cfg, x.pc) ==> i in x.pc.done
    case Refill => x.pc.XGot?
    case WriteWord(i) => x.pc.XWrite? && i < LOCK && i !in x.pc.done
    case ExecRelease => x.pc.XWrite? && forall i :: 0 <= i < LOCK ==> i in x.pc.done
  }

  ghost function Put(s: State, w: Id, x: Worker): State {
    s.(ws := s.ws[w := x])
  }

  /** postFetchAdd(2): admitted if the old value was even. */
  ghost function AddStep(cfg: Config, s: State, w: Id): State
    requires Shaped(s) && Enabled(cfg, s, w, ExecAdd)
  {
    var x := s.ws[w];
    var s' := Put(s, w, Worker(if cfg.speculativeRead then SRead({}) else STest, x.buf[LOCK := s.lock]));
    if s.lock % 2 == 1 then s'.(lock := Plus(s.lock, 2), rejected := s.rejected + 1)
    else s'.(lock := Plus(s.lock, 2), admitted := s.admitted + {w})
  }

  /** postCompareSwap(UNLOCKED, 1). */
  ghost function CasStep(cfg: Config, s: State, w: Id): State
    requires Shaped(s) && Enabled(cfg, s, w, ExecCas)
  {
    var x := s.ws[w];
    var s' := Put(s, w, Worker(if cfg.speculativeRead then XRead({}) else XTest, x.buf[LOCK := s.lock]));
    if s.lock == 0 then s'.(lock := 1, owner := Some(w)) else s'
  }

  ghost function ReadWordStep(cfg: Config, s: State, w: Id, i: nat): State
    requires Shaped(s) && Enabled(cfg, s, w, ReadWord(i))
  {
    var x := s.ws[w];
    var done := x.pc.done + {i};
    Put(s, w, Worker(if x.pc.SRead? then SRead(done) else XRead(done),
                     x.buf[i := if i == LOCK then s.lock else s.data[i]]))
  }

  /** The completion of the READ; with a speculative read the lock result is tested only now. */
  ghost function EndReadStep(cfg: Config, s: State, w: Id): State
    requires Shaped(s) && Enabled(cfg, s, w, EndRead)
  {
    var x := s.ws[w];
    Put(s, w, Worker(
      if x.pc.SRead? then
        if cfg.speculativeRead && x.buf[LOCK] % 2 == 1 then Idle else SGot
      else
        if cfg.speculativeRead && x.buf[LOCK] != 0 then Idle else XGot,
      x.buf))
  }

  /** The writer's loop, and the store of 0 into the lock slot of the copy. */
  ghost function Refilled(buf: seq<Word>): seq<Word>
    requires |buf| == LOCK + 1
  {
    seq(LOCK, _ => Plus(buf[0], 1)) + [0]
  }

  method RefillBuffer(buf: array<Word>)
    requires buf.Length == LOCK + 1
    modifies buf
    ensures buf[..] == Refilled(old(buf[..]))
  {
    buf[0] := Plus(buf[0], 1);
    var newVersion := buf[0];
    for i := 0 to LOCK
      invariant forall k :: 0 <= k < i ==> buf[k] == newVersion
    {
      buf[i] := newVersion;
    }
    buf[LOCK] := 0;
  }

  ghost function Apply(cfg: Config, s: State, w: Id, a: Action): State
    requires Shaped(s) && Enabled(cfg, s, w, a)
  {
    var x := s.ws[w];
    match a
    case StartShared(junk) => Put(s, w, Worker(SAdd, junk))
    case StartExclusive(junk) => Put(s, w, Worker(XCas, junk))
    case ExecAdd => AddStep(cfg, s, w)
    case TestShared => Put(s, w, x.(pc := if x.buf[LOCK] % 2 == 1 then Idle else SRead({})))
    case ReleaseShared => Put(s, w, x.(pc := SDrop))
    case ExecSub =>
      Put(s, w, Worker(Idle, x.buf[LOCK := s.lock])).(lock := Plus(s.lock, -2), admitted := s.admitted - {w})
    case ExecCas => CasStep(cfg, s, w)
    case TestExclusive => Put(s, w, x.(pc := if x.buf[LOCK] != 0 then Idle else XRead({})))
    case ReadWord(i) => ReadWordStep(cfg, s, w, i)
    case EndRead => EndReadStep(cfg, s, w)
    case Refill => Put(s, w, Worker(XWrite({}), Refilled(x.buf)))
    case WriteWord(i) =>
      Put(s, w, x.(pc := XWrite(x.pc.done + {i}))).(data := s.data[i := x.buf[i]])
    case ExecRelease => Put(s, w, x.(pc := Idle)).(lock := x.buf[LOCK], owner := None, rejected := 0, val := s.val + 1)
  }

  // ---- the invariant --------------------------------------------------------------------------------------

  ghost predicate AllAre(d: seq<Word>, v: int) {
    forall i :: 0 <= i < |d| ==> d[i] == v
  }

  ghost predicate Same(a: seq<Word>, done: set<nat>, v: int) {
    forall i :: 0 <= i < |a| && i < LOCK && i in done ==> a[i] == v
  }

  ghost predicate IsAdmitted(cfg: Config, x: Worker)
    requires |x.buf| == LOCK + 1
  {
    match x.pc
    case STest => x.buf[LOCK] % 2 == 0
    case SRead(_) => cfg.speculativeRead ==> x.buf[LOCK] % 2 == 0
    case SGot => true
    case SDrop => true
    case _ => false
  }

  ghost predicate IsOwner(cfg: Config, x: Worker)
    requires |x.buf| == LOCK + 1
  {
    match x.pc
    case XTest => x.buf[LOCK] == 0
    case XRead(_) => cfg.speculativeRead ==> x.buf[LOCK] == 0
    case XGot => true
    case XWrite(_) => true
    case _ => false
  }

  /** An even word is twice the number of admitted readers. An odd word says that a writer is inside and hides
      any number of readers that were turned away. */
  ghost predicate LockInv(s: State) {
    && s.lock == (if s.owner.Some? then 1 + 2 * s.rejected else 2 * |s.admitted|) % WORD
    && (s.owner.Some? ==> s.admitted == {})
    && (s.owner.None? ==> s.rejected == 0)
  }

  /** What the admitted readers and the owner know about the payload. */
  ghost predicate Knows(cfg: Config, x: Worker, data: seq<Word>, val: nat)
    requires |x.buf| == LOCK + 1
  {
    match x.pc
    case SRead(done) => IsAdmitted(cfg, x) ==> Same(x.buf, done, val % WORD)
    case SGot => AllAre(x.buf[..LOCK], val % WORD)
    case XTest => IsOwner(cfg, x) ==> AllAre(data, val % WORD)
    case XRead(done) => IsOwner(cfg, x) ==> AllAre(data, val % WORD) && Same(x.buf, done, val % WORD)
    case XGot => AllAre(x.buf[..LOCK], val % WORD)
    case XWrite(done) =>
      AllAre(x.buf[..LOCK], (val + 1) % WORD) && x.buf[LOCK] == 0 && Same(data, done, (val + 1) % WORD)
    case _ => true
  }

  ghost predicate WorkerOk(cfg: Config, s: State, w: Id)
    requires Shaped(s)
  {
    w in s.ws ==>
      && (w in s.admitted <==> IsAdmitted(cfg, s.ws[w]))
      && (s.owner == Some(w) <==> IsOwner(cfg, s.ws[w]))
      && Knows(cfg, s.ws[w], s.data, s.val)
  }

  ghost predicate Inv(cfg: Config, s: State) {
    && Shaped(s) && |s.ws| < WORD / 2 && LockInv(s)
    && s.admitted <= s.ws.Keys && (s.owner.Some? ==> s.owner.value in s.ws)
    && (s.owner.None? ==> AllAre(s.data, s.val % WORD))
    && (forall w: Id :: WorkerOk(cfg, s, w))
  }

  // ---- every step keeps the invariant -----------------------------------------------------------------------

  lemma SubsetSize(a: set<Id>, b: set<Id>)
    requires a <= b
    ensures |a| <= |b|
  {
    if a != {} {
      var x :| x in a;
      SubsetSize(a - {x}, b - {x});
    }
  }

  /** Wrapping at 2^64 keeps the parity. */
  lemma Parity(n: nat)
    ensures n % WORD % 2 == n % 2
  {
    assert n == WORD * (n / WORD) + n % WORD == 2 * (0x8000_0000_0000_0000 * (n / WORD)) + n % WORD;
  }

  /** The parity of the lock word tells whether there is a writer, however many readers were turned away. */
  lemma LockWord(cfg: Config, s: State)
    requires Inv(cfg, s)
    ensures s.lock % 2 == 1 <==> s.owner.Some?
    ensures s.owner.None? ==> s.lock == 2 * |s.admitted|
  {
    SubsetSize(s.admitted, s.ws.Keys);
    Parity(if s.owner.Some? then 1 + 2 * s.rejected else 2 * |s.admitted|);
  }

  /** A step of `w`; the others keep what they know if payload and value change only under `w`'s ownership. */
  lemma Frame(cfg: Config, s: State, s': State, w: Id, x: Worker)
    requires Inv(cfg, s) && w in s.ws && s'.ws == s.ws[w := x] && Shaped(s') && LockInv(s')
    requires s'.admitted <= s.admitted + {w} && s.admitted <= s'.admitted + {w}
    requires s'.owner == s.owner || (s.owner == None && s'.owner == Some(w)) || (s.owner == Some(w) && s'.owner == None)
    requires s'.owner.None? ==> AllAre(s'.data, s'.val % WORD)
    requires (s'.data == s.data && s'.val == s.val) || s.owner == Some(w)
    requires WorkerOk(cfg, s', w)
    ensures Inv(cfg, s')
  {
    assert s'.ws.Keys == s.ws.Keys;
    forall u: Id ensures WorkerOk(cfg, s', u) {
      assert WorkerOk(cfg, s, u);
    }
  }

  lemma AddKeepsLock(cfg: Config, s: State, w: Id)
    requires Inv(cfg, s) && Enabled(cfg, s, w, ExecAdd)
    ensures LockInv(AddStep(cfg, s, w))
  {
    LockWord(cfg, s);
    assert WorkerOk(cfg, s, w);
    if s.owner.Some? {
      PlusMod(1 + 2 * s.rejected, 2);
    } else {
      assert w !in s.admitted;
      PlusMod(2 * |s.admitted|, 2);
    }
  }

  lemma AddKeepsInv(cfg: Config, s: State, w: Id)
    requires Inv(cfg, s) && Enabled(cfg, s, w, ExecAdd)
    ensures Inv(cfg, AddStep(cfg, s, w))
  {
    var s' := AddStep(cfg, s, w);
    AddKeepsLock(cfg, s, w);
    LockWord(cfg, s);
    assert WorkerOk(cfg, s, w);
    Frame(cfg, s, s', w, s'.ws[w]);
  }

  lemma CasKeepsInv(cfg: Config, s: State, w: Id)
    requires Inv(cfg, s) && Enabled(cfg, s, w, ExecCas)
    ensures Inv(cfg, CasStep(cfg, s, w))
  {
    var s' := CasStep(cfg, s, w);
    LockWord(cfg, s);
    assert WorkerOk(cfg, s, w);
    Frame(cfg, s, s', w, s'.ws[w]);
  }

  lemma SubKeepsInv(cfg: Config, s: State, w: Id)
    requires Inv(cfg, s) && Enabled(cfg, s, w, ExecSub)
    ensures Inv(cfg, Apply(cfg, s, w, ExecSub))
  {
    var s' := Apply(cfg, s, w, ExecSub);
    LockWord(cfg, s);
    assert WorkerOk(cfg, s, w);
    Frame(cfg, s, s', w, s'.ws[w]);
  }

  /** A step that changes only the worker, not its role. */
  lemma QuietFrame(cfg: Config, s: State, w: Id, x: Worker)
    requires Inv(cfg, s) && w in s.ws && |x.buf| == LOCK + 1
    requires IsAdmitted(cfg, x) == IsAdmitted(cfg, s.ws[w]) && IsOwner(cfg, x) == IsOwner(cfg, s.ws[w])
    requires Knows(cfg, x, s.data, s.val)
    ensures Inv(cfg, Put(s, w, x))
  {
    assert WorkerOk(cfg, s, w);
    Frame(cfg, s, Put(s, w, x), w, x);
  }

  lemma ReadWordKeepsInv(cfg: Config, s: State, w: Id, i: nat)
    requires Inv(cfg, s) && Enabled(cfg, s, w, ReadWord(i))
    ensures Inv(cfg, ReadWordStep(cfg, s, w, i))
  {
    assert WorkerOk(cfg, s, w);
    QuietFrame(cfg, s, w, ReadWordStep(cfg, s, w, i).ws[w]);
  }

  lemma EndReadKeepsInv(cfg: Config, s: State, w: Id)
    requires Inv(cfg, s) && Enabled(cfg, s, w, EndRead)
    ensures Inv(cfg, EndReadStep(cfg, s, w))
  {
    assert WorkerOk(cfg, s, w);
    QuietFrame(cfg, s, w, EndReadStep(cfg, s, w).ws[w]);
  }

  lemma RefillKeepsInv(cfg: Config, s: State, w: Id)
    requires Inv(cfg, s) && Enabled(cfg, s, w, Refill)
    ensures Inv(cfg, Apply(cfg, s, w, Refill))
  {
    assert WorkerOk(cfg, s, w);
    assert s.ws[w].buf[0] == s.ws[w].buf[..LOCK][0];
    QuietFrame(cfg, s, w, Worker(XWrite({}), Refilled(s.ws[w].buf)));
  }

  lemma WriteKeepsInv(cfg: Config, s: State, w: Id, a: Action)
    requires Inv(cfg, s) && Enabled(cfg, s, w, a) && (a.WriteWord? || a.ExecRelease?)
    ensures Inv(cfg, Apply(cfg, s, w, a))
  {
    var s' := Apply(cfg, s, w, a);
    assert WorkerOk(cfg, s, w);
    if a.WriteWord? {
      assert s.ws[w].buf[a.i] == s.ws[w].buf[..LOCK][a.i];
    }
    Frame(cfg, s, s', w, s'.ws[w]);
  }

  lemma LocalKeepsInv(cfg: Config, s: State, w: Id, a: Action)
    requires Inv(cfg, s) && Enabled(cfg, s, w, a)
    requires a.StartShared? || a.StartExclusive? || a.TestShared? || a.TestExclusive? || a.ReleaseShared?
    ensures Inv(cfg, Apply(cfg, s, w, a))
  {
    assert WorkerOk(cfg, s, w);
    QuietFrame(cfg, s, w, Apply(cfg, s, w, a).ws[w]);
  }

  lemma StepKeepsInv(cfg: Config, s: State, w: Id, a: Action)
    requires Inv(cfg, s) && Enabled(cfg, s, w, a)
    ensures Inv(cfg, Apply(cfg, s, w, a))
  {
    match a
    case ExecAdd => AddKeepsInv(cfg, s, w);
    case ExecSub => SubKeepsInv(cfg, s, w);
    case ExecCas => CasKeepsInv(cfg, s, w);
    case ReadWord(i) => ReadWordKeepsInv(cfg, s, w, i);
    case EndRead => EndReadKeepsInv(cfg, s, w);
    case Refill => RefillKeepsInv(cfg, s, w);
    case WriteWord(_) => WriteKeepsInv(cfg, s, w, a);
    case ExecRelease => WriteKeepsInv(cfg, s, w, a);
    case _ => LocalKeepsInv(cfg, s, w, a);
  }

  // ---- runs -------------------------------------------------------------------------------------------------

  ghost predicate StepBy(cfg: Config, s: State, w: Id, a: Action, s': State) {
    Shaped(s) && Enabled(cfg, s, w, a) && s' == Apply(cfg, s, w, a)
  }

  ghost predicate Next(cfg: Config, s: State, s': State) {
    exists w, a :: StepBy(cfg, s, w, a, s')
  }

  ghost predicate StepAt(cfg: Config, tr: seq<State>, i: nat)
    requires i + 1 < |tr|
  {
    Next(cfg, tr[i], tr[i + 1])
  }

  ghost predicate Run(cfg: Config, tr: seq<State>) {
    && |tr| >= 1 && Init(tr[0])
    && (forall i :: 0 <= i < |tr| - 1 ==> StepAt(cfg, tr, i))
  }

  lemma NextKeepsInv(cfg: Config, s: State, s': State)
    requires Inv(cfg, s) && Next(cfg, s, s')
    ensures Inv(cfg, s')
  {
    var w, a :| StepBy(cfg, s, w, a, s');
    StepKeepsInv(cfg, s, w, a);
  }

  lemma {:induction false} RunInv(cfg: Config, tr: seq<State>, j: nat)
    requires Run(cfg, tr) && j < |tr|
    ensures Inv(cfg, tr[j])
  {
    if j == 0 {
      forall w: Id ensures WorkerOk(cfg, tr[0], w) {}
    } else {
      RunInv(cfg, tr, j - 1);
      assert StepAt(cfg, tr, j - 1);
      NextKeepsInv(cfg, tr[j - 1], tr[j]);
    }
  }

  /** The tuple refines an atomic counter. A release increments it; an admitted reader's checked copy is the
      counter in every word, so the check of the copy does not throw; no other step changes it. */
  lemma StepRefinesCounter(cfg: Config, s: State, w: Id, a: Action)
    requires Inv(cfg, s) && Enabled(cfg, s, w, a)
    ensures Apply(cfg, s, w, a).val == s.val + (if a.ExecRelease? then 1 else 0)
    ensures a.ReleaseShared? ==> AllAre(s.ws[w].buf[..LOCK], s.val % WORD)
    ensures s.owner == None ==> AllAre(s.data, s.val % WORD)
  {
    assert WorkerOk(cfg, s, w);
  }
}
