/** The layout of an optimistically locked tuple and the code that runs on a local copy of it
    (frontend/OptimisticLocks.hpp, frontend/optdb_experiment.cpp).

    A tuple is `lines` cache lines of eight words. FaRM keeps a version in the first word of every line;
    V2 keeps one version next to the lock. The lock is word 1 (Header) or the last word (Footer). */
module TupleLayout {
  import opened Words

  /** CL / sizeof(uint64_t): words in a cache line. */
  const LINE: nat := 8

  /** A WRITE of at most so many bytes takes its payload along when it is posted. */
  const INLINE_SIZE: nat := 64

  type Tuple = seq<Word>

  datatype Consistency = FaRM | V2
  datatype LockPosition = Header | Footer

  function WordsOf(lines: nat): nat {
    LINE * lines
  }

  /** postWrite sets IBV_SEND_INLINE, and the card has the bytes of a WRITE when it is posted. */
  predicate SentInline(words: nat) {
    8 * words <= INLINE_SIZE
  }

  /** tuple_buffer[index] = tuple_buffer[index + 1] = 0 for V2 with a footer. */
  function Cleared(t: Tuple): Tuple
    requires |t| >= 2
  {
    t[|t| - 2 := 0][|t| - 1 := 0]
  }

  /** `buffers` is the number of local copies of the tuple that a worker uses in turn. */
  datatype Config = Config(consistency: Consistency, position: LockPosition, lines: nat, batch: nat, buffers: nat)
  {
    /** A tuple has at least one line; a FaRM reader issues at least one READ. */
    predicate Valid() {
      lines >= 1 && batch >= 1 && buffers >= 1
    }

    predicate Inlines() {
      SentInline(Size())
    }

    /** A reader clears the version and lock slots of its copy before its first READ. */
    predicate ZeroesFirst() {
      consistency.V2? && position.Footer?
    }

    /** No store of a worker reaches a copy from which one of its WRITEs may still be pending. */
    predicate KeepsPayload() {
      !ZeroesFirst() || buffers >= 2 || Inlines()
    }

    function Size(): nat {
      WordsOf(lines)
    }

    /** ExclusiveLock::getLockPosition and OptimisticLock::checkLock. */
    function LockIndex(): nat
      requires Valid()
    {
      if position.Header? then 1 else Size() - 1
    }

    /** The version word that a V2 reader compares; for FaRM the version of the first line. */
    function VersionIndex(): nat
      requires Valid()
    {
      if consistency.V2? && position.Footer? then Size() - 2 else 0
    }

    predicate IsVersion(i: nat)
      requires Valid()
    {
      if consistency.FaRM? then i % LINE == 0 else i == VersionIndex()
    }

    /** Words that belong to the user of the lock. */
    predicate IsData(i: nat)
      requires Valid()
    {
      !IsVersion(i) && i != LockIndex()
    }
  }

  ghost predicate VersionsAgree(t: Tuple) {
    forall i :: 0 <= i < |t| && i % LINE == 0 ==> t[i] == t[0]
  }

  /** What ExclusiveLock::unlock makes of the local copy before posting it. */
  ghost function Payload(cfg: Config, t: Tuple): (p: Tuple)
    requires cfg.Valid()
  {
    seq(|t|, i requires 0 <= i < |t| =>
      if cfg.IsVersion(i) then Plus(t[i], 1)
      else if cfg.position.Footer? && i == cfg.LockIndex() then 0
      else t[i])
  }

  /** FaRM::generateConsistencyProof: bump the version of every line but the first. */
  method GenerateConsistencyProof(buffer: array<Word>)
    modifies buffer
    ensures forall i :: 0 <= i < buffer.Length ==>
      buffer[i] == if i >= LINE && i % LINE == 0 then Plus(old(buffer[i]), 1) else old(buffer[i])
  {
    var cl := LINE;
    while cl < buffer.Length
      invariant cl >= LINE && cl % LINE == 0
      invariant forall i :: 0 <= i < buffer.Length ==>
        buffer[i] == if LINE <= i < cl && i % LINE == 0 then Plus(old(buffer[i]), 1) else old(buffer[i])
    {
      buffer[cl] := Plus(buffer[cl], 1);
      cl := cl + LINE;
    }
  }

  /** FaRM::checkConsistencyProof: false stands for OLRestartException. */
  method CheckConsistencyProof(buffer: array<Word>) returns (ok: bool)
    requires buffer.Length > 0
    ensures ok <==> VersionsAgree(buffer[..])
  {
    var prev := buffer[0];
    var cl := 0;
    while cl < buffer.Length
      invariant cl % LINE == 0
      invariant forall i :: 0 <= i < buffer.Length && i < cl && i % LINE == 0 ==> buffer[i] == prev
    {
      if prev != buffer[cl] {
        assert buffer[..][cl] != buffer[..][0];
        return false;
      }
      cl := cl + LINE;
    }
    return true;
  }

  /** ExclusiveLock::unlock up to the WRITE, with FooterLock::unlock's store of 0 into the lock slot. */
  method PrepareUnlock(cfg: Config, buffer: array<Word>)
    requires cfg.Valid() && buffer.Length == cfg.Size()
    modifies buffer
    ensures buffer[..] == Payload(cfg, old(buffer[..]))
  {
    if cfg.consistency.FaRM? {
      GenerateConsistencyProof(buffer);
    }
    if cfg.consistency.V2? && cfg.position.Footer? {
      var index := cfg.Size() - 2;
      buffer[index] := Plus(buffer[index], 1);
    } else {
      buffer[0] := Plus(buffer[0], 1);
    }
    if cfg.position.Footer? {
      buffer[cfg.Size() - 1] := 0;
    }
  }

  /** The fields that the consistency experiment increments: words 3, 4 and 5 of every line. */
  predicate IsField(i: int) {
    i >= 0 && 3 <= i % LINE < 6
  }

  ghost predicate FieldsEqual(t: Tuple)
    requires |t| >= LINE
  {
    forall i :: 0 <= i < |t| && IsField(i) ==> t[i] == t[3]
  }

  ghost function Incremented(t: Tuple): Tuple {
    seq(|t|, i requires 0 <= i < |t| => if IsField(i) then Plus(t[i], 1) else t[i])
  }

  /** run_check's writer: the nested loops that increment the fields of the local copy. */
  method IncrementFields(buffer: array<Word>, lines: nat)
    requires buffer.Length == LINE * lines
    modifies buffer
    ensures buffer[..] == Incremented(old(buffer[..]))
  {
    for cl := 0 to lines
      invariant forall i :: 0 <= i < buffer.Length ==>
        buffer[i] == if i < LINE * cl && IsField(i) then Plus(old(buffer[i]), 1) else old(buffer[i])
    {
      for v := 3 to 6
        invariant forall i :: 0 <= i < buffer.Length ==>
          buffer[i] == if i < LINE * cl + v && IsField(i) then Plus(old(buffer[i]), 1) else old(buffer[i])
      {
        var idx := LINE * cl + v;
        buffer[idx] := Plus(buffer[idx], 1);
      }
    }
  }

  /** run_check's reader: `corrupt` decides whether "Read consistency check failed" is thrown. */
  method IsCorrupt(buffer: array<Word>, lines: nat) returns (corrupt: bool)
    requires lines >= 1 && buffer.Length == LINE * lines
    ensures corrupt <==> !FieldsEqual(buffer[..])
  {
    var prev := buffer[3];
    corrupt := false;
    for cl := 0 to lines
      invariant !corrupt <==> forall i :: 0 <= i < LINE * cl && IsField(i) ==> buffer[i] == prev
    {
      for v := 3 to 6
        invariant !corrupt <==> forall i :: 0 <= i < LINE * cl + v && IsField(i) ==> buffer[i] == prev
      {
        var idx := LINE * cl + v;
        if prev != buffer[idx] {
          corrupt := true;
        }
      }
    }
    assert buffer[..][3] == prev;
  }
}
