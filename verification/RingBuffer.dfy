/** RingBuffer of backend/nam/utils/BatchQueue.hpp: a FIFO over an array of 2^k slots whose read and write counters
    are 64-bit words that wrap around. */
module RingBuffer {
  import opened Words

  function Pow2(k: nat): (p: nat)
    ensures p >= 1
  {
    if k == 0 then 1 else 2 * Pow2(k - 1)
  }

  /** Bitwise and. */
  function And(a: nat, b: nat): nat {
    if a == 0 || b == 0 then 0 else 2 * And(a / 2, b / 2) + (a % 2) * (b % 2)
  }

  /** The number made of the lowest `k` bits of `v`. */
  function LowBits(v: nat, k: nat): (r: nat)
    ensures r < Pow2(k)
  {
    if k == 0 then 0 else 2 * LowBits(v / 2, k - 1) + v % 2
  }

  /** `val & (N - 1)` for a power of two N. */
  lemma {:induction false} MaskIsLowBits(v: nat, k: nat)
    ensures And(v, Pow2(k) - 1) == LowBits(v, k)
  {
    if k > 0 {
      assert (Pow2(k) - 1) / 2 == Pow2(k - 1) - 1;
      MaskIsLowBits(v / 2, k - 1);
    }
  }

  lemma {:induction false} LowBitsTwice(v: nat, k: nat, m: nat)
    requires k <= m
    ensures LowBits(LowBits(v, m), k) == LowBits(v, k)
  {
    if k > 0 {
      LowBitsTwice(v / 2, k - 1, m - 1);
      assert LowBits(v, m) / 2 == LowBits(v / 2, m - 1);
    }
  }

  /** What is left above the lowest `m` bits. */
  lemma {:induction false} SplitAt(v: nat, m: nat) returns (high: nat)
    ensures v == Pow2(m) * high + LowBits(v, m)
  {
    if m == 0 {
      high := v;
    } else {
      high := SplitAt(v / 2, m - 1);
      var p := Pow2(m - 1) * high;
      assert Pow2(m) * high == 2 * p;
      assert v == 2 * (v / 2) + v % 2;
    }
  }

  lemma {:induction false} Pow2Sum(a: nat, b: nat)
    ensures Pow2(a + b) == Pow2(a) * Pow2(b)
  {
    if a > 0 {
      Pow2Sum(a - 1, b);
      assert Pow2(a) * Pow2(b) == 2 * (Pow2(a - 1) * Pow2(b));
    }
  }

  lemma Pow2Word()
    ensures Pow2(64) == WORD
  {
    assert Pow2(4) == 16;
    assert Pow2(8) == 256 by { Pow2Sum(4, 4); }
    assert Pow2(16) == 65536 by { Pow2Sum(8, 8); }
    assert Pow2(32) == 0x1_0000_0000 by { Pow2Sum(16, 16); }
    Pow2Sum(32, 32);
  }

  lemma Remainder(v: nat, high: nat, low: nat)
    requires low < WORD && v == WORD * high + low
    ensures v % WORD == low
  {
  }

  lemma {:induction false} Pow2Less(a: nat, b: nat)
    requires a < b
    ensures Pow2(a) < Pow2(b)
  {
    if a + 1 < b {
      Pow2Less(a, b - 1);
    }
  }

  /** The slot of a counter does not depend on whether the counter has wrapped at 2^64. */
  lemma WrapKeepsSlot(v: nat, k: nat)
    requires k <= 64
    ensures LowBits(v % WORD, k) == LowBits(v, k)
  {
    Pow2Word();
    var high := SplitAt(v, 64);
    Remainder(v, high, LowBits(v, 64));
    LowBitsTwice(v, k, 64);
  }

  /** Fewer than N counters in a row have different slots. */
  lemma {:induction false} SlotsDiffer(a: nat, b: nat, k: nat)
    requires a < b < a + Pow2(k)
    ensures LowBits(a, k) != LowBits(b, k)
  {
    if k > 0 && a % 2 == b % 2 {
      SlotsDiffer(a / 2, b / 2, k - 1);
    }
  }

  /** The slot of the element number `i` counted from `from`. */
  function Slot(from: nat, i: nat, k: nat): nat {
    LowBits(from + i, k)
  }

  lemma CapacityBelowWord(k: nat)
    requires k < 64
    ensures Pow2(k) < WORD
  {
    Pow2Word();
    Pow2Less(k, 64);
  }

  class RingBuffer<T(0)> {
    ghost const k: nat
    const buffer: array<T>
    var read: Word
    var write: Word

    ghost predicate Valid()
      reads this, buffer
    {
      k < 64 && buffer.Length == Pow2(k) && (write - read) % WORD <= buffer.Length
    }

    /** The elements from the oldest to the newest. */
    ghost function Contents(): (s: seq<T>)
      requires Valid()
      reads this, buffer
    {
      var from := read;
      seq((write - read) % WORD, i requires 0 <= i && Slot(from, i, k) < buffer.Length reads buffer =>
        buffer[Slot(from, i, k)])
    }

    constructor (ghost exponent: nat, capacity: nat)
      requires exponent < 64 && capacity == Pow2(exponent)
      ensures Valid() && Contents() == [] && buffer.Length == capacity && fresh(buffer)
    {
      k := exponent;
      read, write := 0, 0;
      buffer := new T[capacity];
    }

    function Mask(val: Word): (slot: nat)
      requires Valid()
      reads this, buffer
      ensures slot == LowBits(val, k) < buffer.Length
    {
      MaskIsLowBits(val, k);
      And(val, buffer.Length - 1)
    }

    method GetSize() returns (n: Word)
      requires Valid()
      ensures n == |Contents()|
    {
      n := (write - read) % WORD;
    }

    method Empty() returns (b: bool)
      requires Valid()
      ensures b <==> Contents() == []
    {
      b := read == write;
    }

    method Full() returns (b: bool)
      requires Valid()
      ensures b <==> |Contents()| == buffer.Length
    {
      var n := GetSize();
      b := n == buffer.Length;
    }

    /** Refuses exactly when the buffer is full, and then changes nothing. */
    method TryPush(e: T) returns (ok: bool)
      requires Valid()
      modifies this`write, buffer
      ensures Valid()
      ensures ok <==> |old(Contents())| < buffer.Length
      ensures Contents() == if ok then old(Contents()) + [e] else old(Contents())
    {
      var full := Full();
      if full {
        return false;
      }
      ghost var n := |Contents()|;
      PushSize(read, write, n, k);
      assert Mask(write) == Slot(read, n, k);
      forall i: nat | i < n ensures Slot(read, i, k) != Slot(read, n, k) {
        SlotsDiffer(read + i, read + n, k);
      }
      buffer[Mask(write)] := e;
      write := Plus(write, 1);
      assert |Contents()| == n + 1 && Contents()[n] == e;
      assert Contents()[..n] == old(Contents());
      ok := true;
    }

    /** Refuses exactly when the buffer is empty, and then changes nothing. */
    method TryPop(previous: T) returns (ok: bool, e: T)
      requires Valid()
      modifies this`read
      ensures Valid()
      ensures ok <==> old(Contents()) != []
      ensures ok ==> e == old(Contents())[0] && Contents() == old(Contents())[1..]
      ensures !ok ==> e == previous && Contents() == old(Contents())
    {
      var empty := Empty();
      if empty {
        return false, previous;
      }
      ghost var n := |Contents()|;
      assert Mask(read) == Slot(read, 0, k);
      e := buffer[Mask(read)];
      PopSize(read, write, n);
      read := Plus(read, 1);
      assert |Contents()| == n - 1;
      forall i | 0 <= i < n - 1 ensures Contents()[i] == old(Contents())[i + 1] {
        ShiftSlot(old(read), i, k);
      }
      ok := true;
    }

    method Reset()
      requires Valid()
      modifies this`read, this`write
      ensures Valid() && Contents() == []
    {
      read := 0;
      write := 0;
    }
  }

  /** The size of the buffer from its wrapping counters, spelled out. */
  lemma Distance(read: Word, write: Word)
    ensures (write - read) % WORD == if write >= read then write - read else write - read + WORD
  {
  }

  lemma AddBack(read: Word, write: Word)
    ensures (read + (write - read) % WORD) % WORD == write
  {
    Distance(read, write);
  }

  lemma SizeGrows(read: Word, write: Word)
    requires (write - read) % WORD < WORD - 1
    ensures (Plus(write, 1) - read) % WORD == (write - read) % WORD + 1
  {
    Distance(read, write);
    Distance(read, Plus(write, 1));
  }

  lemma PushSize(read: Word, write: Word, n: nat, k: nat)
    requires k < 64 && n == (write - read) % WORD && n < Pow2(k)
    ensures LowBits(write, k) == Slot(read, n, k)
    ensures (Plus(write, 1) - read) % WORD == n + 1
  {
    CapacityBelowWord(k);
    SizeGrows(read, write);
    AddBack(read, write);
    WrapKeepsSlot(read + n, k);
  }

  lemma PopSize(read: Word, write: Word, n: nat)
    requires n == (write - read) % WORD && n > 0
    ensures (write - Plus(read, 1)) % WORD == n - 1
  {
    Distance(read, write);
    Distance(Plus(read, 1), write);
  }

  lemma OverWord(i: nat)
    ensures (WORD + i) % WORD == i % WORD
  {
  }

  lemma ShiftSlot(read: Word, i: nat, k: nat)
    requires k <= 64
    ensures Slot(Plus(read, 1), i, k) == Slot(read, i + 1, k)
  {
    if read == WORD - 1 {
      WrapKeepsSlot(i, k);
      WrapKeepsSlot(WORD + i, k);
      OverWord(i);
    } else {
      assert Plus(read, 1) == read + 1;
    }
  }
}
