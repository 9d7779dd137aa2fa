/** BatchQueue of backend/nam/utils/BatchQueue.hpp: a fixed pool of batches in two intrusive lists, `full` and
    `empty`, with a 64-bit counter of the elements in the full batches.

    A method runs under the latch, so it is one atomic operation; where the original gives up because another
    thread holds the latch, `contended` says so. The containers are sequences of at most `batchSize` elements. */
module BatchQueue {
  import opened Words

  class Batch<T> {
    var container: seq<T>
    var next: Batch?<T>
    const index: nat          // batch - &batches[0]

    constructor (i: nat)
      ensures index == i && container == [] && next == null
    {
      container, next, index := [], null, i;
    }
  }

  /** The number of elements in the batches of a list. */
  ghost function Elements<T>(list: seq<Batch<T>>): (n: nat)
    reads list`container
  {
    if list == [] then 0 else |list[0].container| + Elements(list[1..])
  }

  /** `list` is the chain of `next` pointers that starts at `head` and ends with a null pointer; no batch is in it
      twice. */
  ghost predicate Linked<T>(head: Batch?<T>, list: seq<Batch<T>>)
    reads list`next
  {
    if list == [] then head == null
    else head == list[0] && list[0] !in list[1..] && Linked(list[0].next, list[1..])
  }

  /** `count` times `size`. */
  ghost function Capacity(count: nat, size: nat): nat {
    if count == 0 then 0 else Capacity(count - 1, size) + size
  }

  lemma {:induction false} CapacityMonotone(a: nat, b: nat, size: nat)
    requires a <= b
    ensures Capacity(a, size) <= Capacity(b, size)
  {
    if a < b {
      CapacityMonotone(a, b - 1, size);
    }
  }

  lemma {:induction false} ElementsBound<T>(list: seq<Batch<T>>, max: nat)
    requires forall b <- list :: |b.container| <= max
    ensures Elements(list) <= Capacity(|list|, max)
  {
    if list != [] {
      ElementsBound(list[1..], max);
    }
  }

  lemma {:induction false} NoElements<T>(list: seq<Batch<T>>)
    ensures Elements(list) == 0 <==> forall b <- list :: b.container == []
  {
    if list != [] {
      NoElements(list[1..]);
      assert list == [list[0]] + list[1..];
    }
  }

  /** How many batches `reset` takes from the list: it stops when no element is left in the rest. */
  ghost function Taken<T>(list: seq<Batch<T>>): (n: nat)
    reads list`container
    ensures n <= |list|
  {
    if Elements(list) == 0 then 0 else 1 + Taken(list[1..])
  }

  /** It takes all of them exactly if the last one, which was pushed first, is not an empty batch. */
  lemma {:induction false} TakesAll<T>(list: seq<Batch<T>>)
    ensures Taken(list) == |list| <==> list == [] || list[|list| - 1].container != []
  {
    NoElements(list);
    if list != [] {
      TakesAll(list[1..]);
      if |list| > 1 {
        assert list[1..][|list| - 2] == list[|list| - 1];
      }
    }
  }

  ghost function Reversed<T>(list: seq<Batch<T>>): seq<Batch<T>> {
    if list == [] then [] else Reversed(list[1..]) + [list[0]]
  }

  lemma {:induction false} ReversedSnoc<T>(list: seq<Batch<T>>, x: Batch<T>)
    ensures Reversed(list + [x]) == [x] + Reversed(list)
  {
    if list != [] {
      assert (list + [x])[1..] == list[1..] + [x];
      ReversedSnoc(list[1..], x);
    }
  }

  /** Of the full list `start`, the first `i` batches are back in the empty list, which was `tail`, and one more is in
      hand if `ok`. */
  ghost predicate Moved<T>(start: seq<Batch<T>>, tail: seq<Batch<T>>, i: nat, ok: bool,
      full: seq<Batch<T>>, empty: seq<Batch<T>>)
  {
    var next := if ok then i + 1 else i;
    next <= |start| && full == start[next..] && empty == Reversed(start[..i]) + tail
  }

  lemma MovedOne<T>(start: seq<Batch<T>>, tail: seq<Batch<T>>, i: nat, ok: bool,
      full: seq<Batch<T>>, empty: seq<Batch<T>>, full': seq<Batch<T>>, empty': seq<Batch<T>>)
    requires Moved(start, tail, i, true, full, empty) && empty' == [start[i]] + empty
    requires (ok ==> full != []) && full' == (if ok then full[1..] else full)
    ensures Moved(start, tail, i + 1, ok, full', empty') && (ok ==> i + 1 < |start| && full[0] == start[i + 1])
  {
    assert start[..i + 1] == start[..i] + [start[i]];
    ReversedSnoc(start[..i], start[i]);
    assert ok ==> start[i + 1..][1..] == start[i + 2..];
  }

  /** Distinct numbers below `n` are at most `n`. */
  lemma {:induction false} PigeonHole(numbers: set<nat>, n: nat)
    requires forall i <- numbers :: i < n
    ensures |numbers| <= n
  {
    if n > 0 {
      PigeonHole(numbers - {n - 1}, n - 1);
    } else {
      assert numbers == {};
    }
  }

  /** A set of numbers below `n` is the whole range if and only if it has `n` of them. */
  lemma {:induction false} Fills(numbers: set<nat>, n: nat)
    requires forall i <- numbers :: i < n
    ensures |numbers| == n <==> forall i :: 0 <= i < n ==> i in numbers
  {
    if n > 0 {
      var rest := numbers - {n - 1};
      Fills(rest, n - 1);
      PigeonHole(rest, n - 1);
    } else {
      assert numbers == {};
    }
  }

  lemma {:induction false} IndexSet<T>(head: Batch?<T>, list: seq<Batch<T>>, pool: seq<Batch<T>>)
    returns (numbers: set<nat>)
    requires Linked(head, list) && forall b <- list :: b.index < |pool| && pool[b.index] == b
    ensures |numbers| == |list| && forall i <- numbers :: i < |pool| && pool[i] in list
    ensures forall b <- list :: b.index in numbers
  {
    if list == [] {
      numbers := {};
    } else {
      var rest := IndexSet(list[0].next, list[1..], pool);
      numbers := rest + {list[0].index};
    }
  }

  /** What the operations do to the two lists. */
  datatype Lists<B> = Lists(full: seq<B>, empty: seq<B>)
  {
    function PushFull(b: B): Lists<B> {
      Lists([b] + full, empty)
    }

    function PushEmpty(b: B): Lists<B> {
      Lists(full, [b] + empty)
    }

    function PopFull(): Lists<B>
      requires full != []
    {
      Lists(full[1..], empty)
    }

    function PopEmpty(): Lists<B>
      requires empty != []
    {
      Lists(full, empty[1..])
    }

    /** The decision of the operations that pop a full batch. */
    predicate PopsFull(guard: Word, contended: bool) {
      guard != 0 && !contended && full != []
    }
  }

  /** (size_ / BatchSize) * oversubscription, truncated. */
  function PoolSize(size: nat, batchSize: nat): (count: nat)
    requires batchSize > 0
    ensures size / batchSize <= count && 10 * count <= 11 * (size / batchSize) < 10 * count + 10
  {
    ((size / batchSize) as real * 1.1).Floor
  }

  /** The `double` nearest to 1.1, and half a unit in the last place of a number of its kind. */
  const OVERSUBSCRIPTION: real := 4953959590107546.0 / 4503599627370496.0
  const HALF_ULP: real := 1.0 / 9007199254740992.0

  /** `p` may be the rounded `x`: it is that close, and rounding does not pass a whole number, which is a `double`. */
  ghost predicate IsRounded(p: real, x: real) {
    x * (1.0 - HALF_ULP) <= p <= x * (1.0 + HALF_ULP) && x.Floor as real <= p
  }

  lemma FloorIs(m: int, x: real)
    requires m as real <= x < m as real + 1.0
    ensures x.Floor == m
  {
  }

  /** The double is a little above 1.1, and the error stays below the tenth that is missing to the next number. */
  lemma ProductBounds(n: nat, m: nat, x: real, p: real)
    requires n <= 0x1_0000_0000_0000 && 10 * m <= 11 * n < 10 * m + 10
    requires x == n as real * OVERSUBSCRIPTION && x * (1.0 - HALF_ULP) <= p <= x * (1.0 + HALF_ULP)
    ensures m as real <= x < m as real + 1.0 && p < m as real + 1.0
  {
    assert x - n as real * 1.1 <= 0.03;
    assert x * HALF_ULP <= 0.04;
    assert 11 * n <= 10 * m + 9;
  }

  /** Up to 2^48 batches, which no address space holds, the product of the `double`s is truncated to the same number. */
  lemma PoolSizeInDoubles(size: nat, batchSize: nat, p: real)
    requires batchSize > 0 && size / batchSize <= 0x1_0000_0000_0000
    requires IsRounded(p, (size / batchSize) as real * OVERSUBSCRIPTION)
    ensures p.Floor == PoolSize(size, batchSize)
  {
    var n, m := size / batchSize, PoolSize(size, batchSize);
    var x := n as real * OVERSUBSCRIPTION;
    ProductBounds(n, m, x, p);
    FloorIs(m, x);
    FloorIs(m, p);
  }

  /** An intrusive list: its head and its number of batches. `list` is what it contains. */
  class Metadata<T> {
    var head: Batch?<T>
    var size: nat
    ghost var list: seq<Batch<T>>

    ghost predicate Valid()
      reads this, list
    {
      Linked(head, list) && size == |list|
    }

    constructor ()
      ensures Valid() && list == []
    {
      head, size, list := null, 0, [];
    }

    /** batch->next = head; head = batch; size++ */
    method Push(batch: Batch<T>)
      requires Valid() && batch !in list
      modifies this, batch`next
      ensures Valid() && list == [batch] + old(list)
    {
      batch.next := head;
      head := batch;
      size := size + 1;
      list := [batch] + list;
      assert list[1..] == old(list);
    }

    /** batch = head; head = head->next; size-- */
    method Pop() returns (batch: Batch<T>)
      requires Valid() && head != null
      modifies this
      ensures old(list) != [] && batch == old(list)[0]
      ensures Valid() && list == old(list)[1..]
    {
      batch := head;
      head := head.next;
      size := size - 1;
      list := list[1..];
    }
  }

  /** std::make_unique<B[]>(size) */
  method AllocatePool<T>(count: nat) returns (pool: seq<Batch<T>>)
    ensures |pool| == count && fresh(pool)
    ensures forall k :: 0 <= k < count ==> pool[k].index == k && pool[k].container == []
  {
    pool := [];
    for i := 0 to count
      invariant |pool| == i && fresh(pool)
      invariant forall k :: 0 <= k < i ==> pool[k].index == k && pool[k].container == []
    {
      var b := new Batch(i);
      pool := pool + [b];
    }
  }

  class BatchQueue<T> {
    const batchSize: nat
    const batches: seq<Batch<T>>
    var elements: Word
    const full: Metadata<T>
    const empty: Metadata<T>

    ghost predicate Pooled(b: Batch<T>) {
      b.index < |batches| && batches[b.index] == b
    }

    /** A batch of the pool that is in neither list. */
    ghost predicate IsHeld(b: Batch<T>)
      reads full`list, empty`list
    {
      Pooled(b) && b !in full.list && b !in empty.list
    }

    /** The lists hold batches of the pool and have none in common. */
    ghost predicate Partition()
      reads full`list, empty`list
    {
      && (forall b <- full.list :: Pooled(b) && b !in empty.list)
      && (forall b <- empty.list :: Pooled(b))
    }

    ghost predicate Valid()
      reads this, batches, full, empty, full.list, empty.list
    {
      && full != empty
      && (forall i :: 0 <= i < |batches| ==> batches[i].index == i)
      && Partition() && full.Valid() && empty.Valid()
      && elements == Elements(full.list) % WORD
      && (forall b <- empty.list :: b.container == [])
      && (forall b <- batches :: |b.container| <= batchSize)
      && Capacity(|batches|, batchSize) < WORD
    }

    ghost function Both(): Lists<Batch<T>>
      reads full`list, empty`list
    {
      Lists(full.list, empty.list)
    }

    /** All batches go to the empty list, so the last one is at its head. */
    constructor (size: nat, batchSize: nat)
      requires batchSize > 0 && Capacity(PoolSize(size, batchSize), batchSize) < WORD
      ensures Valid() && fresh(full) && fresh(empty) && fresh(batches)
      ensures |batches| == PoolSize(size, batchSize) && full.list == [] && elements == 0
      ensures |empty.list| == |batches|
      ensures forall k :: 0 <= k < |batches| ==> empty.list[k] == batches[|batches| - 1 - k]
    {
      this.batchSize := batchSize;
      elements := 0;
      full := new Metadata();
      empty := new Metadata();
      var pool := AllocatePool(PoolSize(size, batchSize));
      batches := pool;
      new;
      assert Blank();
      PushAllEmpty();
    }

    /** A queue before the constructor fills its empty list. */
    ghost predicate Blank()
      reads this, batches, full, empty
    {
      && full != empty && full.head == null == empty.head && full.list == [] == empty.list
      && full.size == 0 == empty.size && elements == 0 && Capacity(|batches|, batchSize) < WORD
      && (forall k :: 0 <= k < |batches| ==>
           batches[k].index == k && batches[k].container == [])
    }

    method PushAllEmpty()
      requires Blank()
      modifies empty, batches`next
      ensures Valid() && full.list == []
      ensures |empty.list| == |batches|
      ensures forall k :: 0 <= k < |batches| ==> empty.list[k] == batches[|batches| - 1 - k]
    {
      for i := 0 to |batches|
        invariant Valid() && full.list == []
        invariant forall k :: i <= k < |batches| ==> IsHeld(batches[k]) && batches[k].container == []
        invariant |empty.list| == i && forall k :: 0 <= k < i ==> empty.list[k] == batches[i - 1 - k]
      {
        var _ := TryPushEmpty(batches[i]);
      }
    }

    /** The counter does not wrap, so it is 0 exactly if no full batch has an element. */
    lemma ElementsExact()
      requires Valid()
      ensures |full.list| <= |batches|
      ensures elements == Elements(full.list)
      ensures elements == 0 <==> forall b <- full.list :: b.container == []
    {
      var list := full.list;
      forall b | b in list ensures |b.container| <= batchSize { assert b == batches[b.index]; }
      ElementsBound(list, batchSize);
      var numbers := IndexSet(full.head, list, batches);
      PigeonHole(numbers, |batches|);
      CapacityMonotone(|list|, |batches|, batchSize);
      NoElements(list);
    }

    /** try_push_full. */
    method TryPushFull(batch: Batch<T>) returns (ok: bool)
      requires Valid() && IsHeld(batch)
      modifies this`elements, full, batch`next
      ensures Valid() && ok
      ensures Both() == old(Both()).PushFull(batch) && elements == Plus(old(elements), |batch.container|)
    {
      full.Push(batch);
      elements := Plus(elements, |batch.container|);
      assert full.list[1..] == old(full.list);
      PlusMod(Elements(old(full.list)), |batch.container|);
      ok := true;
    }

    /** try_push_empty. */
    method TryPushEmpty(batch: Batch<T>) returns (ok: bool)
      requires Valid() && IsHeld(batch) && batch.container == []
      modifies empty, batch`next
      ensures Valid() && ok
      ensures Both() == old(Both()).PushEmpty(batch)
    {
      empty.Push(batch);
      ok := true;
    }

    /** try_pop_empty: refuses exactly when there is no empty batch. */
    method TryPopEmpty() returns (ok: bool, batch: Batch?<T>)
      requires Valid()
      modifies empty
      ensures Valid()
      ensures ok <==> old(empty.list) != []
      ensures ok ==> batch == old(empty.list)[0] && Both() == old(Both()).PopEmpty()
      ensures ok ==> IsHeld(batch) && batch.container == []
      ensures !ok ==> batch == null && empty.list == old(empty.list)
    {
      if empty.head == null {
        return false, null;
      }
      var first := empty.Pop();
      return true, first;
    }

    /** try_pop_full. The counter is read before the latch is taken, so `guard` is the counter of that instant and the
        list may have changed since: it refuses when the guard was 0, when another thread has the latch, or when no
        full batch is left. With nobody in between, that is when no element is left. */
    method TryPopFull(guard: Word, contended: bool) returns (ok: bool, batch: Batch?<T>)
      requires Valid()
      modifies this`elements, full
      ensures Valid()
      ensures ok <==> old(Both()).PopsFull(guard, contended)
      ensures ok ==> batch == old(full.list)[0] && Both() == old(Both()).PopFull() && IsHeld(batch)
      ensures ok ==> elements == Plus(old(elements), -|batch.container|)
      ensures !ok ==> batch == null && full.list == old(full.list) && elements == old(elements)
      ensures guard == old(elements) ==> (ok <==> !contended && old(Elements(full.list)) > 0)
    {
      ElementsExact();
      if guard == 0 || contended || full.head == null {
        return false, null;
      }
      var first := full.Pop();
      PlusMod(old(Elements(full.list)), -|first.container|);
      elements := Plus(elements, -|first.container|);
      return true, first;
    }

    /** push_full_and_try_pop_empty: swaps a full batch for an empty one, or does nothing. */
    method PushFullAndTryPopEmpty(batch: Batch<T>) returns (ok: bool, out: Batch<T>)
      requires Valid() && IsHeld(batch)
      modifies this`elements, full, empty, batch`next
      ensures Valid() && IsHeld(out)
      ensures ok <==> old(empty.list) != []
      ensures ok ==> out == old(empty.list)[0] && out.container == []
      ensures ok ==> Both() == old(Both()).PushFull(batch).PopEmpty()
      ensures ok ==> elements == Plus(old(elements), |batch.container|)
      ensures !ok ==> out == batch && full.list == old(full.list) && empty.list == old(empty.list)
      ensures !ok ==> elements == old(elements) && batch.next == old(batch.next)
    {
      if empty.head == null {
        return false, batch;
      }
      var _ := TryPushFull(batch);
      var popped, first := TryPopEmpty();
      return true, first;
    }

    /** push_empty_and_try_pop_full: swaps an empty batch for a full one, or does nothing. `guard` is the counter as it
        was read before the latch. */
    method PushEmptyAndTryPopFull(batch: Batch<T>, guard: Word, contended: bool) returns (ok: bool, out: Batch<T>)
      requires Valid() && IsHeld(batch) && batch.container == []
      modifies this`elements, full, empty, batch`next
      ensures Valid() && IsHeld(out)
      ensures ok <==> old(Both()).PopsFull(guard, contended)
      ensures ok ==> out == old(full.list)[0] && Both() == old(Both()).PushEmpty(batch).PopFull()
      ensures ok ==> elements == Plus(old(elements), -|out.container|)
      ensures !ok ==> out == batch && full.list == old(full.list) && empty.list == old(empty.list)
      ensures !ok ==> elements == old(elements) && batch.next == old(batch.next)
      ensures guard == old(elements) ==> (ok <==> !contended && old(Elements(full.list)) > 0)
    {
      ElementsExact();
      if guard == 0 || contended || full.head == null {
        return false, batch;
      }
      var _ := TryPushEmpty(batch);
      var popped, first := TryPopFull(guard, false);
      return true, first;
    }

    /** reset, with no other thread at the queue. The loop ends as soon as the counter is 0, so batches that were
        pushed as full without an element stay behind if they are at the end of the list. `clean` is the
        condition that the original asserts after the loop; `unique` that the duplicate check does not throw. */
    method Reset() returns (clean: bool, unique: bool)
      requires Valid()
      modifies this`elements, full, empty, batches`container, batches`next
      ensures Valid() && unique && elements == 0
      ensures full.list == old(full.list[Taken(full.list)..])
      ensures empty.list == Reversed(old(full.list[..Taken(full.list)])) + old(empty.list)
      ensures forall b <- empty.list :: b.container == []
      ensures clean <==> full.list == []
      ensures clean <==> old(full.list == [] || full.list[|full.list| - 1].container != [])
    {
      TakesAll(full.list);
      ElementsExact();
      unique := true;
      if full.size > 0 {
        ghost var taken := TakeAll();
        unique := AssertNoDuplicates();
      }
      clean := full.size == 0;
    }

    /** try_pop_full with nobody in between. */
    method PopNext() returns (ok: bool, batch: Batch?<T>)
      requires Valid()
      modifies this`elements, full
      ensures Valid()
      ensures ok ==> old(full.list) != [] && batch == old(full.list)[0] && IsHeld(batch)
      ensures full.list == if ok then old(full.list)[1..] else old(full.list)
      ensures old(Taken(full.list)) == (if ok then 1 else 0) + Taken(full.list)
      ensures !ok ==> elements == 0 && Taken(full.list) == 0
    {
      ElementsExact();
      ok, batch := TryPopFull(elements, false);
    }

    /** The body of the loop of reset. */
    method Recycle(batch: Batch<T>)
      requires Valid() && IsHeld(batch)
      modifies empty, batch`container, batch`next
      ensures Valid() && full.list == old(full.list) && empty.list == [batch] + old(empty.list)
      ensures Elements(full.list) == old(Elements(full.list)) && Taken(full.list) == old(Taken(full.list))
    {
      batch.container := [];
      assert full.Valid() && empty.Valid();
      var _ := TryPushEmpty(batch);
    }

    /** The body and the next evaluation of the condition. */
    method RecycleThenPop(batch: Batch<T>) returns (ok: bool, next: Batch?<T>)
      requires Valid() && IsHeld(batch)
      modifies this`elements, full, empty, batch`container, batch`next
      ensures Valid() && empty.list == [batch] + old(empty.list)
      ensures ok ==> old(full.list) != [] && next == old(full.list)[0] && IsHeld(next)
      ensures full.list == if ok then old(full.list)[1..] else old(full.list)
      ensures old(Taken(full.list)) == (if ok then 1 else 0) + Taken(full.list)
      ensures !ok ==> elements == 0 && Taken(full.list) == 0
    {
      Recycle(batch);
      ok, next := PopNext();
    }

    /** The loop of reset has recycled `i` batches of `start`, is to recycle `taken`, and holds the next one if `ok`. */
    ghost predicate Resetting(start: seq<Batch<T>>, tail: seq<Batch<T>>, taken: nat, i: nat, ok: bool, batch: Batch?<T>)
      reads this, batches, full, empty, full.list, empty.list
    {
      && Valid() && Moved(start, tail, i, ok, full.list, empty.list)
      && (if ok then batch == start[i] && IsHeld(start[i]) else elements == 0 && Taken(full.list) == 0)
      && taken == i + (if ok then 1 else 0) + Taken(full.list)
    }

    /** One round of the loop. */
    method TakeOne(batch: Batch<T>, ghost start: seq<Batch<T>>, ghost tail: seq<Batch<T>>, ghost taken: nat,
        ghost i: nat) returns (ok: bool, next: Batch?<T>)
      requires Resetting(start, tail, taken, i, true, batch)
      modifies this`elements, full, empty, batch`container, batch`next
      ensures Resetting(start, tail, taken, i + 1, ok, next)
    {
      ghost var restFull, restEmpty := full.list, empty.list;
      ok, next := RecycleThenPop(batch);
      MovedOne(start, tail, i, ok, restFull, restEmpty, full.list, empty.list);
    }

    /** The loop of reset. */
    method TakeAll() returns (ghost i: nat)
      requires Valid()
      modifies this`elements, full, empty, batches`container, batches`next
      ensures Valid() && elements == 0
      ensures i == old(Taken(full.list)) && full.list == old(full.list)[i..]
      ensures empty.list == Reversed(old(full.list)[..i]) + old(empty.list)
    {
      ghost var start, tail, taken := full.list, empty.list, Taken(full.list);
      i := 0;
      var ok, batch := PopNext();
      while ok
        invariant i <= |start| && Resetting(start, tail, taken, i, ok, batch)
        decreases |start| - i
      {
        assert batch == batches[batch.index];
        ok, batch := TakeOne(batch, start, tail, taken, i);
        i := i + 1;
      }
    }

    /** assert_no_leaks: false stands for the throw, which reports exactly that a caller still holds a batch. */
    method AssertNoLeaks() returns (ok: bool)
      requires Valid()
      ensures ok <==> forall b <- batches :: !IsHeld(b)
    {
      ghost var inFull := IndexSet(full.head, full.list, batches);
      ghost var inEmpty := IndexSet(empty.head, empty.list, batches);
      assert inFull !! inEmpty;
      assert |inFull + inEmpty| == full.size + empty.size;
      Fills(inFull + inEmpty, |batches|);
      assert forall i :: 0 <= i < |batches| ==>
        (i in inFull <==> batches[i] in full.list) && (i in inEmpty <==> batches[i] in empty.list);
      assert forall i :: 0 <= i < |batches| ==> (IsHeld(batches[i]) <==> i !in inFull + inEmpty);
      ok := empty.size + full.size == |batches|;
    }

    /** How often assert_no_duplicates has counted batch `i`, once it has left `rest` of a list. */
    ghost function Seen(i: nat, list: seq<Batch<T>>, rest: seq<Batch<T>>): nat
      requires i < |batches|
    {
      if batches[i] in list && batches[i] !in rest then 1 else 0
    }

    lemma SeenOneMore(i: nat, list: seq<Batch<T>>, head: Batch?<T>, rest: seq<Batch<T>>)
      requires i < |batches| && Linked(head, rest) && rest != [] && head in list
      ensures Seen(i, list, rest[1..]) == Seen(i, list, rest) + if batches[i] == head then 1 else 0
    {
      assert rest == [rest[0]] + rest[1..];
    }

    /** assert_no_duplicates: false stands for the throw. */
    method AssertNoDuplicates() returns (ok: bool)
      requires Valid()
      ensures ok
    {
      var histogram := new nat[|batches|](_ => 0);
      CountFull(histogram);
      ok := CountEmpty(histogram);
    }

    method CountFull(histogram: array<nat>)
      requires Valid()
      requires histogram.Length == |batches| && forall i :: 0 <= i < |batches| ==> histogram[i] == 0
      modifies histogram
      ensures forall i :: 0 <= i < |batches| ==> histogram[i] == Seen(i, full.list, [])
    {
      var current := full.head;
      ghost var rest := full.list;
      while current != null
        invariant Linked(current, rest) && forall b <- rest :: b in full.list
        invariant forall i :: 0 <= i < |batches| ==> histogram[i] == Seen(i, full.list, rest)
        decreases |rest|
      {
        assert Pooled(current);
        forall i | 0 <= i < |batches|
          ensures Seen(i, full.list, rest[1..]) == Seen(i, full.list, rest) + if i == current.index then 1 else 0
        {
          SeenOneMore(i, full.list, current, rest);
        }
        histogram[current.index] := histogram[current.index] + 1;
        current, rest := current.next, rest[1..];
      }
    }

    method CountEmpty(histogram: array<nat>) returns (ok: bool)
      requires Valid()
      requires histogram.Length == |batches|
      requires forall i :: 0 <= i < |batches| ==> histogram[i] == Seen(i, full.list, [])
      modifies histogram
      ensures ok
    {
      var current := empty.head;
      ghost var rest := empty.list;
      while current != null
        invariant Linked(current, rest) && forall b <- rest :: b in empty.list
        invariant forall i :: 0 <= i < |batches| ==>
          histogram[i] == Seen(i, full.list, []) + Seen(i, empty.list, rest)
        decreases |rest|
      {
        assert Pooled(current);
        forall i | 0 <= i < |batches|
          ensures Seen(i, empty.list, rest[1..]) == Seen(i, empty.list, rest) + if i == current.index then 1 else 0
        {
          SeenOneMore(i, empty.list, current, rest);
        }
        histogram[current.index] := histogram[current.index] + 1;
        if histogram[current.index] > 1 {
          return false;
        }
        current, rest := current.next, rest[1..];
      }
      return true;
    }
  }
}
