/**
 The ring of blocks in src/queue.c: first as a value, with one function for each
 section that the source runs under the queue's lock, then as the heap object that
 the source builds, whose methods compute those functions in place.
 */
module RingQueue {
  import opened Bytes

  datatype Policy = Wait | Drop

  /** The slot after `i`, as the commits compute it. */
  function Next(i: nat, n: nat): (r: nat)
    requires i < n
    ensures r == if i + 1 == n then 0 else i + 1
  {
    (i + 1) % n
  }

  /** The slot `k` places after `head`. */
  function At(head: nat, k: nat, n: nat): (r: nat)
    requires head < n && k <= n
    ensures r < n
  {
    if head + k < n then head + k else head + k - n
  }

  /** A slot holds the bytes `blocks[i].data[..blocks[i].length]`. */
  datatype Ring = Ring(slots: seq<Text>, head: nat, tail: nat, length: nat, active: bool) {

    ghost predicate WellFormed() {
      && head < |slots|
      && length <= |slots|
      && tail == At(head, length, |slots|)
    }

    /** The committed blocks that have not been popped, oldest first. */
    ghost function Window(): (w: seq<Text>)
      requires head < |slots| && length <= |slots|
      ensures |w| == length
      ensures forall i :: 0 <= i < length ==> w[i] == slots[At(head, i, |slots|)]
    {
      seq(length, i requires 0 <= i < length => slots[At(head, i, |slots|)])
    }

    function PushCommitted(): Ring
      requires tail < |slots|
    {
      this.(tail := Next(tail, |slots|), length := length + 1)
    }

    function PopCommitted(): Ring
      requires head < |slots| && length > 0
    {
      this.(head := Next(head, |slots|), length := length - 1)
    }

    function Filled(slot: nat, data: Text): Ring
      requires slot < |slots|
    {
      this.(slots := slots[slot := data])
    }

    function Finalized(): Ring {
      this.(active := false)
    }
  }

  /** What a `*_uncommitted` call decides at one of its checks. */
  datatype Verdict = MustWait | ShuttingDown | ShouldDrop | Reserved(slot: nat)

  /** What the unlocked load of `length` at the start of a push or a pop decides. */
  function FastPush(r: Ring): Verdict {
    if r.length < |r.slots| then Reserved(r.tail) else MustWait
  }

  function FastPop(r: Ring): Verdict {
    if r.length > 0 then Reserved(r.head) else MustWait
  }

  function PushVerdict(r: Ring, policy: Policy): Verdict {
    if policy == Wait && r.active && r.length >= |r.slots| then MustWait
    else if !r.active then ShuttingDown
    else if policy == Drop && r.length >= |r.slots| then ShouldDrop
    else Reserved(r.tail)
  }

  function PopVerdict(r: Ring): Verdict {
    if r.length == 0 && r.active then MustWait
    else if r.length == 0 && !r.active then ShuttingDown
    else Reserved(r.head)
  }

  /** What the checks decide: a push as long as there is room, a pop as long as there is a block. */
  lemma VerdictsExactly(r: Ring, policy: Policy)
    requires r.WellFormed()
    ensures var full, push := r.length == |r.slots|, PushVerdict(r, policy);
      && (FastPush(r) == Reserved(r.tail) <==> !full) && (FastPush(r) == MustWait <==> full)
      && (push == ShuttingDown <==> !r.active)
      && (push == MustWait <==> r.active && full && policy == Wait)
      && (push == ShouldDrop <==> r.active && full && policy == Drop)
      && (push == Reserved(r.tail) <==> r.active && !full)
    ensures var empty, pop := r.length == 0, PopVerdict(r);
      && (FastPop(r) == Reserved(r.head) <==> !empty) && (FastPop(r) == MustWait <==> empty)
      && (pop == MustWait <==> r.active && empty)
      && (pop == ShuttingDown <==> !r.active && empty)
      && (pop == Reserved(r.head) <==> !empty)
  {
  }

  // ---------------------------------------------------------------- what each section does to the FIFO

  /** The index relation of the ring, in the source's own arithmetic. */
  lemma TailFollowsWindow(r: Ring)
    requires r.WellFormed()
    ensures r.tail == (r.head + r.length) % |r.slots|
  {
    var n, x := |r.slots|, r.head + r.length;
    if x < n {
      assert x / n == 0;
    } else {
      assert x == n + (x - n);
      assert x / n == 1;
    }
  }

  /** Committing a push appends the producer's slot to the window. */
  lemma PushAppends(r: Ring)
    requires r.WellFormed() && r.length < |r.slots|
    ensures r.PushCommitted().WellFormed()
    ensures r.PushCommitted().Window() == r.Window() + [r.slots[r.tail]]
  {
  }

  /** Committing a pop removes exactly the oldest block. */
  lemma PopRemovesOldest(r: Ring)
    requires r.WellFormed() && r.length > 0
    ensures r.PopCommitted().WellFormed()
    ensures r.Window() == [r.slots[r.head]] + r.PopCommitted().Window()
  {
    var p, w := r.PopCommitted(), r.Window();
    forall i | 0 <= i < p.length
      ensures p.Window()[i] == w[i + 1]
    {
      assert At(p.head, i, |r.slots|) == At(r.head, i + 1, |r.slots|);
    }
  }

  /** While the ring is not full, writing the tail slot leaves the window alone. */
  lemma FillKeepsWindow(r: Ring, data: Text)
    requires r.WellFormed() && r.length < |r.slots|
    ensures r.Filled(r.tail, data).WellFormed()
    ensures r.Filled(r.tail, data).Window() == r.Window()
  {
    assert forall i :: 0 <= i < r.length ==> At(r.head, i, |r.slots|) != r.tail;
  }

  // ---------------------------------------------------------------- the heap object

  lemma SlotsDoNotOverlap(i: nat, j: nat, size: nat)
    requires i < j
    ensures i * size + size <= j * size
  {
    assert j * size == (i + 1) * size + (j - (i + 1)) * size;
  }

  /** Every block has `size` bytes of the area to itself. */
  ghost predicate Disjoint(data: seq<nat>, size: nat, areaSize: nat) {
    && (forall i :: 0 <= i < |data| ==> data[i] + size <= areaSize)
    && (forall i, j :: 0 <= i < j < |data| ==> data[i] + size <= data[j])
  }

  /** Block `i` of the area holds the bytes of `slots[i]`. */
  ghost predicate Stores(slots: seq<Text>, data: seq<nat>, lengths: seq<nat>, area: Text, size: nat, i: nat)
    requires i < |slots| == |data| == |lengths|
  {
    && lengths[i] <= size && data[i] + lengths[i] <= |area|
    && slots[i] == area[data[i]..data[i] + lengths[i]]
  }

  ghost predicate Layout(slots: seq<Text>, data: seq<nat>, lengths: seq<nat>, area: Text, size: nat) {
    && |slots| == |data| == |lengths|
    && Disjoint(data, size, |area|)
    && forall i :: 0 <= i < |slots| ==> Stores(slots, data, lengths, area, size, i)
  }

  /** A write inside one block extends that block and leaves every other block alone. */
  lemma LayoutExtended(slots: seq<Text>, data: seq<nat>, lengths: seq<nat>, area: Text, size: nat,
                       slot: nat, bytes: Text)
    requires Layout(slots, data, lengths, area, size)
    requires slot < |slots| && lengths[slot] + |bytes| <= size
    ensures data[slot] + lengths[slot] + |bytes| <= |area|
    ensures Layout(slots[slot := slots[slot] + bytes], data, lengths[slot := lengths[slot] + |bytes|],
                   Splice(area, data[slot] + lengths[slot], bytes), size)
  {
    var start := data[slot] + lengths[slot];
    var slots', lengths' := slots[slot := slots[slot] + bytes], lengths[slot := lengths[slot] + |bytes|];
    var area' := Splice(area, start, bytes);
    forall i | 0 <= i < |slots|
      ensures Stores(slots', data, lengths', area', size, i)
    {
      assert Stores(slots, data, lengths, area, size, i);
      if i == slot {
        SpliceExtends(area, start, bytes, data[slot]);
      } else {
        SpliceElsewhere(area, start, bytes, data[i], lengths[i]);
      }
    }
  }

  lemma LayoutCleared(slots: seq<Text>, data: seq<nat>, lengths: seq<nat>, area: Text, size: nat, slot: nat)
    requires Layout(slots, data, lengths, area, size) && slot < |slots|
    ensures Layout(slots[slot := []], data, lengths[slot := 0], area, size)
  {
    var slots', lengths' := slots[slot := []], lengths[slot := 0];
    forall i | 0 <= i < |slots|
      ensures Stores(slots', data, lengths', area, size, i)
    {
      assert Stores(slots, data, lengths, area, size, i);
    }
  }

  /** `jp_queue_t`: block `i` owns the bytes of `area` from `data[i]`; `slots` is its abstract value. */
  class Queue {
    const capacity: nat
    const chunkSize: nat
    const policy: Policy
    var head: nat
    var tail: nat
    var length: nat
    var active: bool
    const data: array<nat>
    const lengths: array<nat>
    const area: array<byte>
    ghost var slots: seq<Text>

    ghost predicate Valid()
      reads this, data, lengths, area
    {
      && data != lengths
      && |slots| == capacity
      && Layout(slots, data[..], lengths[..], area[..], chunkSize)
      && Value().WellFormed()
    }

    ghost function Value(): Ring
      reads this
    {
      Ring(slots, head, tail, length, active)
    }

    constructor (capacity: nat, chunkSize: nat, policy: Policy)
      requires capacity > 0
      ensures Valid() && fresh(data) && fresh(lengths) && fresh(area)
      ensures this.capacity == capacity && this.chunkSize == chunkSize && this.policy == policy
      ensures Value() == Ring(seq(capacity, _ => []), 0, 0, 0, true)
    {
      this.capacity := capacity;
      this.chunkSize := chunkSize;
      this.policy := policy;
      head, tail, length, active := 0, 0, 0, true;
      data := new nat[capacity];
      lengths := new nat[capacity];
      area := new byte[capacity * chunkSize];
      slots := seq(capacity, _ => []);
      new;
      for i := 0 to capacity
        modifies data, lengths
        invariant forall k :: 0 <= k < i ==> lengths[k] == 0
        invariant forall k :: 0 <= k < i ==> data[k] == k * chunkSize
      {
        data[i] := i * chunkSize;
        lengths[i] := 0;
      }
      forall i | 0 <= i < capacity
        ensures data[i] + chunkSize <= area.Length
        ensures forall j :: i < j < capacity ==> data[i] + chunkSize <= data[j]
      {
        SlotsDoNotOverlap(i, capacity, chunkSize);
        forall j | i < j < capacity
          ensures data[i] + chunkSize <= data[j]
        {
          SlotsDoNotOverlap(i, j, chunkSize);
        }
      }
    }

    method PushFast() returns (v: Verdict)
      requires Valid()
      ensures v == FastPush(Value())
    {
      if length < capacity {
        return Reserved(tail);
      }
      return MustWait;
    }

    method PopFast() returns (v: Verdict)
      requires Valid()
      ensures v == FastPop(Value())
    {
      if length > 0 {
        return Reserved(head);
      }
      return MustWait;
    }

    /** One pass of the locked section of a push. */
    method PushSlow() returns (v: Verdict)
      requires Valid()
      ensures v == PushVerdict(Value(), policy)
    {
      if policy == Wait && active && length >= capacity {
        return MustWait;
      }
      if !active {
        return ShuttingDown;
      }
      if policy == Drop && length >= capacity {
        return ShouldDrop;
      }
      return Reserved(tail);
    }

    /** One pass of the locked section of a pop. */
    method PopSlow() returns (v: Verdict)
      requires Valid()
      ensures v == PopVerdict(Value())
    {
      if length == 0 && active {
        return MustWait;
      }
      if length == 0 && !active {
        return ShuttingDown;
      }
      return Reserved(head);
    }

    /** The reader's `block->length = 0`. */
    method Clear(slot: nat)
      requires Valid() && slot < capacity
      modifies this`slots, lengths
      ensures Valid() && Value() == old(Value()).Filled(slot, [])
    {
      LayoutCleared(slots, data[..], lengths[..], area[..], chunkSize, slot);
      lengths[slot] := 0;
      slots := slots[slot := []];
      assert lengths[..] == old(lengths[..])[slot := 0];
    }

    /** A `read` into `block->data + block->length`, which then grows by what was read. */
    method Extend(slot: nat, bytes: Text)
      requires Valid() && slot < capacity
      requires lengths[slot] + |bytes| <= chunkSize
      modifies this`slots, lengths, area
      ensures Valid() && Value() == old(Value()).Filled(slot, old(slots[slot]) + bytes)
    {
      LayoutExtended(slots, data[..], lengths[..], area[..], chunkSize, slot, bytes);
      CopyInto(area, data[slot] + lengths[slot], bytes);
      lengths[slot] := lengths[slot] + |bytes|;
      slots := slots[slot := slots[slot] + bytes];
      assert lengths[..] == old(lengths[..])[slot := lengths[slot]];
    }

    method PushCommit()
      requires Valid() && length < capacity
      modifies this`tail, this`length
      ensures Valid() && Value() == old(Value()).PushCommitted()
      ensures Value().Window() == old(Value().Window() + [slots[tail]])
    {
      PushAppends(Value());
      tail := Next(tail, capacity);
      length := length + 1;
    }

    method PopCommit()
      requires Valid() && length > 0
      modifies this`head, this`length
      ensures Valid() && Value() == old(Value()).PopCommitted()
      ensures Value().Window() == old(Value().Window()[1..])
    {
      PopRemovesOldest(Value());
      head := Next(head, capacity);
      length := length - 1;
    }

    method Finalize()
      requires Valid()
      modifies this`active
      ensures Valid() && Value() == old(Value()).Finalized()
    {
      if !active {
        return;
      }
      active := false;
    }
  }
}
