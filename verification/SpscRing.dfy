/**
 The bounded single-producer/single-consumer ring: a storage array and two cursors that only
 grow.  Its abstract value is the queue of the values written but not yet read.
 */
module SpscRing {
  import opened Arithmetic

  /**
   Where the value at a position of the unbounded stream is kept: the remainder by the capacity,
   see SlotIsRemainder.
   */
  function Slot(position: nat, capacity: nat): (slot: nat)
    requires 0 < capacity
    ensures slot < capacity
  {
    if position < capacity then position else Slot(position - capacity, capacity)
  }

  lemma {:induction false} SlotIsRemainder(position: nat, capacity: nat)
    requires 0 < capacity
    ensures Slot(position, capacity) == position % capacity
  {
    if position >= capacity {
      SlotIsRemainder(position - capacity, capacity);
      var q, r := (position - capacity) / capacity, (position - capacity) % capacity;
      MulDistributes(q, 1, capacity);
      DivModUnique(position, q + 1, r, capacity);
    }
  }

  lemma {:induction false} SlotAhead(cursor: nat, k: nat, capacity: nat)
    requires k < capacity
    ensures Slot(cursor + k, capacity) ==
      if Slot(cursor, capacity) + k < capacity then Slot(cursor, capacity) + k
      else Slot(cursor, capacity) + k - capacity
  {
    if cursor >= capacity {
      SlotAhead(cursor - capacity, k, capacity);
    }
  }

  /** Two positions less than one capacity apart never share a slot. */
  lemma SlotsDiffer(a: nat, b: nat, capacity: nat)
    requires a < b < a + capacity
    ensures Slot(a, capacity) != Slot(b, capacity)
  {
    SlotAhead(a, b - a, capacity);
  }

  /** The slot the two memcpy calls give to element k: at the end first, then from the start. */
  function CopySlot(cursor: nat, count: nat, capacity: nat, k: nat): nat
    requires 0 < capacity && k < count <= capacity
  {
    var start := Slot(cursor, capacity);
    var first := Min(count, capacity - start);
    if k < first then start + k else k - first
  }

  lemma CopySlotIsModular(cursor: nat, count: nat, capacity: nat, k: nat)
    requires k < count <= capacity
    ensures CopySlot(cursor, count, capacity, k) == Slot(cursor + k, capacity)
  {
    SlotAhead(cursor, k, capacity);
  }

  /** A position less than one capacity before the block's end is not in the block's slots. */
  lemma BlockAvoids(cursor: nat, count: nat, capacity: nat, p: nat)
    requires 0 < count <= capacity && p < cursor && cursor + count <= p + capacity
    ensures var start := Slot(cursor, capacity);
      var first := Min(count, capacity - start);
      var slot := Slot(p, capacity);
      !(start <= slot < start + first) && count - first <= slot
  {
    hide Slot;
    var start := Slot(cursor, capacity);
    var first := Min(count, capacity - start);
    var slot := Slot(p, capacity);
    var k := if slot < count - first then first + slot else slot - start;
    if 0 <= k < count {
      CopySlotIsModular(cursor, count, capacity, k);
      SlotsDiffer(p, cursor + k, capacity);
    }
  }

  /** One thread's view of the ring: the operations called one after the other. */
  class Ring<T(0)> {
    var storage: array<T>
    var readCursor: nat
    var writeCursor: nat

    ghost predicate Valid()
      reads this
    {
      storage.Length > 0 && readCursor <= writeCursor <= readCursor + storage.Length
    }

    function Capacity(): nat
      reads this
    {
      storage.Length
    }

    /** The values written and not yet read, oldest first. */
    ghost function Contents(): seq<T>
      requires Valid()
      reads this, storage
    {
      seq(writeCursor - readCursor, (k: nat) requires storage.Length > 0 reads this, storage =>
        storage[Slot(readCursor + k, storage.Length)])
    }

    constructor (capacity: nat)
      requires capacity > 0
      ensures Valid() && fresh(storage) && storage.Length == capacity && Contents() == []
    {
      storage := new T[capacity];
      readCursor, writeCursor := 0, 0;
    }

    method AvailableToRead() returns (available: nat)
      requires Valid()
      ensures available == |Contents()|
    {
      available := writeCursor - readCursor;
    }

    method AvailableToWrite() returns (available: nat)
      requires Valid()
      ensures available == Capacity() - |Contents()|
    {
      available := storage.Length - (writeCursor - readCursor);
    }

    /** Writes as many values as fit; the queue grows by exactly that prefix. */
    method Write(source: seq<T>) returns (count: nat)
      requires Valid()
      modifies this`writeCursor, storage
      ensures Valid()
      ensures count == Min(|source|, Capacity() - |old(Contents())|)
      ensures Contents() == old(Contents()) + source[..count]
    {
      var used := writeCursor - readCursor;
      count := Min(|source|, storage.Length - used);
      CopyIntoStorage(writeCursor, source[..count]);
      Publish(source[..count]);
    }

    /** Writes the whole block, or changes nothing when it does not fit. */
    method WriteExact(source: seq<T>) returns (ok: bool)
      requires Valid()
      modifies this`writeCursor, storage
      ensures Valid()
      ensures ok == (|source| <= Capacity() - |old(Contents())|)
      ensures Contents() == if ok then old(Contents()) + source else old(Contents())
    {
      if source == [] {
        return true;
      }
      if |source| > storage.Length {
        return false;
      }
      var used := writeCursor - readCursor;
      if storage.Length - used < |source| {
        return false;
      }
      CopyIntoStorage(writeCursor, source);
      Publish(source);
      ok := true;
    }

    /** Reads as many values as are available and fit into `destination`. */
    method Read(destination: array<T>) returns (count: nat)
      requires Valid() && destination != storage
      modifies this`readCursor, destination
      ensures Valid()
      ensures count == Min(destination.Length, |old(Contents())|)
      ensures destination[..count] == old(Contents())[..count]
      ensures destination[count..] == old(destination[count..])
      ensures Contents() == old(Contents())[count..]
    {
      count := Min(destination.Length, writeCursor - readCursor);
      CopyFromStorage(readCursor, destination, count);
      readCursor := readCursor + count;
    }

    /** Fills `destination`, or changes nothing when too little is available. */
    method ReadExact(destination: array<T>) returns (ok: bool)
      requires Valid() && destination != storage
      modifies this`readCursor, destination
      ensures Valid()
      ensures ok == (destination.Length <= |old(Contents())|)
      ensures ok ==> destination[..] == old(Contents())[..destination.Length]
      ensures ok ==> Contents() == old(Contents())[destination.Length..]
      ensures !ok ==> destination[..] == old(destination[..]) && Contents() == old(Contents())
    {
      if destination.Length == 0 {
        return true;
      }
      if destination.Length > storage.Length {
        return false;
      }
      if writeCursor - readCursor < destination.Length {
        return false;
      }
      CopyFromStorage(readCursor, destination, destination.Length);
      readCursor := readCursor + destination.Length;
      ok := true;
    }

    /** Two block copies: up to the end of the storage, then from its start. */
    method CopyIntoStorage(cursor: nat, source: seq<T>)
      requires storage.Length > 0 && |source| <= storage.Length
      modifies storage
      ensures forall p | cursor <= p < cursor + |source| ::
        storage[Slot(p, storage.Length)] == source[p - cursor]
      ensures forall p: nat | p < cursor && cursor + |source| <= p + storage.Length ::
        storage[Slot(p, storage.Length)] == old(storage[Slot(p, storage.Length)])
    {
      hide Slot;
      if source == [] {
        return;
      }
      var start := cursor % storage.Length;
      SlotIsRemainder(cursor, storage.Length);
      var first := Min(|source|, storage.Length - start);
      forall k | 0 <= k < first {
        storage[start + k] := source[k];
      }
      forall k | 0 <= k < |source| - first {
        storage[k] := source[first + k];
      }
      forall p | cursor <= p < cursor + |source|
        ensures storage[Slot(p, storage.Length)] == source[p - cursor]
      {
        CopySlotIsModular(cursor, |source|, storage.Length, p - cursor);
      }
      forall p: nat | p < cursor && cursor + |source| <= p + storage.Length
        ensures storage[Slot(p, storage.Length)] == old(storage[Slot(p, storage.Length)])
      {
        BlockAvoids(cursor, |source|, storage.Length, p);
      }
    }

    method CopyFromStorage(cursor: nat, destination: array<T>, count: nat)
      requires storage.Length > 0 && count <= storage.Length && count <= destination.Length
      requires destination != storage
      modifies destination
      ensures forall p | cursor <= p < cursor + count ::
        destination[p - cursor] == storage[Slot(p, storage.Length)]
      ensures destination[count..] == old(destination[count..])
    {
      if count == 0 {
        return;
      }
      var start := cursor % storage.Length;
      SlotIsRemainder(cursor, storage.Length);
      var first := Min(count, storage.Length - start);
      forall k | 0 <= k < first {
        destination[k] := storage[start + k];
      }
      forall k | first <= k < count {
        destination[k] := storage[k - first];
      }
      forall p | cursor <= p < cursor + count
        ensures destination[p - cursor] == storage[Slot(p, storage.Length)]
      {
        CopySlotIsModular(cursor, count, storage.Length, p - cursor);
      }
    }

    /** The cursor store: publishes a block that has been copied behind the write cursor. */
    method Publish(source: seq<T>)
      requires Valid() && |source| <= storage.Length - (writeCursor - readCursor)
      requires forall p | writeCursor <= p < writeCursor + |source| ::
        storage[Slot(p, storage.Length)] == source[p - writeCursor]
      modifies this`writeCursor
      ensures Valid() && Contents() == old(Contents()) + source
    {
      writeCursor := writeCursor + |source|;
    }
  }
}
