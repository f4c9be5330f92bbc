/**
 The ring under concurrency.  One producer and one consumer thread run the operations of the
 ring with every cursor load, every element copy and every cursor store as a separate step,
 interleaved in any order (sequential consistency).  Every run refines a FIFO queue.
 */
module RingProtocol {
  import opened Arithmetic
  import opened SpscRing

  datatype Producer<T> =
    | WriteIdle
    // the producer has loaded its own cursor
    | WriteLoaded(source: seq<T>, exact: bool, write: nat)
    // it has loaded the consumer's cursor, decided on `count`, and copied `done` elements
    | WriteCopying(source: seq<T>, exact: bool, write: nat, count: nat, done: nat)

  datatype Consumer<T> =
    | ReadIdle
    | ReadLoaded(size: nat, exact: bool, read: nat)
    | ReadCopying(size: nat, exact: bool, read: nat, count: nat, got: seq<T>)

  /** The shared ring, both threads, and all that was ever published and taken. */
  datatype State<T> = State(
    storage: seq<T>, readCursor: nat, writeCursor: nat,
    producer: Producer<T>, consumer: Consumer<T>,
    published: seq<T>, taken: seq<T>)
  {
    function Capacity(): nat {
      |storage|
    }
  }

  // ---------------------------------------------------------------- the invariant

  ghost predicate IsUnread<T(!new)>(s: State<T>)
    requires s.Capacity() > 0 && |s.published| == s.writeCursor
  {
    forall p | s.readCursor <= p < s.writeCursor ::
      s.storage[Slot(p, s.Capacity())] == s.published[p]
  }

  ghost predicate ProducerOk<T(!new)>(s: State<T>)
    requires s.Capacity() > 0
  {
    match s.producer
    case WriteIdle => true
    case WriteLoaded(_, _, write) => write == s.writeCursor
    case WriteCopying(source, exact, write, count, done) =>
      && write == s.writeCursor
      && done <= count <= |source|
      && (exact ==> count == |source|)
      && write + count <= s.readCursor + s.Capacity()
      && forall p | write <= p < write + done :: s.storage[Slot(p, s.Capacity())] == source[p - write]
  }

  ghost predicate ConsumerOk<T(!new)>(s: State<T>)
    requires |s.published| == s.writeCursor
  {
    match s.consumer
    case ReadIdle => true
    case ReadLoaded(_, _, read) => read == s.readCursor
    case ReadCopying(size, exact, read, count, got) =>
      && read == s.readCursor
      && |got| <= count <= size
      && (exact ==> count == size)
      && read + count <= s.writeCursor
      && got == s.published[read..read + |got|]
  }

  ghost predicate Invariant<T(!new)>(s: State<T>) {
    && s.Capacity() > 0
    && s.readCursor <= s.writeCursor <= s.readCursor + s.Capacity()
    && |s.published| == s.writeCursor && s.taken == s.published[..s.readCursor]
    && IsUnread(s)
    && ProducerOk(s)
    && ConsumerOk(s)
  }

  // ---------------------------------------------------------------- the steps

  ghost predicate Init<T>(s: State<T>) {
    && s.Capacity() > 0 && s.readCursor == s.writeCursor == 0
    && s.producer == WriteIdle && s.consumer == ReadIdle
    && s.published == [] && s.taken == []
  }

  /** write() or write_exact() is called; the producer loads its own cursor. */
  ghost predicate StartWrite<T(!new)>(s: State<T>, s': State<T>) {
    && s.producer.WriteIdle?
    && exists source: seq<T>, exact: bool ::
         s' == s.(producer := WriteLoaded(source, exact, s.writeCursor))
  }

  /** The producer loads the consumer's cursor; an exact write that does not fit gives up. */
  ghost predicate CheckRoom<T(!new)>(s: State<T>, s': State<T>) {
    && s.producer.WriteLoaded?
    && var source := s.producer.source;
       var room := s.Capacity() - (s.producer.write - s.readCursor);
       if s.producer.exact && room < |source| then s' == s.(producer := WriteIdle)
       else room >= 0 && s' == s.(producer :=
         WriteCopying(source, s.producer.exact, s.producer.write, Min(|source|, room), 0))
  }

  /** One element of the two block copies into the storage. */
  ghost predicate CopyIn<T(!new)>(s: State<T>, s': State<T>)
    requires Invariant(s)
  {
    && s.producer.WriteCopying? && s.producer.done < s.producer.count
    && var slot := CopySlot(s.producer.write, s.producer.count, s.Capacity(), s.producer.done);
       s' == s.(storage := s.storage[slot := s.producer.source[s.producer.done]],
                producer := s.producer.(done := s.producer.done + 1))
  }

  /** The producer publishes the block by storing its cursor. */
  ghost predicate PublishWrite<T(!new)>(s: State<T>, s': State<T>)
    requires Invariant(s)
  {
    && s.producer.WriteCopying? && s.producer.done == s.producer.count
    && s' == s.(writeCursor := s.producer.write + s.producer.count, producer := WriteIdle,
                published := s.published + s.producer.source[..s.producer.count])
  }

  ghost predicate StartRead<T(!new)>(s: State<T>, s': State<T>) {
    && s.consumer.ReadIdle?
    && exists size: nat, exact: bool ::
         s' == s.(consumer := ReadLoaded(size, exact, s.readCursor))
  }

  ghost predicate CheckData<T(!new)>(s: State<T>, s': State<T>) {
    && s.consumer.ReadLoaded?
    && var size, available := s.consumer.size, s.writeCursor - s.consumer.read;
       if s.consumer.exact && available < size then s' == s.(consumer := ReadIdle)
       else available >= 0 && s' == s.(consumer :=
         ReadCopying(size, s.consumer.exact, s.consumer.read, Min(size, available), []))
  }

  ghost predicate CopyOut<T(!new)>(s: State<T>, s': State<T>)
    requires Invariant(s)
  {
    && s.consumer.ReadCopying? && |s.consumer.got| < s.consumer.count
    && var slot := CopySlot(s.consumer.read, s.consumer.count, s.Capacity(), |s.consumer.got|);
       s' == s.(consumer := s.consumer.(got := s.consumer.got + [s.storage[slot]]))
  }

  ghost predicate PublishRead<T(!new)>(s: State<T>, s': State<T>)
    requires Invariant(s)
  {
    && s.consumer.ReadCopying? && |s.consumer.got| == s.consumer.count
    && s' == s.(readCursor := s.consumer.read + s.consumer.count, consumer := ReadIdle,
                taken := s.taken + s.consumer.got)
  }

  ghost predicate Step<T(!new)>(s: State<T>, s': State<T>)
    requires Invariant(s)
  {
    || StartWrite(s, s') || CheckRoom(s, s') || CopyIn(s, s') || PublishWrite(s, s')
    || StartRead(s, s') || CheckData(s, s') || CopyOut(s, s') || PublishRead(s, s')
  }

  // ---------------------------------------------------------------- every step keeps it

  /** The slot the producer is about to overwrite is neither unread nor already part of the block. */
  lemma NoUnreadSlotIsOverwritten<T(!new)>(s: State<T>, s': State<T>, p: nat)
    requires Invariant(s) && CopyIn(s, s')
    requires s.readCursor <= p < s.writeCursor + s.producer.done
    ensures Slot(p, s.Capacity())
         != CopySlot(s.producer.write, s.producer.count, s.Capacity(), s.producer.done)
    ensures s'.storage[Slot(p, s.Capacity())] == s.storage[Slot(p, s.Capacity())]
  {
    CopySlotIsModular(s.producer.write, s.producer.count, s.Capacity(), s.producer.done);
    SlotsDiffer(p, s.producer.write + s.producer.done, s.Capacity());
  }

  lemma CopyInKeepsInvariant<T(!new)>(s: State<T>, s': State<T>)
    requires Invariant(s) && CopyIn(s, s')
    ensures Invariant(s')
  {
    hide Slot;
    var w := s.producer;
    CopySlotIsModular(w.write, w.count, s.Capacity(), w.done);
    forall p: nat | s.readCursor <= p < w.write + w.done
      ensures s'.storage[Slot(p, s.Capacity())] == s.storage[Slot(p, s.Capacity())]
    {
      NoUnreadSlotIsOverwritten(s, s', p);
    }
    assert IsUnread(s') && ProducerOk(s');
  }

  lemma CopyOutKeepsInvariant<T(!new)>(s: State<T>, s': State<T>)
    requires Invariant(s) && CopyOut(s, s')
    ensures Invariant(s')
  {
    hide Slot, CopySlot;
    var r := s.consumer;
    CopySlotIsModular(r.read, r.count, s.Capacity(), |r.got|);
    assert s.storage[Slot(r.read + |r.got|, s.Capacity())] == s.published[r.read + |r.got|];
  }

  lemma PublishWriteKeepsInvariant<T(!new)>(s: State<T>, s': State<T>)
    requires Invariant(s) && PublishWrite(s, s')
    ensures Invariant(s')
  {
    var w := s.producer;
    forall p | s'.readCursor <= p < s'.writeCursor
      ensures s'.storage[Slot(p, s.Capacity())] == s'.published[p]
    {
      if p >= s.writeCursor {
        assert s'.published[p] == w.source[p - w.write];
      }
    }
  }

  lemma PublishReadKeepsInvariant<T(!new)>(s: State<T>, s': State<T>)
    requires Invariant(s) && PublishRead(s, s')
    ensures Invariant(s')
  {
    hide Slot;
  }

  lemma StartingKeepsInvariant<T(!new)>(s: State<T>, s': State<T>)
    requires Invariant(s) && (StartWrite(s, s') || StartRead(s, s'))
    ensures Invariant(s')
  {
    hide Slot;
  }

  lemma CheckingKeepsInvariant<T(!new)>(s: State<T>, s': State<T>)
    requires Invariant(s) && (CheckRoom(s, s') || CheckData(s, s'))
    ensures Invariant(s')
  {
    hide Slot;
  }

  lemma StepKeepsInvariant<T(!new)>(s: State<T>, s': State<T>)
    requires Invariant(s) && Step(s, s')
    ensures Invariant(s')
  {
    hide Invariant, StartWrite, StartRead, CheckRoom, CheckData, CopyIn, CopyOut, PublishWrite, PublishRead;
    if CopyIn(s, s') {
      CopyInKeepsInvariant(s, s');
    } else if CopyOut(s, s') {
      CopyOutKeepsInvariant(s, s');
    } else if PublishWrite(s, s') {
      PublishWriteKeepsInvariant(s, s');
    } else if PublishRead(s, s') {
      PublishReadKeepsInvariant(s, s');
    } else if StartWrite(s, s') || StartRead(s, s') {
      StartingKeepsInvariant(s, s');
    } else {
      CheckingKeepsInvariant(s, s');
    }
  }

  // ---------------------------------------------------------------- runs

  /** A finite prefix of a run: any interleaving of the two threads from an empty ring. */
  ghost predicate IsRun<T(!new)>(run: seq<State<T>>) {
    && run != [] && Init(run[0])
    && forall i: nat | i + 1 < |run| :: Invariant(run[i]) ==> Step(run[i], run[i + 1])
  }

  lemma {:induction false} RunKeepsInvariant<T(!new)>(run: seq<State<T>>, i: nat)
    requires IsRun(run) && i < |run|
    ensures Invariant(run[i])
  {
    if i > 0 {
      RunKeepsInvariant(run, i - 1);
      assert Step(run[i - 1], run[i - 1 + 1]);
      StepKeepsInvariant(run[i - 1], run[i]);
    }
  }

  /** In every run the values taken are a prefix of the values published, at most a ring behind. */
  lemma TakenIsPrefixOfPublished<T(!new)>(run: seq<State<T>>, i: nat)
    requires IsRun(run) && i < |run|
    ensures run[i].taken <= run[i].published
    ensures |run[i].published| - |run[i].taken| <= run[i].Capacity()
  {
    RunKeepsInvariant(run, i);
  }

  // ---------------------------------------------------------------- refinement of a queue

  /** The queue a state stands for: published and not yet taken. */
  ghost function Queue<T(!new)>(s: State<T>): seq<T>
    requires Invariant(s)
  {
    s.published[s.readCursor..]
  }

  /** A whole block is appended, exactly the first `count` elements of the caller's source. */
  ghost predicate Enqueues<T(!new)>(s: State<T>, s': State<T>)
    requires Invariant(s) && Invariant(s')
  {
    && s.producer.WriteCopying?
    && Queue(s') == Queue(s) + s.producer.source[..s.producer.count]
    && s'.taken == s.taken
    && (s.producer.exact ==> s.producer.count == |s.producer.source|)
  }

  /** A whole block is removed from the front, exactly what the caller's buffer now holds. */
  ghost predicate Dequeues<T(!new)>(s: State<T>, s': State<T>)
    requires Invariant(s) && Invariant(s')
  {
    && s.consumer.ReadCopying?
    && Queue(s) == s.consumer.got + Queue(s')
    && s'.taken == s.taken + s.consumer.got
    && |s.consumer.got| == s.consumer.count
    && (s.consumer.exact ==> s.consumer.count == s.consumer.size)
  }

  lemma PublishWriteEnqueues<T(!new)>(s: State<T>, s': State<T>)
    requires Invariant(s) && PublishWrite(s, s') && Invariant(s')
    ensures Enqueues(s, s')
  {
    hide IsUnread;
    var block := s.producer.source[..s.producer.count];
    assert (s.published + block)[s.readCursor..] == s.published[s.readCursor..] + block;
  }

  lemma PublishReadDequeues<T(!new)>(s: State<T>, s': State<T>)
    requires Invariant(s) && PublishRead(s, s') && Invariant(s')
    ensures Dequeues(s, s')
  {
    hide IsUnread;
    var from, to := s.readCursor, s'.readCursor;
    assert s.published[from..] == s.published[from..to] + s.published[to..];
  }

  /** Every step is an atomic enqueue, an atomic dequeue or invisible. */
  lemma StepRefinesQueue<T(!new)>(s: State<T>, s': State<T>)
    requires Invariant(s) && Step(s, s') && Invariant(s')
    ensures if PublishWrite(s, s') then Enqueues(s, s')
            else if PublishRead(s, s') then Dequeues(s, s')
            else Queue(s') == Queue(s) && s'.taken == s.taken && s'.published == s.published
  {
    hide IsUnread, ProducerOk, ConsumerOk, Slot, CopySlot, PublishWrite, PublishRead, Enqueues, Dequeues;
    if PublishWrite(s, s') {
      PublishWriteEnqueues(s, s');
    } else if PublishRead(s, s') {
      PublishReadDequeues(s, s');
    }
  }

  /** What the consumer measured as available can only grow until it publishes a read. */
  lemma MeasuredDataStays<T(!new)>(s: State<T>, s': State<T>)
    requires Invariant(s) && Step(s, s') && !PublishRead(s, s')
    ensures s.readCursor == s'.readCursor && s.writeCursor <= s'.writeCursor
    ensures Invariant(s') && Queue(s) <= Queue(s')
  {
    StepKeepsInvariant(s, s');
  }

  /** The slots that are free to be written. */
  function Room<T>(s: State<T>): int {
    s.Capacity() - (s.writeCursor - s.readCursor)
  }

  /** What the producer measured as free can only grow until it publishes a write, and its block fits. */
  lemma MeasuredRoomStays<T(!new)>(s: State<T>, s': State<T>)
    requires Invariant(s) && Step(s, s') && !PublishWrite(s, s')
    ensures Invariant(s') && s.writeCursor == s'.writeCursor && 0 <= Room(s) <= Room(s')
    ensures s'.producer.WriteCopying? ==> s'.producer.count <= Room(s')
  {
    StepKeepsInvariant(s, s');
  }
}
