/** The bounded output queue of a TTY stream (src/daemon/server.zig,
    `TtyStreamHandle`): it drops its oldest data when full and says so. */
module TtyQueue {
  import opened Basics
  import opened Lines

  const CHUNK_LIMIT: nat := 16 * 1024
  const QUEUE_LIMIT: nat := 4 * 1024 * 1024

  datatype Queued = Data(bytes: seq<byte>) | Overflow

  function DataOf(queue: seq<Queued>): seq<seq<byte>> {
    if queue == [] then [] else (if queue[0].Data? then [queue[0].bytes] else []) + DataOf(queue[1..])
  }

  function Size(chunks: seq<seq<byte>>): nat {
    if chunks == [] then 0 else |chunks[0]| + Size(chunks[1..])
  }

  function Markers(queue: seq<Queued>): nat {
    if queue == [] then 0 else (if queue[0].Overflow? then 1 else 0) + Markers(queue[1..])
  }

  /** Without its oldest data; overflow markers stay. */
  function DropOldest(queue: seq<Queued>): seq<Queued> {
    if queue == [] then []
    else if queue[0].Data? then queue[1..]
    else [queue[0]] + DropOldest(queue[1..])
  }

  function MakeRoom(queue: seq<Queued>, extra: nat): seq<Queued>
    decreases |DataOf(queue)|
  {
    DropOldestExact(queue);
    if Size(DataOf(queue)) + extra > QUEUE_LIMIT && DataOf(queue) != [] then MakeRoom(DropOldest(queue), extra)
    else queue
  }

  lemma {:induction false} DropOldestExact(queue: seq<Queued>)
    ensures DataOf(queue) == [] ==> DropOldest(queue) == queue
    ensures DataOf(queue) != [] ==> DataOf(DropOldest(queue)) == DataOf(queue)[1..]
    ensures Markers(DropOldest(queue)) == Markers(queue)
  {
    if queue != [] && queue[0].Overflow? {
      DropOldestExact(queue[1..]);
      assert DropOldest(queue)[1..] == DropOldest(queue[1..]);
      assert DataOf(queue) == DataOf(queue[1..]);
    }
  }

  // The handle.

  datatype Handle = Handle(queue: seq<Queued>, closing: bool, readerDone: bool)

  /** Whether taking in this much means dropping something. */
  predicate Lossy(queue: seq<Queued>, extra: nat) {
    Size(DataOf(queue)) + extra > QUEUE_LIMIT && DataOf(queue) != []
  }

  function Enqueue(h: Handle, bytes: seq<byte>): Handle {
    if h.closing then h
    else
      h.(queue := MakeRoom(h.queue, |bytes|) + Marker(Lossy(h.queue, |bytes|)) + [Data(bytes)])
  }

  function EnqueueAll(h: Handle, parts: seq<seq<byte>>): Handle
    decreases |parts|
  {
    if parts == [] then h else EnqueueAll(Enqueue(h, parts[0]), parts[1..])
  }

  /** A read, cut into chunks of at most the limit. */
  function Parts(chunk: seq<byte>): (parts: seq<seq<byte>>)
    ensures forall part :: part in parts ==> 0 < |part| <= CHUNK_LIMIT
    ensures |parts| <= |chunk|
    decreases |chunk|
  {
    if chunk == [] then []
    else if |chunk| <= CHUNK_LIMIT then [chunk]
    else [chunk[..CHUNK_LIMIT]] + Parts(chunk[CHUNK_LIMIT..])
  }

  function Flat(parts: seq<seq<byte>>): seq<byte> {
    if parts == [] then [] else parts[0] + Flat(parts[1..])
  }

  /** Cutting loses nothing. */
  lemma {:induction false} PartsExact(chunk: seq<byte>)
    ensures Flat(Parts(chunk)) == chunk
    decreases |chunk|
  {
    if |chunk| > CHUNK_LIMIT {
      PartsExact(chunk[CHUNK_LIMIT..]);
      assert chunk[..CHUNK_LIMIT] + chunk[CHUNK_LIMIT..] == chunk;
    } else if chunk != [] {
      assert [chunk][1..] == [] && chunk + [] == chunk;
    }
  }

  lemma {:induction false} DataOfConcat(a: seq<Queued>, b: seq<Queued>)
    ensures DataOf(a + b) == DataOf(a) + DataOf(b)
  {
    if a == [] {
      assert a + b == b;
    } else {
      assert (a + b)[1..] == a[1..] + b;
      DataOfConcat(a[1..], b);
      Regroup(if a[0].Data? then [a[0].bytes] else [], DataOf(a[1..]), DataOf(b));
    }
  }

  lemma {:induction false} MarkersConcat(a: seq<Queued>, b: seq<Queued>)
    ensures Markers(a + b) == Markers(a) + Markers(b)
  {
    if a == [] {
      assert a + b == b;
    } else {
      assert (a + b)[1..] == a[1..] + b;
      MarkersConcat(a[1..], b);
    }
  }

  lemma {:induction false} SizeConcat(a: seq<seq<byte>>, b: seq<seq<byte>>)
    ensures Size(a + b) == Size(a) + Size(b)
  {
    if a == [] {
      assert a + b == b;
    } else {
      assert (a + b)[1..] == a[1..] + b;
      SizeConcat(a[1..], b);
    }
  }

  function Marker(lossy: bool): (q: seq<Queued>)
    ensures DataOf(q) == []
  {
    if lossy then [Overflow] else []
  }

  /** What appending a chunk, and its marker, adds. */
  lemma Appended(queue: seq<Queued>, lossy: bool, bytes: seq<byte>)
    ensures var after := queue + Marker(lossy) + [Data(bytes)];
            && DataOf(after) == DataOf(queue) + [bytes]
            && Size(DataOf(after)) == Size(DataOf(queue)) + |bytes|
            && Markers(after) == Markers(queue) + if lossy then 1 else 0
  {
    DataOfConcat(queue, Marker(lossy));
    DataOfConcat(queue + Marker(lossy), [Data(bytes)]);
    MarkersConcat(queue, Marker(lossy));
    MarkersConcat(queue + Marker(lossy), [Data(bytes)]);
    SizeConcat(DataOf(queue), [bytes]);
    assert DataOf(queue) + [] == DataOf(queue);
  }

  lemma HeadTaken(queue: seq<Queued>)
    requires queue != []
    ensures Size(DataOf(queue)) == Size(DataOf(queue[1..])) + if queue[0].Data? then |queue[0].bytes| else 0
  {
    SizeConcat(if queue[0].Data? then [queue[0].bytes] else [], DataOf(queue[1..]));
  }

  lemma {:induction false} OldestAt(queue: seq<Queued>, index: nat)
    requires index < |queue| && queue[index].Data? && forall i :: 0 <= i < index ==> queue[i].Overflow?
    ensures DropOldest(queue) == queue[..index] + queue[index + 1..]
    ensures DataOf(queue) != [] && DataOf(queue)[0] == queue[index].bytes
  {
    if index > 0 {
      OldestAt(queue[1..], index - 1);
      assert queue[..index] == [queue[0]] + queue[1..][..index - 1];
    }
  }

  lemma {:induction false} OnlyMarkers(queue: seq<Queued>)
    requires forall i :: 0 <= i < |queue| ==> queue[i].Overflow?
    ensures DataOf(queue) == []
  {
    if queue != [] { OnlyMarkers(queue[1..]); }
  }

  lemma OldestSize(queue: seq<Queued>)
    requires DataOf(queue) != []
    ensures Size(DataOf(queue)) == |DataOf(queue)[0]| + Size(DataOf(DropOldest(queue)))
  {
    DropOldestExact(queue);
  }

  // The class.

  class TtyStreamHandle {
    var queue: seq<Queued>
    var queuedBytes: nat
    var overflowPending: bool
    var closing: bool
    var readerDone: bool

    constructor ()
      ensures Valid() && State() == Handle([], false, false)
    {
      queue, queuedBytes, overflowPending, closing, readerDone := [], 0, false, false, false;
    }

    /** Between operations the count is exact and no marker is owed. */
    ghost predicate Valid()
      reads this
    {
      queuedBytes == Size(DataOf(queue)) && !overflowPending
    }

    function State(): Handle
      reads this
    {
      Handle(queue, closing, readerDone)
    }

    method RequestClose()
      modifies this
      ensures Valid() && State() == Handle([], true, old(readerDone))
    {
      closing := true;
      ClearQueueLocked();
    }

    method FinishReader()
      requires Valid()
      modifies this
      ensures Valid() && State() == old(State()).(readerDone := true)
    {
      readerDone := true;
    }

    method EnqueueNormalized(chunk: seq<byte>)
      requires Valid()
      modifies this
      ensures Valid() && State() == EnqueueAll(old(State()), Parts(chunk))
    {
      if |chunk| == 0 {
        return;
      }
      var start := 0;
      while start < |chunk|
        invariant start <= |chunk| && Valid()
        invariant EnqueueAll(State(), Parts(chunk[start..])) == EnqueueAll(old(State()), Parts(chunk))
      {
        var end := if |chunk| < start + CHUNK_LIMIT then |chunk| else start + CHUNK_LIMIT;
        NextPart(chunk, start, end);
        EnqueueOwnedChunk(chunk[start..end]);
        start := end;
      }
    }

    method EnqueueOwnedChunk(bytes: seq<byte>)
      requires Valid()
      modifies this
      ensures Valid() && State() == Enqueue(old(State()), bytes)
    {
      if closing {
        return;
      }
      ghost var lossy := Lossy(queue, |bytes|);
      while queuedBytes + |bytes| > QUEUE_LIMIT
        invariant queuedBytes == Size(DataOf(queue)) && closing == old(closing) && readerDone == old(readerDone)
        invariant MakeRoom(queue, |bytes|) == MakeRoom(old(queue), |bytes|)
        invariant overflowPending || Lossy(queue, |bytes|) <==> lossy
        decreases |DataOf(queue)|
      {
        DropOldestExact(queue);
        var dropped := DropOldestDataLocked();
        if dropped {
          overflowPending := true;
        } else {
          break;
        }
      }
      ghost var room := queue;
      Appended(room, overflowPending, bytes);
      assert room + [] == room;
      if overflowPending {
        queue := queue + [Overflow];
        overflowPending := false;
      }
      queue := queue + [Data(bytes)];
      queuedBytes := queuedBytes + |bytes|;
    }

    /** When the reader may go on: something is queued, or nothing more will be. */
    predicate Ready()
      reads this
    {
      queue != [] || closing || readerDone
    }

    /** The head of the queue; none when the stream is over. */
    method WaitNextChunk() returns (next: Option<Queued>)
      requires Valid() && Ready()
      modifies this
      ensures Valid()
      ensures if old(queue) == [] then next == None && State() == old(State())
              else next == Some(old(queue)[0]) && State() == old(State()).(queue := old(queue)[1..])
    {
      if queue == [] {
        return None;
      }
      HeadTaken(queue);
      var queued := queue[0];
      if queued.Data? {
        queuedBytes := queuedBytes - |queued.bytes|;
      }
      queue := queue[1..];
      next := Some(queued);
    }

    method DropOldestDataLocked() returns (dropped: bool)
      requires queuedBytes == Size(DataOf(queue))
      modifies this`queue, this`queuedBytes
      ensures queue == DropOldest(old(queue)) && queuedBytes == Size(DataOf(queue))
      ensures dropped <==> DataOf(old(queue)) != []
    {
      var index := 0;
      while index < |queue|
        invariant index <= |queue| && queue == old(queue) && queuedBytes == old(queuedBytes)
        invariant forall i :: 0 <= i < index ==> queue[i].Overflow?
      {
        if queue[index].Data? {
          OldestAt(queue, index);
          OldestSize(queue);
          queuedBytes := queuedBytes - |queue[index].bytes|;
          queue := queue[..index] + queue[index + 1..];
          return true;
        }
        index := index + 1;
      }
      OnlyMarkers(queue);
      DropOldestExact(queue);
      dropped := false;
    }

    method ClearQueueLocked()
      modifies this`queue, this`queuedBytes, this`overflowPending
      ensures queue == [] && queuedBytes == 0 && !overflowPending
    {
      queue, queuedBytes, overflowPending := [], 0, false;
    }
  }

  lemma NextPart(chunk: seq<byte>, start: nat, end: nat)
    requires start < |chunk| && end == if |chunk| < start + CHUNK_LIMIT then |chunk| else start + CHUNK_LIMIT
    ensures Parts(chunk[start..]) == [chunk[start..end]] + Parts(chunk[end..])
  {
    var rest := chunk[start..];
    assert rest[end - start..] == chunk[end..] && rest[..end - start] == chunk[start..end];
    if |rest| <= CHUNK_LIMIT {
      assert rest == chunk[start..end] && chunk[end..] == [];
      assert [rest] + [] == [rest];
    }
  }
}
