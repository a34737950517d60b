/** The two byte queues between the USB transport and the command
    interpreter, and the stdio adapters the firmware installs over them.

    LUFA's ring buffer is modelled by what it holds: the unread bytes, oldest
    first, and the fixed capacity of its backing storage. Its cursors and
    wrap-around arithmetic are not part of this model. */
module ByteQueue {
  import opened Common

  datatype Queue = Queue(items: seq<Byte>, capacity: nat)
  {
    /** The ring buffer never holds more than its storage. */
    predicate Valid()
    {
      |items| <= capacity
    }

    predicate IsEmpty()
    {
      |items| == 0
    }

    predicate IsFull()
    {
      |items| == capacity
    }

    /** Room left before an insertion is refused. */
    function Room(): nat
      requires Valid()
    {
      capacity - |items|
    }
  }

  /** A queue with nothing in it, as `RingBuffer_InitBuffer` leaves it. */
  function EmptyQueue(capacity: nat): (q: Queue)
    ensures q.Valid() && q.IsEmpty() && q.capacity == capacity
  {
    Queue([], capacity)
  }

  /** The value `getData` hands to stdio when the inbound queue is empty. */
  const FdevEof: int := -2

  /** `haveData`: 1 when a byte is waiting in the inbound queue, 0 otherwise. */
  function HaveData(q: Queue): (r: Byte)
    ensures r == 1 <==> !q.IsEmpty()
    ensures r == 0 <==> q.IsEmpty()
  {
    if q.IsEmpty() then 0 else 1
  }

  /** `sendData`: append c to the outbound queue and report 0, or report 1
      and leave the queue as it was when the queue is full. */
  function SendData(q: Queue, c: Byte): (r: (int, Queue))
    requires q.Valid()
    ensures r.1.Valid() && r.1.capacity == q.capacity
    ensures !q.IsFull() ==> r.0 == 0 && r.1.items == q.items + [c]
    ensures q.IsFull() ==> r.0 == 1 && r.1 == q
  {
    if !q.IsFull() then (0, q.(items := q.items + [c])) else (1, q)
  }

  /** `getData`: `_FDEV_EOF` with the queue untouched when it is empty,
      otherwise the oldest byte, removed from the queue. */
  function GetData(q: Queue): (r: (int, Queue))
    requires q.Valid()
    ensures r.1.Valid() && r.1.capacity == q.capacity
    ensures q.IsEmpty() ==> r.0 == FdevEof && r.1 == q
    ensures !q.IsEmpty() ==> r.0 == q.items[0] && q.items == [q.items[0]] + r.1.items
  {
    if HaveData(q) == 0 then (FdevEof, q) else (q.items[0], q.(items := q.items[1..]))
  }

  /** The outbound queue after `printf` has pushed each byte of `bytes`
      through `sendData`, whose failure result the formatter ignores. */
  function SendAll(q: Queue, bytes: seq<Byte>): (r: Queue)
    requires q.Valid()
    ensures r.Valid() && r.capacity == q.capacity
    ensures |bytes| <= q.Room() ==> r.items == q.items + bytes
    ensures |bytes| > q.Room() ==> r.items == q.items + bytes[..q.Room()] && r.IsFull()
    decreases |bytes|
  {
    if bytes == [] then q
    else
      var next := SendData(q, bytes[0]).1;
      var r := SendAll(next, bytes[1..]);
      assert bytes == [bytes[0]] + bytes[1..];
      assert !q.IsFull() && |bytes| > q.Room() ==>
        bytes[..q.Room()] == [bytes[0]] + bytes[1..][..next.Room()];
      r
  }

  /** The queue after `bytes` are offered to `q` when nothing drains it:
      as many as fit are kept, in order, and the rest are lost. */
  function Pushed(q: Queue, bytes: seq<Byte>): Queue
    requires q.Valid()
  {
    var kept := if |bytes| <= q.Room() then |bytes| else q.Room();
    Queue(q.items + bytes[..kept], q.capacity)
  }

  /** Pushing two texts one after the other is pushing their concatenation:
      once the queue is full every later byte is dropped. */
  lemma SendAllAppend(q: Queue, a: seq<Byte>, b: seq<Byte>)
    requires q.Valid()
    ensures SendAll(SendAll(q, a), b) == SendAll(q, a + b)
  {
    var mid := SendAll(q, a);
    assert mid == Pushed(q, a);
    assert SendAll(mid, b) == Pushed(mid, b);
    assert SendAll(q, a + b) == Pushed(q, a + b);
    PushedAppend(q, a, b);
  }

  lemma PushedAppend(q: Queue, a: seq<Byte>, b: seq<Byte>)
    requires q.Valid()
    ensures Pushed(Pushed(q, a), b) == Pushed(q, a + b)
  {
    var room, c := q.Room(), a + b;
    if |c| <= room {
      assert (q.items + a) + b == q.items + c;
    } else if |a| <= room {
      assert c[..room] == a + b[..room - |a|];
      assert (q.items + a) + b[..room - |a|] == q.items + c[..room];
    } else {
      assert c[..room] == a[..room];
      assert b[..0] == [] && (q.items + a[..room]) + [] == q.items + a[..room];
    }
  }

  /** The queue after `getData` has been called n times and every byte it
      returned, in order. */
  function GetN(q: Queue, n: nat): (r: (seq<int>, Queue))
    requires q.Valid()
    ensures |r.0| == n && r.1.Valid()
    decreases n
  {
    if n == 0 then ([], q)
    else
      var (c, q') := GetData(q);
      var (rest, q'') := GetN(q', n - 1);
      ([c] + rest, q'')
  }

  /** First in, first out: n bytes sent into a queue that starts empty and
      has room for all of them come back out of n reads in the order they
      went in, and the queue is empty again. */
  lemma {:induction false} Fifo(capacity: nat, bytes: seq<Byte>)
    requires |bytes| <= capacity
    ensures var (got, q) := GetN(SendAll(EmptyQueue(capacity), bytes), |bytes|);
            got == bytes && q.IsEmpty()
  {
    DrainsInOrder(SendAll(EmptyQueue(capacity), bytes), |bytes|);
  }

  /** n reads from a queue holding at least n bytes return its first n
      bytes and leave the rest. */
  lemma {:induction false} DrainsInOrder(q: Queue, n: nat)
    requires q.Valid() && n <= |q.items|
    ensures var (got, q') := GetN(q, n);
            got == q.items[..n] && q'.items == q.items[n..]
    decreases n
  {
    if n > 0 {
      var (c, q1) := GetData(q);
      DrainsInOrder(q1, n - 1);
      assert q1.items == q.items[1..];
    }
  }
}
