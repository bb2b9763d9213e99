/** `BufferCursor` (src/http.cpp): a growing string with a read offset that is
    compacted from time to time, and the plain byte queue it stands for. */
module ByteBuffer {

  /** `compact` erases the consumed prefix only once it is longer than this. */
  const COMPACT_THRESHOLD: nat := 4096

  datatype Op = Append(data: string) | Consume(len: nat) | Take(count: nat)

  /** The abstract queue: bytes not yet consumed, and the bytes `take` handed out. */
  datatype Queue = Queue(bytes: string, taken: seq<string>)

  function Drop(s: string, n: nat): string {
    if n <= |s| then s[n..] else []
  }

  predicate InRange(q: Queue, op: Op) {
    op.Take? ==> op.count <= |q.bytes|
  }

  function Step(q: Queue, op: Op): Queue
    requires InRange(q, op)
  {
    match op
    case Append(data) => q.(bytes := q.bytes + data)
    case Consume(len) => q.(bytes := Drop(q.bytes, len))
    case Take(count) => Queue(q.bytes[count..], q.taken + [q.bytes[..count]])
  }

  predicate AllInRange(q: Queue, ops: seq<Op>)
    decreases |ops|
  {
    ops == [] || (InRange(q, ops[0]) && AllInRange(Step(q, ops[0]), ops[1..]))
  }

  function Steps(q: Queue, ops: seq<Op>): Queue
    requires AllInRange(q, ops)
    decreases |ops|
  {
    if ops == [] then q else Steps(Step(q, ops[0]), ops[1..])
  }

  class BufferCursor {
    var storage: string
    var offset: nat

    ghost predicate Valid()
      reads this
    {
      offset <= |storage|
    }

    function View(): string
      requires Valid()
      reads this
    {
      storage[offset..]
    }

    constructor (initial: string)
      ensures Valid() && View() == initial
    {
      storage, offset := initial, 0;
    }

    function Size(): nat
      requires Valid()
      reads this
    {
      |storage| - offset
    }

    method Append(data: string)
      requires Valid()
      modifies this
      ensures Valid() && View() == old(View()) + data
    {
      storage := storage + data;
    }

    /** Compaction is invisible: it never changes the view. */
    method Compact()
      modifies this
      ensures Valid()
      ensures View() == Drop(old(storage), old(offset))
      ensures storage == [] ==> offset == 0
    {
      if offset == 0 {
        return;
      }
      if offset >= |storage| {
        storage, offset := [], 0;
        return;
      }
      if offset > COMPACT_THRESHOLD && offset * 2 >= |storage| {
        storage := storage[offset..];
        offset := 0;
      }
    }

    /** Consuming past the end empties the buffer, because `compact` clears it. */
    method Consume(len: nat)
      requires Valid()
      modifies this
      ensures Valid() && View() == Drop(old(View()), len)
    {
      offset := offset + len;
      Compact();
      assert View() == Drop(old(View()), len);
    }

    method TakeBytes(len: nat) returns (out: string)
      requires Valid() && len <= Size()
      modifies this
      ensures Valid()
      ensures out == old(View())[..len] && View() == old(View())[len..]
    {
      out := storage[offset..offset + len];
      assert out == View()[..len];
      Consume(len);
    }

    /** Any sequence of operations leaves the view, and has handed out the bytes,
        that the same sequence on the plain queue would. */
    method Replay(ops: seq<Op>) returns (taken: seq<string>)
      requires Valid() && AllInRange(Queue(View(), []), ops)
      modifies this
      ensures Valid()
      ensures Queue(View(), taken) == Steps(Queue(old(View()), []), ops)
    {
      taken := [];
      var i := 0;
      assert ops[0..] == ops;
      while i < |ops|
        invariant 0 <= i <= |ops| && Valid()
        invariant AllInRange(Queue(View(), taken), ops[i..])
        invariant Steps(Queue(View(), taken), ops[i..]) == Steps(Queue(old(View()), []), ops)
      {
        assert ops[i..][0] == ops[i] && ops[i..][1..] == ops[i + 1..];
        match ops[i] {
          case Append(data) => Append(data);
          case Consume(len) => Consume(len);
          case Take(count) =>
            var out := TakeBytes(count);
            taken := taken + [out];
        }
        i := i + 1;
      }
    }
  }
}
