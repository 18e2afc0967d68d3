/**
  `CircularBuffer<T>` in the form of the code: an array, three 32-bit numbers and a recursive
  lock. A call is described from the moment the lock is available to it; RingProtocol covers
  the waiting and the interleaving.
 */
module CircularBufferObject {
  import opened Common
  import opened RingProtocol

  /** Storing at the write index and moving it on appends to the contents. */
  lemma PushStep<T>(storage: seq<T>, r: nat, w: nat, n: nat, x: T)
    requires n < |storage| < WORD && RingOk(|storage|, r, w, n)
    ensures w < |storage| && RingOk(|storage|, r, Inc(w) % |storage|, Inc(n))
    ensures Contents(storage[w := x], r, Inc(n)) == Contents(storage, r, n) + [x]
  {
    StoreExtends(storage, r, n, x);
    ModIsWrap(w + 1, |storage|);
    NoWrap(w);
    NoWrap(n);
    hide Contents, Inc;
  }

  /** Moving the read index on drops the front of the contents, which stood there. */
  lemma PopStep<T>(storage: seq<T>, r: nat, w: nat, n: nat)
    requires 0 < n <= |storage| < WORD && RingOk(|storage|, r, w, n)
    ensures r < |storage| && RingOk(|storage|, Inc(r) % |storage|, w, Dec(n))
    ensures Contents(storage, r, n) == [storage[r]] + Contents(storage, Inc(r) % |storage|, Dec(n))
  {
    AdvanceDrops(storage, r, n);
    ModIsWrap(r + 1, |storage|);
    NoWrap(r);
    NoWrap(n);
    hide Contents, Inc, Dec;
  }

  class CircularBuffer<T> {
    const storage: array<T>
    const size: nat
    var indexr: nat
    var indexw: nat
    var count: nat

    // The recursive lock: its holder and how often it has been taken.
    var owner: Option<Tid>
    var depth: nat

    ghost predicate Valid()
      reads this, storage
    {
      && storage.Length == size < WORD
      && RingOk(size, indexr, indexw, count)
      && (owner == None <==> depth == 0)
    }

    ghost function Queue(): (q: seq<T>)
      requires Valid()
      reads this, storage
      ensures |q| == count <= size
    {
      Contents(storage[..], indexr, count)
    }

    ghost predicate Free(me: Tid)
      reads this
    {
      owner == None || owner == Some(me)
    }

    constructor (buffer: array<T>)
      requires buffer.Length < WORD
      ensures Valid() && Queue() == [] && size == buffer.Length && owner == None && storage == buffer
    {
      storage, size := buffer, buffer.Length;
      indexr, indexw, count, owner, depth := 0, 0, 0, None, 0;
    }

    method Lock(me: Tid)
      requires Valid() && Free(me)
      modifies this`owner, this`depth
      ensures Valid() && owner == Some(me) && depth == old(depth) + 1
    {
      owner, depth := Some(me), depth + 1;
    }

    method Unlock(me: Tid)
      requires Valid() && owner == Some(me)
      modifies this`owner, this`depth
      ensures Valid() && depth == old(depth) - 1
      ensures owner == if depth == 0 then None else Some(me)
    {
      depth := depth - 1;
      if depth == 0 { owner := None; }
    }

    /** A released lock is as it was found. */
    twostate predicate LockKept()
      reads this
    {
      owner == old(owner) && depth == old(depth)
    }

    method IsEmpty(me: Tid) returns (empty: bool)
      requires Valid() && Free(me)
      modifies this`owner, this`depth
      ensures Valid() && LockKept() && Queue() == old(Queue())
      ensures empty <==> Queue() == []
    {
      Lock(me);
      empty := count == 0 && indexr == indexw;
      Unlock(me);
    }

    method IsFull(me: Tid) returns (full: bool)
      requires Valid() && Free(me)
      modifies this`owner, this`depth
      ensures Valid() && LockKept() && Queue() == old(Queue())
      ensures full <==> |Queue()| == size
    {
      Lock(me);
      full := count == size && indexr == indexw;
      Unlock(me);
    }

    method GetCount(me: Tid) returns (n: nat)
      requires Valid() && Free(me)
      modifies this`owner, this`depth
      ensures Valid() && LockKept() && Queue() == old(Queue())
      ensures n == |Queue()|
    {
      Lock(me);
      n := count;
      Unlock(me);
    }

    /** Write the element, unless the buffer is full. */
    method Push(me: Tid, element: T) returns (ok: bool)
      requires Valid() && Free(me)
      modifies this`indexw, this`count, this`owner, this`depth, storage
      ensures Valid() && LockKept()
      ensures ok <==> |old(Queue())| < size
      ensures Queue() == if ok then old(Queue()) + [element] else old(Queue())
    {
      Lock(me);
      var full := IsFull(me);
      if full {
        Unlock(me);
        return false;
      }
      storage[indexw] := element;
      assert storage[..] == old(storage[..])[indexw := element];
      PushStep(old(storage[..]), indexr, indexw, count, element);
      hide RingOk, Contents, Inc;
      indexw := Inc(indexw);
      indexw := indexw % size;
      count := Inc(count);
      Unlock(me);
      return true;
    }

    /** Read the next element, unless the buffer is empty; `element` then stays what it `was`. */
    method Pop(me: Tid, was: T) returns (ok: bool, element: T)
      requires Valid() && Free(me)
      modifies this`indexr, this`count, this`owner, this`depth
      ensures Valid() && LockKept()
      ensures ok <==> old(Queue()) != []
      ensures if ok then old(Queue()) == [element] + Queue() else Queue() == old(Queue()) && element == was
    {
      element := was;
      Lock(me);
      var empty := IsEmpty(me);
      if empty {
        Unlock(me);
        return false, element;
      }
      element := storage[indexr];
      PopStep(storage[..], indexr, indexw, count);
      hide RingOk, Contents, Inc, Dec;
      indexr := Inc(indexr);
      indexr := indexr % size;
      count := Dec(count);
      Unlock(me);
      return true, element;
    }
  }
}
