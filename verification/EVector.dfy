/**
  `evector_base`: a growable array that owns its elements. Growth goes through a reallocation
  that may fail; erasing an element hands it to the deleter and closes the gap.
 */
module EVector {
  import opened Common

  /** The sequence without its element `i`. */
  function Without<T>(s: seq<T>, i: nat): seq<T>
    requires i < |s|
  {
    s[..i] + s[i + 1..]
  }

  /** Each accepted element is either among the elements or was deleted, once. */
  ghost predicate Conserved<T>(accepted: seq<T>, elements: seq<T>, deleted: seq<T>) {
    multiset(accepted) == multiset(elements) + multiset(deleted)
  }

  lemma ConservedByPush<T>(accepted: seq<T>, elements: seq<T>, deleted: seq<T>, x: T)
    requires Conserved(accepted, elements, deleted)
    ensures Conserved(accepted + [x], elements + [x], deleted)
  {
  }

  lemma ConservedByErase<T>(accepted: seq<T>, elements: seq<T>, deleted: seq<T>, i: nat)
    requires Conserved(accepted, elements, deleted) && i < |elements|
    ensures Conserved(accepted, Without(elements, i), deleted + [elements[i]])
  {
    assert elements == elements[..i] + [elements[i]] + elements[i + 1..];
  }

  lemma ConservedByDeinit<T>(accepted: seq<T>, elements: seq<T>, deleted: seq<T>)
    requires Conserved(accepted, elements, deleted)
    ensures Conserved(accepted, [], deleted + elements)
  {
  }

  // ---------------------------------------------------------------- sizes in 64 bits

  const SIZES: nat := 0x1_0000_0000_0000_0000

  /** The room that reserve<mul>(num) notes down: MUL * num. */
  function Claimed(mul: nat, num: nat): nat {
    mul * num % SIZES
  }

  /** The whole elements that fit into what it asks the allocator for: MUL * num * sizeof(T) bytes. */
  function Granted(mul: nat, num: nat, size: nat): nat
    requires size > 0
  {
    mul * num * size % SIZES / size
  }

  /** The room that was asked for is there. */
  predicate RoomIsReal(mul: nat, num: nat, size: nat)
    requires size > 0
  {
    num <= Claimed(mul, num) <= Granted(mul, num, size)
  }

  /** Exactly when the number of elements did not wrap below what is needed, nor their bytes wrap. */
  lemma RoomIsRealIff(mul: nat, num: nat, size: nat)
    requires size > 0
    ensures RoomIsReal(mul, num, size) <==> num <= Claimed(mul, num) && Claimed(mul, num) * size < SIZES
    ensures RoomIsReal(mul, num, size) ==> Granted(mul, num, size) == Claimed(mul, num)
  {
    var claimed := Claimed(mul, num);
    ModOfProduct(mul * num, size, SIZES);
    if claimed * size < SIZES {
      SmallQuotient(claimed, size, SIZES);
    } else {
      LostQuotient(claimed, size, SIZES);
    }
  }

  lemma NoWrap(mul: nat, num: nat, size: nat)
    requires size > 0 && mul * num * size < SIZES && mul >= 1
    ensures Claimed(mul, num) == mul * num && RoomIsReal(mul, num, size)
  {
    var room := mul * num;
    AtLeast(num, mul);
    AtLeast(room, size);
    DivModUnique(room, SIZES, 0, room);
    SmallQuotient(room, size, SIZES);
  }

  lemma RealIsExact(mul: nat, num: nat, size: nat)
    requires size > 0
    ensures RoomIsReal(mul, num, size) ==> Granted(mul, num, size) == Claimed(mul, num)
  {
    RoomIsRealIff(mul, num, size);
  }

  lemma AtLeast(a: nat, b: nat)
    requires b >= 1
    ensures b * a >= a && a * b >= a
  {
    assert b * a == a + (b - 1) * a;
  }

  lemma ModOfProduct(a: nat, b: nat, m: nat)
    requires m > 0
    ensures a * b % m == a % m * b % m
  {
    var q, r := a / m, a % m;
    var x := r * b;
    var y, z := q * b, x / m;
    assert a == m * q + r && x == m * z + x % m;
    Distributes(m, q, r, b);
    Factors(m, y, z);
    DivModUnique(a * b, m, y + z, x % m);
  }

  lemma Distributes(m: nat, q: nat, r: nat, b: nat)
    ensures (m * q + r) * b == m * (q * b) + r * b
  {
  }

  lemma Factors(m: nat, y: nat, z: nat)
    ensures m * y + m * z == m * (y + z)
  {
  }

  lemma SmallQuotient(c: nat, size: nat, m: nat)
    requires 0 < size && c * size < m
    ensures c * size % m / size == c
  {
    DivModUnique(c * size, m, 0, c * size);
    DivModUnique(c * size, size, c, 0);
  }

  lemma LostQuotient(c: nat, size: nat, m: nat)
    requires 0 < size && 0 < m <= c * size
    ensures c * size % m / size < c
  {
    var bytes := c * size % m;
    var g := bytes / size;
    assert bytes == size * g + bytes % size;
    if c < g { MulSteps(size, c, g); }
  }

  // ---------------------------------------------------------------- shapes

  /** Sizes and costs: elements, room, pushes accepted, elements copied and reallocations so far. */
  datatype Shape = Shape(cnt: nat, rsvd: nat, pushes: nat, copied: nat, grown: nat)

  /** The room that reserve<mul>(num) makes if nothing wraps. */
  function Room(mul: nat, num: nat): (room: nat)
    ensures mul >= 1 ==> room >= num
  {
    mul * num
  }

  /** reserve<mul>(num): a successful reallocation copies the old room. */
  function ReserveShape(s: Shape, mul: nat, num: nat, memory: bool): Shape {
    if s.rsvd < num && memory then s.(rsvd := Room(mul, num), copied := s.copied + s.rsvd, grown := s.grown + 1) else s
  }

  function PushShape(s: Shape, mul: nat, memory: bool): Shape {
    var r := ReserveShape(s, mul, s.cnt + 1, memory);
    if r.rsvd < s.cnt + 1 then r else r.(cnt := s.cnt + 1, pushes := s.pushes + 1)
  }

  function EraseShape(s: Shape, free: bool): Shape
    requires s.cnt > 0
  {
    if free && s.cnt == 1 then s.(cnt := 0, rsvd := 0) else s.(cnt := s.cnt - 1)
  }

  class EVector<T(0)> {
    const size: nat      // sizeof(T)
    var ptr: array?<T>
    var cnt: nat
    var rsvd: nat

    var overrun: bool    // an element was written outside the allocation

    // What happened so far.
    ghost var accepted: seq<T>   // elements that push_back took, in order
    ghost var deleted: seq<T>    // elements that were passed to the deleter, in order
    ghost var pushes: nat
    ghost var copied: nat
    ghost var grown: nat

    ghost predicate Valid()
      reads this, ptr
    {
      && !overrun && size > 0
      && cnt <= rsvd
      && (ptr == null <==> rsvd == 0)
      && (ptr != null ==> ptr.Length == rsvd)
      && Conserved(accepted, Elements(), deleted)
    }

    /** The elements, in order. */
    ghost function Elements(): seq<T>
      reads this, ptr
    {
      if ptr == null || cnt > ptr.Length then [] else ptr[..cnt]
    }

    ghost function GetShape(): Shape
      reads this
    {
      Shape(cnt, rsvd, pushes, copied, grown)
    }

    constructor (size: nat)
      requires size > 0
      ensures this.size == size && Valid() && Elements() == []
      ensures accepted == [] && deleted == [] && GetShape() == Shape(0, 0, 0, 0, 0)
    {
      this.size, ptr, cnt, rsvd, overrun := size, null, 0, 0, false;
      accepted, deleted, pushes, copied, grown := [], [], 0, 0, 0;
    }

    /** The deleter of the element type. */
    ghost method Delete(x: T)
      modifies this`deleted
      ensures deleted == old(deleted) + [x]
    {
      deleted := deleted + [x];
    }

    /** The arithmetic of reserve<mul>(num) makes no difference, or comes out right. */
    ghost predicate Safe(mul: nat, num: nat, memory: bool)
      requires size > 0
      reads this
    {
      rsvd >= num || !memory || RoomIsReal(mul, num, size)
    }

    /**
      Reserve room for `num` elements; `memory` says whether the allocator can serve the request.
      If the arithmetic wraps, the vector notes down less room than needed or more than it has.
     */
    method Reserve(mul: nat, num: nat, memory: bool) returns (p: array?<T>)
      requires Valid() && mul >= 1
      modifies this`ptr, this`rsvd, this`copied, this`grown
      ensures ptr == old(ptr) || fresh(ptr)
      ensures p == if old(rsvd) < num && !memory then null else ptr
      ensures memory && old(rsvd) < num ==> ptr != null
      ensures old(rsvd) >= num ==> ptr == old(ptr) && rsvd == old(rsvd)
      ensures old(rsvd) < num && memory && mul * num * size < SIZES ==> rsvd == mul * num
      ensures old(Safe(mul, num, memory)) ==>
                Valid() && Elements() == old(Elements()) && (old(rsvd) >= num || memory ==> rsvd >= num)
      ensures !old(Safe(mul, num, memory)) ==> rsvd < num || (ptr != null && ptr.Length < rsvd)
      ensures mul * num * size < SIZES ==>
                old(Safe(mul, num, memory)) && GetShape() == ReserveShape(old(GetShape()), mul, num, memory)
    {
      if mul * num * size < SIZES { NoWrap(mul, num, size); }
      hide Claimed, Granted, Conserved;
      if rsvd < num {
        if memory {
          RealIsExact(mul, num, size);
          Reallocate(Granted(mul, num, size));
          rsvd := Claimed(mul, num);
        } else {
          return null;
        }
      }
      return ptr;
    }

    /** kern_os_realloc: `granted` elements, with the contents as far as they fit. */
    method Reallocate(granted: nat)
      requires Valid()
      modifies this`ptr, this`copied, this`grown
      ensures fresh(ptr) && ptr != null && ptr.Length == granted
      ensures cnt <= granted ==> ptr[..cnt] == old(Elements())
      ensures copied == old(copied) + rsvd && grown == old(grown) + 1
    {
      var nPtr := new T[granted];
      if ptr != null {
        forall i | 0 <= i < rsvd && i < nPtr.Length {
          nPtr[i] := ptr[i];
        }
        assert cnt <= nPtr.Length ==> nPtr[..cnt] == ptr[..cnt];
      }
      copied, grown := copied + rsvd, grown + 1;
      ptr := nPtr;
    }

    /** Add an element to the end. */
    method PushBack(mul: nat, element: T, memory: bool) returns (ok: bool)
      requires Valid() && mul >= 1
      modifies this, ptr
      ensures ptr == old(ptr) || fresh(ptr)
      ensures ok <==> old(rsvd) > old(cnt) || memory
      ensures Valid() <==> old(Safe(mul, cnt + 1, memory))
      ensures Valid() ==> Elements() == if ok then old(Elements()) + [element] else old(Elements())
      ensures Valid() ==> deleted == old(deleted) && accepted == if ok then old(accepted) + [element] else old(accepted)
      ensures mul * (old(cnt) + 1) * size < SIZES ==> Valid() && GetShape() == PushShape(old(GetShape()), mul, memory)
    {
      hide Conserved, Room, Elements, RoomIsReal;
      var p := Reserve(mul, cnt + 1, memory);
      if p != null {
        Append(element);
        return true;
      }
      return false;
    }

    /** ptr[cnt] = element; cnt++ */
    method Append(element: T)
      requires ptr != null
      modifies this`cnt, this`accepted, this`pushes, this`overrun, ptr
      ensures old(Valid()) && old(cnt) < rsvd ==>
                Valid() && Elements() == old(Elements()) + [element] && accepted == old(accepted) + [element]
      ensures ptr.Length < rsvd || rsvd <= old(cnt) ==> !Valid()
      ensures GetShape() == old(GetShape()).(cnt := old(cnt) + 1, pushes := old(pushes) + 1)
    {
      hide Conserved;
      ghost var good, s := Valid() && cnt < rsvd, Elements();
      if good { ConservedByPush(accepted, s, deleted, element); }
      Write(element);
      cnt := cnt + 1;
      pushes, accepted := pushes + 1, accepted + [element];
    }

    /** ptr[cnt] = element, which may lie outside the allocation. */
    method Write(element: T)
      requires ptr != null
      modifies this`overrun, ptr
      ensures overrun <==> old(overrun) || cnt >= ptr.Length
      ensures cnt < ptr.Length ==> ptr[..cnt + 1] == old(ptr[..cnt]) + [element]
    {
      if cnt < ptr.Length {
        ptr[cnt] := element;
      } else {
        overrun := true;
      }
    }

    /** if (cnt != index) memmove(&p[index], &p[index + 1], cnt - index) */
    static method MoveDown(p: array<T>, index: nat, cnt: nat)
      requires index <= cnt < p.Length
      modifies p
      ensures p[..cnt] == Without(old(p[..cnt + 1]), index)
    {
      if cnt == index { return; }
      forall i | index <= i < cnt {
        p[i] := p[i + 1];
      }
    }

    /** Erase one element; the last one takes the allocation along if `free`. */
    method Erase(index: nat, free: bool)
      requires Valid() && index < cnt
      modifies this, ptr
      ensures Valid() && ptr == if free && Elements() == [] then null else old(ptr)
      ensures Elements() == Without(old(Elements()), index)
      ensures deleted == old(deleted) + [old(Elements())[index]] && accepted == old(accepted)
      ensures GetShape() == EraseShape(old(GetShape()), free)
    {
      hide Conserved, Without;
      ghost var s := Elements();
      ConservedByErase(accepted, s, deleted, index);
      Delete(ptr[index]);
      cnt := cnt - 1;
      MoveDown(ptr, index, cnt);
      assert ptr[..cnt] == Without(s, index);
      if free && cnt == 0 {
        ptr := null;
        rsvd := 0;
      }
    }

    /** Delete all elements and give the memory back. */
    method Deinit()
      requires Valid()
      modifies this
      ensures Valid() && ptr == null && cnt == 0 && rsvd == 0
      ensures deleted == old(deleted) + old(Elements()) && accepted == old(accepted)
      ensures GetShape() == old(GetShape()).(cnt := 0, rsvd := 0)
    {
      hide Conserved;
      ConservedByDeinit(accepted, Elements(), deleted);
      if ptr != null {
        for i := 0 to cnt
          invariant ptr == old(ptr) && accepted == old(accepted) && GetShape() == old(GetShape())
          invariant ptr[..cnt] == old(Elements())
          invariant deleted == old(deleted) + ptr[..i]
        {
          Delete(ptr[i]);
        }
        ptr := null;
        cnt, rsvd := 0, 0;
      }
    }
  }

  // ---------------------------------------------------------------- growth

  datatype Op = Push(mul: nat, memory: bool) | Erase(free: bool) | Deinit

  /** Any mix of operations; pushes grow by a factor of at least two. */
  function ShapeAfter(ops: seq<Op>): Shape {
    if ops == [] then Shape(0, 0, 0, 0, 0)
    else
      var s := ShapeAfter(ops[..|ops| - 1]);
      match ops[|ops| - 1]
      case Push(mul, memory) => PushShape(s, mul, memory)
      case Erase(free) => if s.cnt > 0 then EraseShape(s, free) else s
      case Deinit => s.(cnt := 0, rsvd := 0)
  }

  predicate Doubling(ops: seq<Op>) {
    forall op :: op in ops && op.Push? ==> op.mul >= 2
  }

  /** Where the cost of earlier allocations has been paid for by the pushes of their time. */
  ghost predicate Amortised(s: Shape, paid: nat, before: nat) {
    && before + s.cnt <= s.pushes && s.cnt <= s.rsvd
    && paid <= 2 * before
    && s.copied <= paid + s.rsvd
    && s.copied <= paid + 2 * (s.pushes - before)
  }

  lemma PushAmortised(s: Shape, mul: nat, memory: bool, paid: nat, before: nat)
    requires Amortised(s, paid, before) && mul >= 2
    ensures Amortised(PushShape(s, mul, memory), paid, before)
  {
    if s.rsvd < s.cnt + 1 && memory { assert mul * (s.cnt + 1) >= 2 * (s.cnt + 1); }
  }

  lemma {:induction false} CostIsPaid(ops: seq<Op>) returns (paid: nat, before: nat)
    requires Doubling(ops)
    ensures Amortised(ShapeAfter(ops), paid, before)
  {
    paid, before := 0, 0;
    if ops != [] {
      var k := |ops| - 1;
      paid, before := CostIsPaid(ops[..k]);
      var s := ShapeAfter(ops[..k]);
      match ops[k] {
        case Push(mul, memory) =>
          assert ops[k] in ops;
          PushAmortised(s, mul, memory, paid, before);
        case Erase(free) =>
          if free && s.cnt == 1 { paid, before := s.copied, s.pushes; }
        case Deinit => paid, before := s.copied, s.pushes;
      }
    }
  }

  /**
    Over any mix of operations, with failing allocations, n accepted pushes cost at most 2n
    element copies, as long as pushes ask for at least twice what they need.
   */
  lemma CopiesAreLinear(ops: seq<Op>)
    requires Doubling(ops)
    ensures ShapeAfter(ops).copied <= 2 * ShapeAfter(ops).pushes
  {
    var paid, before := CostIsPaid(ops);
  }

  /** The room has doubled with every reallocation. */
  predicate Doubled(s: Shape) {
    s.cnt <= s.rsvd && s.cnt <= s.pushes && Pow2(s.grown) <= s.pushes + 1 && Pow2(s.grown + 1) <= s.rsvd + 2
  }

  lemma PushDoubles(s: Shape, mul: nat, memory: bool)
    requires Doubled(s) && mul >= 2
    ensures Doubled(PushShape(s, mul, memory))
  {
    if s.rsvd < s.cnt + 1 && memory {
      assert mul * (s.cnt + 1) >= 2 * (s.cnt + 1);
      assert Pow2(s.grown + 2) == 2 * Pow2(s.grown + 1);
    }
  }

  /** Without giving memory back, n accepted pushes reallocate at most log2(n + 1) times. */
  lemma {:induction false} GrowthIsLogarithmic(ops: seq<Op>)
    requires Doubling(ops) && forall op :: op in ops ==> op.Push? || (op.Erase? && !op.free)
    ensures Doubled(ShapeAfter(ops)) && Pow2(ShapeAfter(ops).grown) <= ShapeAfter(ops).pushes + 1
  {
    if ops != [] {
      var k := |ops| - 1;
      GrowthIsLogarithmic(ops[..k]);
      assert ops[k] in ops;
      if ops[k].Push? { PushDoubles(ShapeAfter(ops[..k]), ops[k].mul, ops[k].memory); }
    }
  }
}
