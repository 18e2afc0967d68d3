/**
  Core numbering over several packages: `totalPhysical`, `totalLogical` and
  `numberToPhysicalUnique`, in the 8-bit arithmetic of the code.
 */
module CpuTopology {

  const MAX_CPUS: nat := 64

  const BYTE: nat := 256

  /** The cores of the first `n` packages. */
  function Before(counts: seq<nat>, n: nat): nat
    requires n <= |counts|
  {
    if n == 0 then 0 else Before(counts, n - 1) + counts[n - 1]
  }

  /** The number of core `c` of package `p`. */
  function Number(counts: seq<nat>, p: nat, c: nat): nat
    requires p <= |counts|
  {
    (Before(counts, p) + c) % BYTE
  }

  /** One more package, in 8-bit arithmetic. */
  lemma BeforeNext(counts: seq<nat>, n: nat)
    requires n < |counts|
    ensures (Before(counts, n) % BYTE + counts[n]) % BYTE == Before(counts, n + 1) % BYTE
  {
  }

  class Topology {
    var packageCount: nat
    const physicalCount: array<nat>
    const logicalCount: array<nat>
    const numberToPackage: array<nat>
    const numberToPhysical: array<nat>

    /** Arrays of MAX_CPUS bytes, with package numbers that index them. */
    ghost predicate Valid()
      reads this, physicalCount, logicalCount, numberToPackage, numberToPhysical
    {
      && physicalCount.Length == logicalCount.Length == MAX_CPUS
      && numberToPackage.Length == numberToPhysical.Length == MAX_CPUS
      && packageCount <= MAX_CPUS
      && (forall i :: 0 <= i < MAX_CPUS ==> physicalCount[i] < BYTE && logicalCount[i] < BYTE)
      && (forall i :: 0 <= i < MAX_CPUS ==> numberToPackage[i] <= MAX_CPUS && numberToPhysical[i] < BYTE)
    }

    /** The sum over the packages, modulo 256; the first package counts even if there is none. */
    method Total(counts: array<nat>) returns (count: nat)
      requires Valid() && counts in {physicalCount, logicalCount}
      ensures count == Before(counts[..], if packageCount == 0 then 1 else packageCount) % BYTE
    {
      count := counts[0];
      BeforeNext(counts[..], 0);
      hide Before;
      var i := 1;
      while i < packageCount
        invariant 1 <= i <= MAX_CPUS && (i <= packageCount || i == 1)
        invariant count == Before(counts[..], i) % BYTE
      {
        BeforeNext(counts[..], i);
        count := (count + counts[i]) % BYTE;
        i := i + 1;
      }
    }

    method TotalPhysical() returns (count: nat)
      requires Valid()
      ensures count == Before(physicalCount[..], if packageCount == 0 then 1 else packageCount) % BYTE
    {
      count := Total(physicalCount);
    }

    method TotalLogical() returns (count: nat)
      requires Valid()
      ensures count == Before(logicalCount[..], if packageCount == 0 then 1 else packageCount) % BYTE
    {
      count := Total(logicalCount);
    }

    method NumberToPhysicalUnique(i: nat) returns (num: nat)
      requires Valid() && i < MAX_CPUS
      ensures num == Number(physicalCount[..], numberToPackage[i], numberToPhysical[i])
    {
      num := 0;
      assert Before(physicalCount[..], 0) % BYTE == 0;
      hide Before;
      var package := numberToPackage[i];
      var j := 0;
      while j < package
        invariant 0 <= j <= package && num == Before(physicalCount[..], j) % BYTE
      {
        BeforeNext(physicalCount[..], j);
        num := (num + physicalCount[j]) % BYTE;
        j := j + 1;
      }
      num := (num + numberToPhysical[i]) % BYTE;
    }
  }

  // ---------------------------------------------------------------- the numbering

  /** Core `c` exists in package `p`, among the first `n`. */
  predicate IsCore(counts: seq<nat>, n: nat, p: nat, c: nat)
    requires n <= |counts|
  {
    p < n && c < counts[p]
  }

  lemma {:induction false} BeforeIsMonotonic(counts: seq<nat>, p: nat, n: nat)
    requires p <= n <= |counts|
    ensures Before(counts, p) <= Before(counts, n)
  {
    if p < n { BeforeIsMonotonic(counts, p, n - 1); }
  }

  lemma CoresAreBelow(counts: seq<nat>, n: nat, p: nat, c: nat)
    requires n <= |counts| && IsCore(counts, n, p, c)
    ensures Before(counts, p) + c < Before(counts, n)
  {
    BeforeIsMonotonic(counts, p + 1, n);
  }

  /** Every position below the total is that of some core. */
  lemma {:induction false} Locate(counts: seq<nat>, n: nat, x: nat) returns (p: nat, c: nat)
    requires n <= |counts| && x < Before(counts, n)
    ensures IsCore(counts, n, p, c) && Before(counts, p) + c == x
  {
    if x < Before(counts, n - 1) {
      p, c := Locate(counts, n - 1, x);
    } else {
      p, c := n - 1, x - Before(counts, n - 1);
    }
  }

  /** Different cores have different positions. */
  lemma PositionsDiffer(counts: seq<nat>, n: nat, p: nat, c: nat, p': nat, c': nat)
    requires n <= |counts| && IsCore(counts, n, p, c) && IsCore(counts, n, p', c')
    requires Before(counts, p) + c == Before(counts, p') + c'
    ensures p == p' && c == c'
  {
    if p < p' { BeforeIsMonotonic(counts, p + 1, p'); }
    if p' < p { BeforeIsMonotonic(counts, p' + 1, p); }
  }

  /** No two cores of the first `n` packages share a number. */
  ghost predicate NumbersCores(counts: seq<nat>, n: nat)
    requires n <= |counts|
  {
    forall p, c, p', c' ::
      IsCore(counts, n, p, c) && IsCore(counts, n, p', c') && Number(counts, p, c) == Number(counts, p', c') ==>
        p == p' && c == c'
  }

  /**
    The numbers tell the cores apart exactly when there are at most 256 of them; beyond that the
    first core and the 257th share number 0.
   */
  lemma NumbersCoresIff(counts: seq<nat>, n: nat)
    requires n <= |counts|
    ensures NumbersCores(counts, n) <==> Before(counts, n) <= BYTE
  {
    if Before(counts, n) <= BYTE {
      forall p, c, p', c' | IsCore(counts, n, p, c) && IsCore(counts, n, p', c')
                            && Number(counts, p, c) == Number(counts, p', c')
        ensures p == p' && c == c'
      {
        SameNumber(counts, n, p, c, p', c');
      }
    } else {
      FirstAnd257th(counts, n);
    }
  }

  /** With at most 256 cores the numbers go up with the package, and in a package with the core. */
  lemma NumbersFollowOrder(counts: seq<nat>, n: nat, p: nat, c: nat, p': nat, c': nat)
    requires n <= |counts| && Before(counts, n) <= BYTE && IsCore(counts, n, p, c) && IsCore(counts, n, p', c')
    ensures Number(counts, p, c) < Number(counts, p', c') <==> p < p' || (p == p' && c < c')
  {
    CoresAreBelow(counts, n, p, c);
    CoresAreBelow(counts, n, p', c');
    if p < p' { BeforeIsMonotonic(counts, p + 1, p'); }
    if p' < p { BeforeIsMonotonic(counts, p' + 1, p); }
  }

  lemma SameNumber(counts: seq<nat>, n: nat, p: nat, c: nat, p': nat, c': nat)
    requires n <= |counts| && Before(counts, n) <= BYTE && IsCore(counts, n, p, c) && IsCore(counts, n, p', c')
    requires Number(counts, p, c) == Number(counts, p', c')
    ensures p == p' && c == c'
  {
    hide Before, IsCore;
    CoresAreBelow(counts, n, p, c);
    CoresAreBelow(counts, n, p', c');
    PositionsDiffer(counts, n, p, c, p', c');
  }

  lemma FirstAnd257th(counts: seq<nat>, n: nat)
    requires n <= |counts| && Before(counts, n) > BYTE
    ensures !NumbersCores(counts, n)
  {
    hide Before;
    var p, c := Locate(counts, n, 0);
    var p', c' := Locate(counts, n, BYTE);
    assert Number(counts, p, c) == 0 == Number(counts, p', c');
  }

  /** Some core of the first `n` packages has number `x`. */
  ghost predicate IsNumber(counts: seq<nat>, n: nat, x: nat)
    requires n <= |counts|
  {
    exists p, c :: IsCore(counts, n, p, c) && Number(counts, p, c) == x
  }

  /** With at most 256 cores the numbers in use are exactly those from 0 up to the total. */
  lemma NumbersAreOnto(counts: seq<nat>, n: nat)
    requires n <= |counts| && Before(counts, n) <= BYTE
    ensures forall x: nat :: IsNumber(counts, n, x) <==> x < Before(counts, n)
  {
    forall p, c | IsCore(counts, n, p, c)
      ensures Number(counts, p, c) < Before(counts, n)
    {
      CoresAreBelow(counts, n, p, c);
    }
    forall x | 0 <= x < Before(counts, n)
      ensures IsNumber(counts, n, x)
    {
      var p, c := Locate(counts, n, x);
      assert IsCore(counts, n, p, c) && Number(counts, p, c) == x;
    }
  }
}
