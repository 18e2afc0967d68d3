/**
  Bit and alignment helpers over unsigned words of `w` bits: `getBit`, `getBitMask`,
  `getBitField`, `setBitField` and `alignValue`, and what they compute in arithmetic terms.
 */
module BitFields {
  import opened Common

  // ---------------------------------------------------------------- the operators of the language

  function And(x: nat, y: nat): nat {
    if x == 0 || y == 0 then 0 else 2 * And(x / 2, y / 2) + if x % 2 == 1 && y % 2 == 1 then 1 else 0
  }

  function Or(x: nat, y: nat): nat {
    if x == 0 && y == 0 then 0 else 2 * Or(x / 2, y / 2) + if x % 2 == 1 || y % 2 == 1 then 1 else 0
  }

  function Not(w: nat, x: nat): nat
    requires x < Pow2(w)
  {
    Pow2(w) - 1 - x
  }

  /** The low `n` bits: what a word of `n` bits keeps of `x`. */
  function Low(x: nat, n: nat): (r: nat)
    ensures r <= x && r < Pow2(n)
  {
    if n == 0 then 0 else x % 2 + 2 * Low(x / 2, n - 1)
  }

  /** `x` doubled `n` times. */
  function Doubled(x: nat, n: nat): nat {
    if n == 0 then x else 2 * Doubled(x, n - 1)
  }

  function Shl(w: nat, x: nat, n: nat): nat {
    Low(Doubled(x, n), w)
  }

  function Shr(x: nat, n: nat): nat {
    if n == 0 then x else Shr(x / 2, n - 1)
  }

  // ---------------------------------------------------------------- the helpers of the code

  function GetBit(w: nat, n: nat): nat {
    Shl(w, 1, n)
  }

  function GetBitMask(w: nat, hi: nat, lo: nat): nat
    requires hi < w && lo < w
  {
    BitBelowWord(w, hi);
    BitBelowWord(w, lo);
    And(Or(GetBit(w, hi), GetBit(w, hi) - 1), Not(w, GetBit(w, lo) - 1))
  }

  function GetBitField(w: nat, so: nat, hi: nat, lo: nat): nat
    requires hi < w && lo < w
  {
    Shr(And(so, GetBitMask(w, hi, lo)), lo)
  }

  function SetBitField(w: nat, so: nat, hi: nat, lo: nat): nat
    requires hi < w && lo < w
  {
    And(Shl(w, so, lo), GetBitMask(w, hi, lo))
  }

  function AlignValue(w: nat, size: nat, align: nat): nat
    requires 0 < align < Pow2(w)
  {
    And(Low(size + align - 1, w), Not(w, align - 1))
  }

  // ---------------------------------------------------------------- powers of two

  lemma {:induction false} Pow2Grows(m: nat, n: nat)
    requires m < n
    ensures 2 * Pow2(m) <= Pow2(n)
  {
    if m < n - 1 { Pow2Grows(m, n - 1); }
  }

  lemma {:induction false} OneDoubled(n: nat)
    ensures Doubled(1, n) == Pow2(n)
  {
    if n > 0 { OneDoubled(n - 1); }
  }

  lemma BitBelowWord(w: nat, n: nat)
    requires n < w
    ensures GetBit(w, n) == Pow2(n) < Pow2(w)
  {
    Pow2Grows(n, w);
    OneDoubled(n);
    LowOfSmall(Pow2(n), w);
  }

  // ---------------------------------------------------------------- low bits and shifts

  lemma {:induction false} LowOfSmall(x: nat, n: nat)
    requires x < Pow2(n)
    ensures Low(x, n) == x
  {
    if n > 0 { LowOfSmall(x / 2, n - 1); }
  }

  lemma {:induction false} LowOfLow(x: nat, m: nat, k: nat)
    requires k <= m
    ensures Low(Low(x, m), k) == Low(x, k)
  {
    if k > 0 {
      LowOfLow(x / 2, m - 1, k - 1);
      assert Low(x, m) / 2 == Low(x / 2, m - 1);
    }
  }

  lemma {:induction false} LowOfOnes(n: nat, l: nat)
    requires l <= n
    ensures Low(Pow2(n) - 1, l) == Pow2(l) - 1
  {
    if l > 0 {
      LowOfOnes(n - 1, l - 1);
      assert (Pow2(n) - 1) / 2 == Pow2(n - 1) - 1;
    }
  }

  /** Adding a multiple of the word size does not show in the word. */
  lemma {:induction false} LowWraps(x: nat, n: nat)
    ensures Low(x + Pow2(n), n) == Low(x, n)
  {
    if n > 0 {
      assert (x + Pow2(n)) / 2 == x / 2 + Pow2(n - 1);
      LowWraps(x / 2, n - 1);
    }
  }

  lemma {:induction false} ShiftedBack(w: nat, x: nat, l: nat)
    requires l <= w
    ensures Shr(Low(Doubled(x, l), w), l) == Low(x, w - l)
  {
    if l > 0 { ShiftedBack(w - 1, x, l - 1); }
  }

  /** The two recursions are the remainder and the quotient by a power of two. */
  lemma {:induction false} LowIsMod(x: nat, n: nat)
    ensures Low(x, n) == x % Pow2(n)
  {
    if n == 0 {
      assert x % 1 == 0;
    } else {
      LowIsMod(x / 2, n - 1);
      HalveAndDivide(x, Pow2(n - 1));
    }
  }

  lemma {:induction false} ShrIsDiv(x: nat, n: nat)
    ensures Shr(x, n) == x / Pow2(n)
  {
    if n > 0 {
      ShrIsDiv(x / 2, n - 1);
      HalveAndDivide(x, Pow2(n - 1));
    }
  }

  /** Halving first and then dividing is dividing. */
  lemma HalveAndDivide(x: nat, d: nat)
    requires d > 0
    ensures x / (2 * d) == x / 2 / d
    ensures x % (2 * d) == 2 * (x / 2 % d) + x % 2
  {
    var q, r := x / 2 / d, x / 2 % d;
    assert x / 2 == d * q + r;
    assert 2 * d * q == 2 * (d * q);
    DivModUnique(x, 2 * d, q, 2 * r + x % 2);
  }

  // ---------------------------------------------------------------- bitwise facts

  lemma {:induction false} OrOfOnes(n: nat)
    ensures Or(Pow2(n), Pow2(n) - 1) == Pow2(n + 1) - 1
  {
    if n == 0 {
      assert Or(1, 0) == 2 * Or(0, 0) + 1;
    } else {
      OrOfOnes(n - 1);
      assert (Pow2(n) - 1) / 2 == Pow2(n - 1) - 1 && Pow2(n) / 2 == Pow2(n - 1);
    }
  }

  lemma {:induction false} AndWithOnes(x: nat, h: nat)
    ensures And(x, Pow2(h) - 1) == Low(x, h)
  {
    if h > 0 {
      AndWithOnes(x / 2, h - 1);
      assert (Pow2(h) - 1) / 2 == Pow2(h - 1) - 1;
    }
  }

  /** The mask of the bits from `l` up to, but not including, `h`. */
  lemma {:induction false} AndWithRange(x: nat, h: nat, l: nat)
    requires l <= h
    ensures Pow2(l) <= Pow2(h) && And(x, Pow2(h) - Pow2(l)) == Low(x, h) - Low(x, l)
  {
    hide And;
    if l == 0 {
      AndWithOnes(x, h);
    } else {
      AndWithRange(x / 2, h - 1, l - 1);
      AndWithEven(x, Pow2(h - 1) - Pow2(l - 1));
    }
  }

  lemma AndWithEven(x: nat, m: nat)
    ensures And(x, 2 * m) == 2 * And(x / 2, m)
  {
    assert 2 * m / 2 == m && 2 * m % 2 == 0;
  }

  /** The bits from `l` up to `h`, shifted down. */
  lemma {:induction false} RangeShifted(x: nat, h: nat, l: nat)
    requires l <= h
    ensures Pow2(l) <= Pow2(h) && Shr(And(x, Pow2(h) - Pow2(l)), l) == Low(Shr(x, l), h - l)
  {
    hide And, Low;
    if l == 0 {
      AndWithOnes(x, h);
    } else {
      RangeShifted(x / 2, h - 1, l - 1);
      AndWithEven(x, Pow2(h - 1) - Pow2(l - 1));
    }
  }

  lemma {:induction false} AndCommutes(x: nat, y: nat)
    ensures And(x, y) == And(y, x)
  {
    if x != 0 && y != 0 { AndCommutes(x / 2, y / 2); }
  }

  lemma {:induction false} AndAssociates(x: nat, y: nat, z: nat)
    ensures And(And(x, y), z) == And(x, And(y, z))
  {
    if x != 0 && y != 0 && z != 0 { AndAssociates(x / 2, y / 2, z / 2); }
  }

  /** One step of each operator, also where it stops. */
  lemma AndStep(x: nat, y: nat)
    ensures And(x, y) / 2 == And(x / 2, y / 2)
    ensures And(x, y) % 2 == if x % 2 == 1 && y % 2 == 1 then 1 else 0
  {
  }

  lemma OrStep(x: nat, y: nat)
    ensures Or(x, y) / 2 == Or(x / 2, y / 2)
    ensures Or(x, y) % 2 == if x % 2 == 1 || y % 2 == 1 then 1 else 0
  {
  }

  lemma {:induction false} AndOverOr(x: nat, y: nat, m: nat)
    ensures And(Or(x, y), m) == Or(And(x, m), And(y, m))
  {
    if m != 0 && !(x == 0 && y == 0) {
      AndOverOr(x / 2, y / 2, m / 2);
      OrStep(x, y);
      AndStep(x, m);
      AndStep(y, m);
      AndStep(Or(x, y), m);
      OrStep(And(x, m), And(y, m));
      hide And, Or;
      assert And(Or(x, y), m) / 2 == Or(And(x, m), And(y, m)) / 2;
    }
  }

  lemma {:induction false} OrCommutes(x: nat, y: nat)
    ensures Or(x, y) == Or(y, x)
  {
    if x != 0 || y != 0 { OrCommutes(x / 2, y / 2); }
  }

  lemma {:induction false} OrZero(x: nat)
    ensures Or(x, 0) == x
  {
    if x != 0 { OrZero(x / 2); }
  }

  lemma {:induction false} AndWithItself(x: nat)
    ensures And(x, x) == x
  {
    if x != 0 { AndWithItself(x / 2); }
  }

  // ---------------------------------------------------------------- what the helpers compute

  /** Clearing the low `k` bits of a word with the complement of a mask. */
  lemma ClearLow(w: nat, x: nat, k: nat)
    requires k <= w && x < Pow2(w)
    ensures Pow2(k) - 1 < Pow2(w) && And(x, Not(w, Pow2(k) - 1)) == x - Low(x, k)
  {
    hide And, Low, Pow2;
    AndWithRange(x, w, k);
    LowOfSmall(x, w);
  }

  /** A mask has the bits lo..hi; it is zero if they are given the wrong way round. */
  lemma MaskValue(w: nat, hi: nat, lo: nat)
    requires hi < w && lo < w
    ensures GetBitMask(w, hi, lo) == if lo <= hi then Pow2(hi + 1) - Pow2(lo) else 0
  {
    hide And, Or, Low, Pow2, GetBitMask;
    var ones := Pow2(hi + 1) - 1;
    MaskIsCleared(w, hi, lo);
    if lo <= hi {
      LowOfOnes(hi + 1, lo);
    } else {
      if hi + 1 < lo { Pow2Grows(hi + 1, lo); }
      LowOfSmall(ones, lo);
    }
  }

  lemma MaskIsCleared(w: nat, hi: nat, lo: nat)
    requires hi < w && lo < w
    ensures GetBitMask(w, hi, lo) == (Pow2(hi + 1) - 1) - Low(Pow2(hi + 1) - 1, lo)
  {
    hide And, Or, Low, GetBit, Not;
    BitBelowWord(w, hi);
    BitBelowWord(w, lo);
    OrOfOnes(hi);
    if hi + 1 < w { Pow2Grows(hi + 1, w); }
    ClearLow(w, Pow2(hi + 1) - 1, lo);
  }

  /** Reading a field is shifting down and keeping its width. */
  lemma FieldValue(w: nat, so: nat, hi: nat, lo: nat)
    requires lo <= hi < w
    ensures GetBitField(w, so, hi, lo) == so / Pow2(lo) % Pow2(hi - lo + 1)
  {
    FieldBits(w, so, hi, lo);
    ShrIsDiv(so, lo);
    LowIsMod(Shr(so, lo), hi - lo + 1);
  }

  lemma FieldBits(w: nat, so: nat, hi: nat, lo: nat)
    requires lo <= hi < w
    ensures GetBitField(w, so, hi, lo) == Low(Shr(so, lo), hi - lo + 1)
  {
    MaskValue(w, hi, lo);
    RangeShifted(so, hi + 1, lo);
  }

  /** What is set in a field is read back from it, cut to its width. */
  lemma SetThenGet(w: nat, v: nat, hi: nat, lo: nat)
    requires lo <= hi < w
    ensures GetBitField(w, SetBitField(w, v, hi, lo), hi, lo) == v % Pow2(hi - lo + 1)
  {
    var mask, y := GetBitMask(w, hi, lo), Shl(w, v, lo);
    AndAssociates(y, mask, mask);
    AndWithItself(mask);
    FieldBits(w, y, hi, lo);
    ShiftedBack(w, v, lo);
    LowOfLow(v, w - lo, hi - lo + 1);
    LowIsMod(v, hi - lo + 1);
  }

  /** Two fields that do not overlap have disjoint masks. */
  lemma MasksAreDisjoint(w: nat, hi: nat, lo: nat, hi': nat, lo': nat)
    requires lo <= hi < lo' <= hi' < w
    ensures And(GetBitMask(w, hi, lo), GetBitMask(w, hi', lo')) == 0
  {
    hide And, Low, Pow2, GetBitMask;
    MaskValue(w, hi, lo);
    MaskValue(w, hi', lo');
    var m := Pow2(hi + 1) - Pow2(lo);
    Pow2Grows(lo, hi + 1);
    if hi + 1 < lo' { Pow2Grows(hi + 1, lo'); }
    Pow2Grows(lo', hi' + 1);
    AndWithRange(m, hi' + 1, lo');
    LowOfSmall(m, hi' + 1);
    LowOfSmall(m, lo');
  }

  /** A value set in one field reads as zero in a field that does not overlap it. */
  lemma OtherFieldIsZero(w: nat, v: nat, hi: nat, lo: nat, hi': nat, lo': nat)
    requires lo <= hi < w && lo' <= hi' < w && (hi < lo' || hi' < lo)
    ensures And(SetBitField(w, v, hi', lo'), GetBitMask(w, hi, lo)) == 0
  {
    var y, m, m' := Shl(w, v, lo'), GetBitMask(w, hi, lo), GetBitMask(w, hi', lo');
    AndAssociates(y, m', m);
    AndCommutes(m, m');
    if hi < lo' { MasksAreDisjoint(w, hi, lo, hi', lo'); } else { MasksAreDisjoint(w, hi', lo', hi, lo); }
  }

  /** Fields packed by Or are independent: each reads back what was set in it. */
  lemma PackedFieldsAreIndependent(w: nat, a: nat, hi: nat, lo: nat, b: nat, hi': nat, lo': nat)
    requires lo <= hi < w && lo' <= hi' < w && (hi < lo' || hi' < lo)
    ensures var packed := Or(SetBitField(w, a, hi, lo), SetBitField(w, b, hi', lo'));
            && GetBitField(w, packed, hi, lo) == a % Pow2(hi - lo + 1)
            && GetBitField(w, packed, hi', lo') == b % Pow2(hi' - lo' + 1)
  {
    FirstFieldReadsBack(w, a, hi, lo, b, hi', lo');
    FirstFieldReadsBack(w, b, hi', lo', a, hi, lo);
    OrCommutes(SetBitField(w, a, hi, lo), SetBitField(w, b, hi', lo'));
  }

  lemma FirstFieldReadsBack(w: nat, a: nat, hi: nat, lo: nat, b: nat, hi': nat, lo': nat)
    requires lo <= hi < w && lo' <= hi' < w && (hi < lo' || hi' < lo)
    ensures GetBitField(w, Or(SetBitField(w, a, hi, lo), SetBitField(w, b, hi', lo')), hi, lo)
            == a % Pow2(hi - lo + 1)
  {
    var mask := GetBitMask(w, hi, lo);
    var x, y := SetBitField(w, a, hi, lo), SetBitField(w, b, hi', lo');
    AndOverOr(x, y, mask);
    OtherFieldIsZero(w, b, hi, lo, hi', lo');
    OrZero(And(x, mask));
    SetThenGet(w, a, hi, lo);
  }

  // ---------------------------------------------------------------- alignment

  /** Clearing the low `k` bits leaves a multiple of 2^k. */
  lemma Cleared(s: nat, k: nat)
    ensures (s - Low(s, k)) % Pow2(k) == 0
  {
    LowIsMod(s, k);
    RoundsDown(s, Pow2(k));
  }

  lemma RoundsDown(s: nat, d: nat)
    requires d > 0
    ensures (s - s % d) % d == 0
  {
    var q := s / d;
    assert s - s % d == d * q;
    DivModUnique(d * q, d, q, 0);
  }

  /** The sum is cut to the word; if that cuts anything, less than `align` is left. */
  lemma WordOfSum(w: nat, size: nat, k: nat)
    requires k < w && size < Pow2(w)
    ensures var sum := size + Pow2(k) - 1;
            Low(sum, w) == (if sum < Pow2(w) then sum else sum - Pow2(w))
            && (sum >= Pow2(w) ==> sum - Pow2(w) < Pow2(k))
  {
    var sum := size + Pow2(k) - 1;
    Pow2Grows(k, w);
    if sum < Pow2(w) {
      LowOfSmall(sum, w);
    } else {
      LowWraps(sum - Pow2(w), w);
      LowOfSmall(sum - Pow2(w), w);
    }
  }

  /**
    Aligning to a power of two gives the least multiple not below `size`, unless the addition
    wraps in `w` bits: then it gives 0.
   */
  lemma AlignedValue(w: nat, size: nat, k: nat)
    requires k < w && size < Pow2(w)
    ensures Pow2(k) < Pow2(w)
    ensures var r := AlignValue(w, size, Pow2(k));
            if size + Pow2(k) - 1 < Pow2(w) then r % Pow2(k) == 0 && size <= r < size + Pow2(k) else r == 0
  {
    hide And, Low, Pow2, Not;
    Pow2Grows(k, w);
    WordOfSum(w, size, k);
    var s := Low(size + Pow2(k) - 1, w);
    ClearLow(w, s, k);
    if size + Pow2(k) - 1 < Pow2(w) {
      Cleared(s, k);
    } else {
      LowOfSmall(s, k);
    }
  }

  // Alignments that are no power of two.

  ghost predicate IsPow2(a: nat) {
    exists k: nat :: a == Pow2(k)
  }

  /** Rounding up: the least multiple of `align` not below `size`. */
  predicate RoundedUp(r: nat, size: nat, align: nat)
    requires align > 0
  {
    r % align == 0 && size <= r < size + align
  }

  ghost predicate Aligns(w: nat, align: nat)
    requires 0 < align < Pow2(w)
  {
    forall size :: 0 <= size && size + align - 1 < Pow2(w) ==> RoundedUp(AlignValue(w, size, align), size, align)
  }

  /**
    alignValue rounds up, for every size whose sum does not wrap, exactly when the alignment is a
    power of two; for any other it already fails on size 1.
   */
  lemma AlignsIff(w: nat, align: nat)
    requires 0 < align < Pow2(w)
    ensures Aligns(w, align) <==> IsPow2(align)
  {
    if IsPow2(align) {
      var k: nat :| align == Pow2(k);
      forall size | 0 <= size && size + align - 1 < Pow2(w)
        ensures RoundedUp(AlignValue(w, size, align), size, align)
      {
        Pow2Below(k, w);
        AlignedValue(w, size, k);
      }
    } else {
      LowestBit(w, align);
      LowOfSmall(align, w);
      var r := AlignValue(w, 1, align);
      AndBelow(align, Not(w, align - 1));
      assert r == And(align, Not(w, align - 1)) < align;
      if RoundedUp(r, 1, align) { SmallMultiple(r, align); }
    }
  }

  lemma Pow2Below(k: nat, w: nat)
    requires Pow2(k) < Pow2(w)
    ensures k < w
  {
    if w < k { Pow2Grows(w, k); }
  }

  lemma SmallMultiple(r: nat, d: nat)
    requires 0 < d && r < d && r % d == 0
    ensures r == 0
  {
  }

  lemma {:induction false} AndBelow(x: nat, y: nat)
    ensures And(x, y) <= x
  {
    if x != 0 && y != 0 { AndBelow(x / 2, y / 2); }
  }

  lemma {:induction false} AndNot(w: nat, x: nat)
    requires x < Pow2(w)
    ensures And(x, Not(w, x)) == 0
  {
    if x > 0 {
      AndNot(w - 1, x / 2);
      assert Not(w, x) / 2 == Not(w - 1, x / 2) && Not(w, x) % 2 == 1 - x % 2;
    }
  }

  /** `a & ~(a - 1)` keeps the lowest bit of `a` only. */
  lemma {:induction false} LowestBit(w: nat, a: nat)
    requires 0 < a < Pow2(w)
    ensures And(a, Not(w, a - 1)) == a <==> IsPow2(a)
  {
    var b := a / 2;
    if a % 2 == 1 {
      assert Not(w, a - 1) == 2 * Not(w - 1, b) + 1;
      AndNot(w - 1, b);
      AndStep(a, Not(w, a - 1));
      assert And(a, Not(w, a - 1)) == 1;
      OddPow2(a);
    } else {
      assert Not(w, a - 1) == 2 * Not(w - 1, b - 1);
      AndWithEven(a, Not(w - 1, b - 1));
      LowestBit(w - 1, b);
      HalfPow2(a);
    }
  }

  lemma OddPow2(a: nat)
    requires a % 2 == 1
    ensures IsPow2(a) <==> a == 1
  {
    assert Pow2(0) == 1;
  }

  lemma HalfPow2(a: nat)
    requires a > 0 && a % 2 == 0
    ensures IsPow2(a) <==> IsPow2(a / 2)
  {
    if IsPow2(a / 2) {
      var k: nat :| a / 2 == Pow2(k);
      assert a == Pow2(k + 1);
    }
    if IsPow2(a) {
      var k: nat :| a == Pow2(k);
      assert a / 2 == Pow2(k - 1);
    }
  }
}
