/**
  ASL buffer fields: `CreateField` views of a byte buffer as a flat sequence of bits, the
  physical-location buffers that `TPLD` and `GPLD` fill through them, and the task-file
  commands that `GTFB` appends.
 */
module BufferFields {
  import opened Common
  import opened ConfigSpace
  import opened BitFields

  // ---------------------------------------------------------------- numbers, bytes and bits

  /** The low `n` bits of `v`, least significant first. */
  function ToBits(v: nat, n: nat): (bs: seq<bool>)
    ensures |bs| == n
  {
    if n == 0 then [] else [v % 2 == 1] + ToBits(v / 2, n - 1)
  }

  function FromBits(bs: seq<bool>): nat {
    if bs == [] then 0 else (if bs[0] then 1 else 0) + 2 * FromBits(bs[1..])
  }

  lemma {:induction false} FromToBits(v: nat, n: nat)
    ensures FromBits(ToBits(v, n)) == v % Pow2(n)
  {
    if n == 0 {
      assert v % 1 == 0;
    } else {
      FromToBits(v / 2, n - 1);
      assert ToBits(v, n)[1..] == ToBits(v / 2, n - 1);
      HalveAndDivide(v, Pow2(n - 1));
    }
  }

  lemma {:induction false} ToFromBits(bs: seq<bool>)
    ensures ToBits(FromBits(bs), |bs|) == bs && FromBits(bs) < Pow2(|bs|)
  {
    if bs != [] { ToFromBits(bs[1..]); }
  }

  function Octet(b: Byte): (bs: seq<bool>)
    ensures |bs| == 8
  {
    ToBits(b, 8)
  }

  lemma EightBits()
    ensures Pow2(8) == 256
  {
    assert Pow2(2) == 4 && Pow2(4) == 4 * Pow2(2) && Pow2(6) == 4 * Pow2(4) && Pow2(8) == 4 * Pow2(6);
  }

  lemma OctetDetermines(b: Byte)
    ensures FromBits(Octet(b)) == b
  {
    hide ToBits, FromBits;
    FromToBits(b, 8);
    EightBits();
  }

  /** The flat bits of a buffer: bit k of byte i stands at 8i + k. */
  function Bits(buf: seq<Byte>): (bs: seq<bool>)
    ensures |bs| == 8 * |buf|
  {
    if buf == [] then [] else Octet(buf[0]) + Bits(buf[1..])
  }

  lemma {:induction false} BitsOfParts(a: seq<Byte>, b: seq<Byte>)
    ensures Bits(a + b) == Bits(a) + Bits(b)
  {
    hide Octet;
    if a == [] {
      assert a + b == b;
    } else {
      BitsOfParts(a[1..], b);
      var first, rest := Octet(a[0]), Bits(a[1..]);
      assert (a + b)[0] == a[0] && (a + b)[1..] == a[1..] + b;
      assert first + (rest + Bits(b)) == first + rest + Bits(b);
    }
  }

  /** Buffers with equal bits are equal. */
  lemma {:induction false} BitsDetermine(a: seq<Byte>, b: seq<Byte>)
    requires Bits(a) == Bits(b)
    ensures a == b
  {
    hide Octet, FromBits;
    assert |Bits(a)| == 8 * |a| && |Bits(b)| == 8 * |b|;
    if a != [] {
      assert Octet(a[0]) == Bits(a)[..8] && Bits(a[1..]) == Bits(a)[8..];
      assert Octet(b[0]) == Bits(b)[..8] && Bits(b[1..]) == Bits(b)[8..];
      BitsDetermine(a[1..], b[1..]);
      OctetDetermines(a[0]);
      OctetDetermines(b[0]);
      assert a == [a[0]] + a[1..] && b == [b[0]] + b[1..];
    }
  }

  // ---------------------------------------------------------------- fields

  /** The number that the field of `n` bits at `at` holds. */
  function Field(buf: seq<Byte>, at: nat, n: nat): nat
    requires at + n <= 8 * |buf|
  {
    FromBits(Bits(buf)[at..at + n])
  }

  /** The byte with bit `j` set to `bit`. */
  function WithBit(b: Byte, j: nat, bit: bool): (b': Byte)
    requires j < 8
    ensures Octet(b') == Octet(b)[j := bit]
  {
    ToFromBits(Octet(b)[j := bit]);
    EightBits();
    FromBits(Octet(b)[j := bit])
  }

  lemma BitsOfUpdate(buf: seq<Byte>, i: nat, b: Byte, j: nat, bit: bool)
    requires i < |buf| && j < 8 && Octet(b) == Octet(buf[i])[j := bit]
    ensures Bits(buf[i := b]) == Bits(buf)[8 * i + j := bit]
  {
    hide Octet;
    var l, r := buf[..i], buf[i + 1..];
    assert buf == l + [buf[i]] + r && buf[i := b] == l + [b] + r;
    BitsOfThree(l, buf[i], r);
    BitsOfThree(l, b, r);
  }

  lemma BitsOfThree(l: seq<Byte>, b: Byte, r: seq<Byte>)
    ensures Bits(l + [b] + r) == Bits(l) + Octet(b) + Bits(r)
  {
    hide Octet;
    BitsOfParts(l + [b], r);
    BitsOfParts(l, [b]);
    assert [b][1..] == [];
  }

  /** Storing through CreateField(buf, at, |f|): bit by bit, across byte boundaries. */
  method StoreField(buf: array<Byte>, at: nat, f: seq<bool>)
    requires at + |f| <= 8 * buf.Length
    modifies buf
    ensures Bits(buf[..]) == Splice(old(Bits(buf[..])), at, f)
  {
    hide Bits;
    ghost var before := Bits(buf[..]);
    assert Splice(before, at, f[..0]) == before;
    for k := 0 to |f|
      invariant Bits(buf[..]) == Splice(before, at, f[..k])
    {
      StoreBit(buf, at + k, f[k]);
      PutOneMore(before, at, f, k);
    }
    assert f[..|f|] == f;
  }

  method StoreBit(buf: array<Byte>, p: nat, bit: bool)
    requires p < 8 * buf.Length
    modifies buf
    ensures Bits(buf[..]) == old(Bits(buf[..]))[p := bit]
  {
    hide Octet, Bits, WithBit;
    var i, j := p / 8, p % 8;
    ghost var now := buf[..];
    buf[i] := WithBit(buf[i], j, bit);
    assert buf[..] == now[i := buf[i]];
    BitsOfUpdate(now, i, buf[i], j, bit);
  }

  lemma PutOneMore(bs: seq<bool>, at: nat, f: seq<bool>, k: nat)
    requires at + |f| <= |bs| && k < |f|
    ensures Splice(bs, at, f[..k])[at + k := f[k]] == Splice(bs, at, f[..k + 1])
  {
  }

  /** A field reads back what was put into it; a field elsewhere reads as before. */
  lemma PutThenTake(bs: seq<bool>, at: nat, f: seq<bool>, lo: nat, hi: nat)
    requires at + |f| <= |bs| && lo <= hi <= |bs|
    ensures Splice(bs, at, f)[at..at + |f|] == f
    ensures hi <= at || at + |f| <= lo ==> Splice(bs, at, f)[lo..hi] == bs[lo..hi]
  {
    forall k | lo <= k < hi && (k < at || at + |f| <= k)
      ensures Splice(bs, at, f)[k] == bs[k]
    {
    }
  }

  /** A field store, in numbers: the field holds the value modulo its width, disjoint fields are untouched. */
  lemma FieldAfterStore(buf: seq<Byte>, buf': seq<Byte>, at: nat, n: nat, v: nat, at': nat, n': nat)
    requires at + n <= 8 * |buf| && at' + n' <= 8 * |buf| && |buf'| == |buf|
    requires Bits(buf') == Splice(Bits(buf), at, ToBits(v, n))
    ensures Field(buf', at, n) == v % Pow2(n)
    ensures at' + n' <= at || at + n <= at' ==> Field(buf', at', n') == Field(buf, at', n')
  {
    hide Bits, FromBits, ToBits, Pow2;
    PutThenTake(Bits(buf), at, ToBits(v, n), at', at' + n');
    FromToBits(v, n);
  }

  // ---------------------------------------------------------------- what the flat bits are, in arithmetic

  /** Bit k of a number is its quotient by 2^k, modulo two. */
  lemma {:induction false} BitOfNumber(v: nat, n: nat, k: nat)
    requires k < n
    ensures ToBits(v, n)[k] <==> v / Pow2(k) % 2 == 1
  {
    if k > 0 {
      BitOfNumber(v / 2, n - 1, k - 1);
      HalveAndDivide(v, Pow2(k - 1));
    }
  }

  /** The bit at 8i + k of a buffer is bit k of its byte i. */
  lemma BitOfByte(buf: seq<Byte>, i: nat, k: nat)
    requires i < |buf| && k < 8
    ensures Bits(buf)[8 * i + k] <==> buf[i] / Pow2(k) % 2 == 1
  {
    OctetInBuffer(buf, i);
    assert Bits(buf)[8 * i + k] == Bits(buf)[8 * i..8 * i + 8][k];
    BitOfNumber(buf[i], 8, k);
  }

  lemma OctetInBuffer(buf: seq<Byte>, i: nat)
    requires i < |buf|
    ensures Bits(buf)[8 * i..8 * i + 8] == Octet(buf[i])
  {
    hide Octet, Bits;
    var l, r := buf[..i], buf[i + 1..];
    assert buf == l + [buf[i]] + r;
    BitsOfThree(l, buf[i], r);
  }

  lemma {:induction false} FromBitsOfParts(a: seq<bool>, b: seq<bool>)
    ensures FromBits(a + b) == FromBits(a) + Pow2(|a|) * FromBits(b)
  {
    if a == [] {
      assert a + b == b;
    } else {
      FromBitsOfParts(a[1..], b);
      assert (a + b)[1..] == a[1..] + b;
      TwiceProduct(Pow2(|a| - 1), FromBits(b));
    }
  }

  lemma TwiceProduct(p: nat, x: nat)
    ensures 2 * (p * x) == 2 * p * x
  {
  }

  /** The bits of a buffer, as a number, are its bytes as a little-endian number. */
  lemma {:induction false} BufferIsLittleEndian(buf: seq<Byte>)
    ensures FromBits(Bits(buf)) == FromBytes(buf)
  {
    hide FromBits, Octet, Pow2;
    if buf == [] {
      EmptyIsZero();
    } else {
      BufferIsLittleEndian(buf[1..]);
      FromBitsOfParts(Octet(buf[0]), Bits(buf[1..]));
      OctetDetermines(buf[0]);
      EightBits();
    }
  }

  lemma EmptyIsZero()
    ensures FromBits([]) == 0
  {
  }

  /** A field is that number shifted down by its position and cut to its width. */
  lemma FieldIsArithmetic(buf: seq<Byte>, at: nat, n: nat)
    requires at + n <= 8 * |buf|
    ensures Field(buf, at, n) == FromBytes(buf) / Pow2(at) % Pow2(n)
  {
    hide Bits, FromBits, FromBytes, Pow2;
    var bs := Bits(buf);
    var l, m, r := bs[..at], bs[at..at + n], bs[at + n..];
    BufferIsLittleEndian(buf);
    FromBitsOfParts(l, m + r);
    FromBitsOfParts(m, r);
    assert bs == l + (m + r);
    ToFromBits(l);
    ToFromBits(m);
    QuotientCut(FromBits(bs), Pow2(at), FromBits(l), FromBits(m + r), Pow2(n), FromBits(m), FromBits(r));
  }

  lemma QuotientCut(x: nat, p: nat, low: nat, high: nat, q: nat, mid: nat, rest: nat)
    requires x == low + p * high && low < p && high == mid + q * rest && mid < q
    ensures x / p % q == mid
  {
    DivModUnique(x, p, high, low);
    DivModUnique(high, q, rest, mid);
  }

  /** Two fields side by side. */
  lemma FieldsJoin(buf: seq<Byte>, at: nat, n: nat, m: nat)
    requires at + n + m <= 8 * |buf|
    ensures Field(buf, at, n + m) == Field(buf, at, n) + Pow2(n) * Field(buf, at + n, m)
  {
    hide Bits, FromBits, Pow2;
    var bs := Bits(buf);
    FromBitsOfParts(bs[at..at + n], bs[at + n..at + n + m]);
    assert bs[at..at + n] + bs[at + n..at + n + m] == bs[at..at + n + m];
  }

  /** A byte is a field of eight bits. */
  lemma ByteIsField(buf: seq<Byte>, i: nat)
    requires i < |buf|
    ensures Field(buf, 8 * i, 8) == buf[i]
  {
    hide Bits, FromBits, Octet;
    OctetInBuffer(buf, i);
    OctetDetermines(buf[i]);
  }

  // ---------------------------------------------------------------- _PLD

  // Fields of the physical location buffer, section 6.1.8 of the ACPI Specification 6.4.
  datatype Span = Span(at: nat, n: nat)

  const REV := Span(0x00, 7)
  const WID := Span(0x20, 16)
  const HGT := Span(0x30, 16)
  const VISI := Span(0x40, 1)
  const SHAP := Span(0x4A, 4)
  const GPOS := Span(0x57, 8)

  function Read(buf: seq<Byte>, f: Span): nat
    requires f.at + f.n <= 8 * |buf|
  {
    Field(buf, f.at, f.n)
  }

  /** The spans of TPLD and GPLD. */
  predicate PldSpan(f: Span) {
    f in {REV, WID, HGT, VISI, SHAP, GPOS}
  }

  predicate Apart(f: Span, g: Span) {
    f.at + f.n <= g.at || g.at + g.n <= f.at
  }

  /** A range of the buffer that meets none of the spans. */
  ghost predicate Elsewhere(g: Span) {
    g.at + g.n <= 128 && forall f :: PldSpan(f) ==> Apart(f, g)
  }

  /** What has been written where; everything not written reads as zero. */
  ghost predicate Written(buf: seq<Byte>, w: map<Span, nat>) {
    && |buf| == 16
    && (forall f :: PldSpan(f) ==> Read(buf, f) == if f in w then w[f] % Pow2(f.n) else 0)
    && (forall g :: Elsewhere(g) ==> Read(buf, g) == 0)
  }

  // The bytes of such a buffer.

  /** What a span of it reads as. */
  function Stored(w: map<Span, nat>, f: Span): nat {
    if f in w then w[f] % Pow2(f.n) else 0
  }

  function Word(low: Byte, high: Byte): nat {
    low as nat + 256 * (high as nat)
  }

  lemma ReadStored(buf: seq<Byte>, w: map<Span, nat>, f: Span)
    requires Written(buf, w) && PldSpan(f)
    ensures f.at + f.n <= 8 * |buf| && Field(buf, f.at, f.n) == Stored(w, f)
  {
    hide Field, Pow2;
    assert Read(buf, f) == Stored(w, f);
  }

  lemma ReadGap(buf: seq<Byte>, w: map<Span, nat>, g: Span)
    requires Written(buf, w) && Elsewhere(g)
    ensures g.at + g.n <= 8 * |buf| && Field(buf, g.at, g.n) == 0
  {
    hide Field, Pow2;
    assert Read(buf, g) == 0;
  }

  /** The bits around the spans that share a byte with them. */
  lemma Gaps()
    ensures Elsewhere(Span(7, 1)) && Elsewhere(Span(65, 7)) && Elsewhere(Span(72, 2)) && Elsewhere(Span(78, 2))
    ensures Elsewhere(Span(80, 7)) && Elsewhere(Span(95, 1))
  {
  }

  /** A byte that no span meets. */
  lemma ByteElsewhere(buf: seq<Byte>, w: map<Span, nat>, i: nat)
    requires Written(buf, w) && i in {1, 2, 3, 12, 13, 14, 15}
    ensures buf[i] == 0
  {
    assert Elsewhere(Span(8 * i, 8));
    hide Field, Written, Elsewhere;
    ReadGap(buf, w, Span(8 * i, 8));
    ByteIsField(buf, i);
  }

  /** Revision, in byte 0. */
  lemma RevisionByte(buf: seq<Byte>, w: map<Span, nat>)
    requires Written(buf, w)
    ensures buf[0] == Stored(w, REV)
  {
    hide Field, Written, Stored, Pow2, Elsewhere;
    Gaps();
    ReadGap(buf, w, Span(7, 1));
    ReadStored(buf, w, REV);
    FieldsJoin(buf, 0, 7, 1);
    ByteIsField(buf, 0);
  }

  /** Visibility, in byte 8. */
  lemma VisibleByte(buf: seq<Byte>, w: map<Span, nat>)
    requires Written(buf, w)
    ensures buf[8] == Stored(w, VISI)
  {
    hide Field, Written, Stored, Pow2, Elsewhere;
    Gaps();
    ReadGap(buf, w, Span(65, 7));
    ReadStored(buf, w, VISI);
    FieldsJoin(buf, 64, 1, 7);
    ByteIsField(buf, 8);
  }

  /** Width and height, low byte first, in bytes 4 to 7. */
  lemma SizeBytes(buf: seq<Byte>, w: map<Span, nat>)
    requires Written(buf, w)
    ensures Word(buf[4], buf[5]) == Stored(w, WID) && Word(buf[6], buf[7]) == Stored(w, HGT)
  {
    hide Field, Written, Stored;
    ReadStored(buf, w, WID);
    ReadStored(buf, w, HGT);
    WordIsField(buf, 4);
    WordIsField(buf, 6);
  }

  lemma WordIsField(buf: seq<Byte>, i: nat)
    requires i + 1 < |buf|
    ensures Field(buf, 8 * i, 16) == Word(buf[i], buf[i + 1])
  {
    EightBits();
    hide Field, Pow2;
    FieldsJoin(buf, 8 * i, 8, 8);
    ByteIsField(buf, i);
    ByteIsField(buf, i + 1);
  }

  /** Shape, in the middle of byte 9. */
  lemma ShapeByte(buf: seq<Byte>, w: map<Span, nat>)
    requires Written(buf, w)
    ensures buf[9] == 4 * Stored(w, SHAP)
  {
    assert Pow2(2) == 4 && Pow2(4) == 4 * Pow2(2);
    hide Field, Written, Stored, Pow2, Elsewhere;
    Gaps();
    ReadGap(buf, w, Span(72, 2));
    ReadGap(buf, w, Span(78, 2));
    ReadStored(buf, w, SHAP);
    FieldsJoin(buf, 72, 2, 6);
    FieldsJoin(buf, 74, 4, 2);
    ByteIsField(buf, 9);
  }

  /** Group position, across bytes 10 and 11. */
  lemma PositionBytes(buf: seq<Byte>, w: map<Span, nat>)
    requires Written(buf, w)
    ensures buf[10] == 128 * (Stored(w, GPOS) % 2) && buf[11] == Stored(w, GPOS) / 2
  {
    OneBit(buf, 87);
    PldWidths();
    hide Field, Written, Stored, Pow2, Elsewhere;
    Gaps();
    ReadGap(buf, w, Span(80, 7));
    ReadGap(buf, w, Span(95, 1));
    ReadStored(buf, w, GPOS);
    FieldsJoin(buf, 80, 7, 1);
    ByteIsField(buf, 10);
    FieldsJoin(buf, 88, 7, 1);
    ByteIsField(buf, 11);
    FieldsJoin(buf, 87, 1, 7);
    LowBit(Stored(w, GPOS), Field(buf, 87, 1), Field(buf, 88, 7));
  }

  lemma LowBit(v: nat, low: nat, rest: nat)
    requires v == low + 2 * rest && low < 2
    ensures low == v % 2 && rest == v / 2
  {
  }

  lemma OneBit(buf: seq<Byte>, at: nat)
    requires at < 8 * |buf|
    ensures Field(buf, at, 1) < 2
  {
    ToFromBits(Bits(buf)[at..at + 1]);
    PldWidths();
  }

  /** All sixteen bytes. */
  lemma PldBytes(buf: seq<Byte>, w: map<Span, nat>)
    requires Written(buf, w)
    ensures |buf| == 16
    ensures var pos := Stored(w, GPOS);
            && buf[0] == Stored(w, REV) && buf[1] == buf[2] == buf[3] == 0
            && Word(buf[4], buf[5]) == Stored(w, WID) && Word(buf[6], buf[7]) == Stored(w, HGT)
            && buf[8] == Stored(w, VISI) && buf[9] == 4 * Stored(w, SHAP)
            && buf[10] == 128 * (pos % 2) && buf[11] == pos / 2
            && buf[12] == buf[13] == buf[14] == buf[15] == 0
  {
    RevisionByte(buf, w);
    VisibleByte(buf, w);
    SizeBytes(buf, w);
    ShapeByte(buf, w);
    PositionBytes(buf, w);
    ByteElsewhere(buf, w, 1);
    ByteElsewhere(buf, w, 2);
    ByteElsewhere(buf, w, 3);
    ByteElsewhere(buf, w, 12);
    ByteElsewhere(buf, w, 13);
    ByteElsewhere(buf, w, 14);
    ByteElsewhere(buf, w, 15);
  }

  /** The bytes that TPLD returns. */
  lemma TPLDBytes(buf: seq<Byte>, arg0: nat, arg1: nat)
    requires Written(buf, map[REV := 1, VISI := arg0, GPOS := arg1, SHAP := 1, WID := 8, HGT := 3])
    ensures buf == [1, 0, 0, 0, 8, 0, 3, 0, arg0 % 2, 4, 128 * (arg1 % 2), arg1 / 2 % 128, 0, 0, 0, 0]
  {
    hide Written, Stored;
    TPLDStored(arg0, arg1);
    BytesOf(buf, map[REV := 1, VISI := arg0, GPOS := arg1, SHAP := 1, WID := 8, HGT := 3], 1, 8, 3, arg0, arg1);
  }

  lemma TPLDStored(arg0: nat, arg1: nat)
    ensures var w := map[REV := 1, VISI := arg0, GPOS := arg1, SHAP := 1, WID := 8, HGT := 3];
            && Stored(w, REV) == 1 && Stored(w, VISI) == arg0 % 2 && Stored(w, GPOS) == arg1 % 256
            && Stored(w, SHAP) == 1 && Stored(w, WID) == 8 && Stored(w, HGT) == 3
  {
    PldWidths();
    Below(8, Pow2(16));
    Below(3, Pow2(16));
    hide Pow2;
  }

  /** The bytes that GPLD returns. */
  lemma GPLDBytes(buf: seq<Byte>, arg0: nat, arg1: nat)
    requires Written(buf, map[REV := 1, VISI := arg0, GPOS := arg1])
    ensures buf == [1, 0, 0, 0, 0, 0, 0, 0, arg0 % 2, 0, 128 * (arg1 % 2), arg1 / 2 % 128, 0, 0, 0, 0]
  {
    hide Written, Stored;
    GPLDStored(arg0, arg1);
    BytesOf(buf, map[REV := 1, VISI := arg0, GPOS := arg1], 0, 0, 0, arg0, arg1);
  }

  lemma GPLDStored(arg0: nat, arg1: nat)
    ensures var w := map[REV := 1, VISI := arg0, GPOS := arg1];
            && Stored(w, REV) == 1 && Stored(w, VISI) == arg0 % 2 && Stored(w, GPOS) == arg1 % 256
            && Stored(w, SHAP) == 0 && Stored(w, WID) == 0 && Stored(w, HGT) == 0
  {
    PldWidths();
    hide Pow2;
  }

  /** The bytes of a buffer with revision one and small sizes. */
  lemma BytesOf(buf: seq<Byte>, w: map<Span, nat>, shape: Byte, wid: Byte, hgt: Byte, visi: nat, gpos: nat)
    requires Written(buf, w) && shape < 16
    requires Stored(w, REV) == 1 && Stored(w, VISI) == visi % 2 && Stored(w, GPOS) == gpos % 256
    requires Stored(w, SHAP) == shape && Stored(w, WID) == wid && Stored(w, HGT) == hgt
    ensures buf == [1, 0, 0, 0, wid, 0, hgt, 0, visi % 2, 4 * shape, 128 * (gpos % 2), gpos / 2 % 128, 0, 0, 0, 0]
  {
    hide Written, Stored;
    PldBytes(buf, w);
    Wide(gpos);
    SixteenBytes(buf, wid, hgt, visi % 2, 4 * shape, 128 * (gpos % 2), gpos / 2 % 128);
  }

  lemma Wide(v: nat)
    ensures v % 256 % 2 == v % 2 && v % 256 / 2 == v / 2 % 128
  {
  }

  lemma SixteenBytes(buf: seq<Byte>, b4: Byte, b6: Byte, b8: Byte, b9: Byte, b10: Byte, b11: Byte)
    requires |buf| == 16 && buf[0] == 1 && buf[1] == buf[2] == buf[3] == 0 && buf[4] == b4 && buf[5] == 0
    requires buf[6] == b6 && buf[7] == 0 && buf[8] == b8 && buf[9] == b9 && buf[10] == b10 && buf[11] == b11
    requires buf[12] == buf[13] == buf[14] == buf[15] == 0
    ensures buf == [1, 0, 0, 0, b4, 0, b6, 0, b8, b9, b10, b11, 0, 0, 0, 0]
  {
  }

  method Store(buf: array<Byte>, f: Span, v: nat, ghost w: map<Span, nat>) returns (ghost w': map<Span, nat>)
    requires PldSpan(f) && Written(buf[..], w)
    modifies buf
    ensures w' == w[f := v] && Written(buf[..], w')
  {
    hide Bits, ToBits, Field;
    ghost var before := buf[..];
    StoreField(buf, f.at, ToBits(v, f.n));
    w' := w[f := v];
    forall g | PldSpan(g)
      ensures Read(buf[..], g) == if g in w' then w'[g] % Pow2(g.n) else 0
    {
      FieldAfterStore(before, buf[..], f.at, f.n, v, g.at, g.n);
    }
    forall g | Elsewhere(g)
      ensures Read(buf[..], g) == 0
    {
      assert Apart(f, g);
      FieldAfterStore(before, buf[..], f.at, f.n, v, g.at, g.n);
    }
  }

  lemma {:induction false} ZerosRead(buf: seq<Byte>, lo: nat, hi: nat)
    requires (forall i :: 0 <= i < |buf| ==> buf[i] == 0) && lo <= hi <= 8 * |buf|
    ensures FromBits(Bits(buf)[lo..hi]) == 0
  {
    ZeroBits(buf);
    NoBits(Bits(buf)[lo..hi]);
  }

  lemma {:induction false} ZeroBits(buf: seq<Byte>)
    requires forall i :: 0 <= i < |buf| ==> buf[i] == 0
    ensures forall k :: 0 <= k < 8 * |buf| ==> !Bits(buf)[k]
  {
    if buf != [] {
      ZeroBits(buf[1..]);
      ZeroOctet(8);
      forall k | 0 <= k < 8 * |buf|
        ensures !Bits(buf)[k]
      {
        hide ToBits;
        if k < 8 { assert Bits(buf)[k] == Octet(0)[k]; } else { assert Bits(buf)[k] == Bits(buf[1..])[k - 8]; }
      }
    }
  }

  lemma {:induction false} ZeroOctet(n: nat)
    ensures forall k :: 0 <= k < n ==> !ToBits(0, n)[k]
  {
    if n > 0 { ZeroOctet(n - 1); }
  }

  lemma {:induction false} NoBits(bs: seq<bool>)
    requires forall k :: 0 <= k < |bs| ==> !bs[k]
    ensures FromBits(bs) == 0
  {
    if bs != [] { NoBits(bs[1..]); }
  }

  /** An empty physical-location buffer. */
  method ZeroBuffer() returns (buf: array<Byte>)
    ensures fresh(buf) && Written(buf[..], map[])
  {
    buf := new Byte[16](_ => 0);
    forall f: Span | f.at + f.n <= 128
      ensures Read(buf[..], f) == 0
    {
      ZerosRead(buf[..], f.at, f.at + f.n);
    }
  }

  /** GPLD: revision, visibility and group position; all else stays zero. */
  method GPLD(arg0: nat, arg1: nat) returns (buf: array<Byte>)
    ensures fresh(buf) && Written(buf[..], map[REV := 1, VISI := arg0, GPOS := arg1])
    ensures buf[..] == [1, 0, 0, 0, 0, 0, 0, 0, arg0 % 2, 0, 128 * (arg1 % 2), arg1 / 2 % 128, 0, 0, 0, 0]
  {
    ghost var w := map[];
    buf := ZeroBuffer();
    w := Store(buf, REV, 1, w);
    w := Store(buf, VISI, arg0, w);
    w := Store(buf, GPOS, arg1, w);
    GPLDBytes(buf[..], arg0, arg1);
  }

  /** TPLD: as GPLD, and the shape, width and height of the connector. */
  method TPLD(arg0: nat, arg1: nat) returns (buf: array<Byte>)
    ensures fresh(buf)
    ensures Written(buf[..], map[REV := 1, VISI := arg0, GPOS := arg1, SHAP := 1, WID := 8, HGT := 3])
    ensures buf[..] == [1, 0, 0, 0, 8, 0, 3, 0, arg0 % 2, 4, 128 * (arg1 % 2), arg1 / 2 % 128, 0, 0, 0, 0]
  {
    ghost var w := map[];
    buf := ZeroBuffer();
    w := Store(buf, REV, 1, w);
    w := Store(buf, VISI, arg0, w);
    w := Store(buf, GPOS, arg1, w);
    w := Store(buf, SHAP, 1, w);
    w := Store(buf, WID, 8, w);
    w := Store(buf, HGT, 3, w);
    TPLDBytes(buf[..], arg0, arg1);
  }

  /** What a reader of the buffer that TPLD returns decodes. */
  lemma TPLDDecodes(buf: seq<Byte>, arg0: nat, arg1: nat)
    requires Written(buf, map[REV := 1, VISI := arg0, GPOS := arg1, SHAP := 1, WID := 8, HGT := 3])
    ensures Read(buf, REV) == 1 && Read(buf, SHAP) == 1 && Read(buf, WID) == 8 && Read(buf, HGT) == 3
    ensures arg0 < 2 ==> Read(buf, VISI) == arg0
    ensures arg1 < 256 ==> Read(buf, GPOS) == arg1
  {
    var w := map[REV := 1, VISI := arg0, GPOS := arg1, SHAP := 1, WID := 8, HGT := 3];
    PldWidths();
    hide Read, Pow2, Written;
    ReadsBack(buf, w, REV);
    ReadsBack(buf, w, SHAP);
    ReadsBack(buf, w, WID);
    ReadsBack(buf, w, HGT);
    ReadsBack(buf, w, VISI);
    ReadsBack(buf, w, GPOS);
  }

  lemma PldWidths()
    ensures Pow2(1) == 2 && Pow2(4) == 16 && Pow2(7) == 128 && Pow2(8) == 256 && Pow2(16) >= 256
  {
    EightBits();
    Pow2Grows(8, 16);
  }

  lemma ReadsBack(buf: seq<Byte>, w: map<Span, nat>, f: Span)
    requires Written(buf, w) && PldSpan(f) && f in w
    ensures f.at + f.n <= 8 * |buf|
    ensures w[f] < Pow2(f.n) ==> Read(buf, f) == w[f]
  {
    hide Read, Pow2;
    if w[f] < Pow2(f.n) { Below(w[f], Pow2(f.n)); }
  }

  lemma Below(x: nat, d: nat)
    requires x < d
    ensures x % d == x
  {
  }

  // ---------------------------------------------------------------- task-file commands

  /** What a 56-bit field keeps of a buffer: seven bytes, the rest cut off or zero. */
  function Sevenfold(arg0: seq<Byte>): (bytes: seq<Byte>)
    ensures |bytes| == 7
  {
    seq(7, i requires 0 <= i < 7 => if i < |arg0| then arg0[i] else 0)
  }

  /** A command as GTFB leaves it: seven bytes, byte 1 replaced by the low byte of `arg1`. */
  function Command(arg0: seq<Byte>, arg1: nat): (bytes: seq<Byte>)
    ensures |bytes| == 7
  {
    Sevenfold(arg0)[1 := arg1 % 256]
  }

  class TaskFile {
    const SCBF: array<Byte>
    var CMDC: nat

    constructor ()
      ensures fresh(SCBF) && SCBF.Length == 0x15 && CMDC == 0
    {
      SCBF := new Byte[0x15](_ => 0);
      CMDC := 0;
    }

    /**
      GTFB: append one command through a 56-bit and an 8-bit field. A field past the end of the
      buffer is an error of the interpreter, which ends the method before any store.
     */
    method GTFB(arg0: seq<Byte>, arg1: nat) returns (ok: bool)
      modifies this`CMDC, SCBF
      ensures ok <==> old(CMDC) * 7 + 7 <= SCBF.Length
      ensures CMDC == if ok then old(CMDC) + 1 else old(CMDC)
      ensures SCBF[..] == if ok then Splice(old(SCBF[..]), old(CMDC) * 7, Command(arg0, arg1)) else old(SCBF[..])
    {
      hide Bits;
      ghost var before := SCBF[..];
      var local0 := CMDC * 0x38;
      if local0 + 0x38 > 8 * SCBF.Length { return false; }
      var bytes := CMDC * 7;
      StoreBytes(local0, bytes, Sevenfold(arg0));
      ghost var middle := SCBF[..];
      StoreBytes(8 * (bytes + 1), bytes + 1, [arg1 % 256]);
      assert Splice(middle, bytes + 1, [arg1 % 256]) == Splice(before, bytes, Command(arg0, arg1));
      CMDC := CMDC + 1;
      return true;
    }

    /** A store through a field that starts and ends at byte boundaries replaces those bytes. */
    method StoreBytes(at: nat, a: nat, bytes: seq<Byte>)
      requires at == 8 * a && a + |bytes| <= SCBF.Length
      modifies SCBF
      ensures SCBF[..] == Splice(old(SCBF[..]), a, bytes)
    {
      ghost var before := SCBF[..];
      StoreField(SCBF, at, Bits(bytes));
      BitsOfSplice(before, a, bytes);
      BitsDetermine(SCBF[..], Splice(before, a, bytes));
    }
  }

  lemma BitsOfSplice(buf: seq<Byte>, a: nat, bytes: seq<Byte>)
    requires a + |bytes| <= |buf|
    ensures Bits(Splice(buf, a, bytes)) == Splice(Bits(buf), 8 * a, Bits(bytes))
  {
    var l, m, r := buf[..a], buf[a..a + |bytes|], buf[a + |bytes|..];
    assert buf == l + m + r;
    BitsOfParts(l + m, r);
    BitsOfParts(l, m);
    BitsOfParts(l + bytes, r);
    BitsOfParts(l, bytes);
  }

  datatype Cmd = Cmd(arg0: seq<Byte>, arg1: nat)

  /** The buffer after appending `cmds` from position 0, as GTFB appends each. */
  function Appended(buf: seq<Byte>, cmds: seq<Cmd>): (buf': seq<Byte>)
    requires 7 * |cmds| <= |buf|
    ensures |buf'| == |buf|
  {
    if cmds == [] then buf
    else
      var k := |cmds| - 1;
      Splice(Appended(buf, cmds[..k]), 7 * k, Command(cmds[k].arg0, cmds[k].arg1))
  }

  /** The commands one after the other. */
  function Concatenated(cmds: seq<Cmd>): (bytes: seq<Byte>)
    ensures |bytes| == 7 * |cmds|
  {
    if cmds == [] then []
    else
      var k := |cmds| - 1;
      Concatenated(cmds[..k]) + Command(cmds[k].arg0, cmds[k].arg1)
  }

  lemma AppendOne(buf: seq<Byte>, cmds: seq<Cmd>, c: Cmd)
    requires 7 * |cmds| + 7 <= |buf|
    ensures Appended(buf, cmds + [c]) == Splice(Appended(buf, cmds), 7 * |cmds|, Command(c.arg0, c.arg1))
    ensures Concatenated(cmds + [c]) == Concatenated(cmds) + Command(c.arg0, c.arg1)
  {
    assert (cmds + [c])[..|cmds|] == cmds;
  }

  /** Any number of commands that fit leave their concatenation, and the rest of the buffer as it was. */
  lemma {:induction false} CommandsConcatenate(buf: seq<Byte>, cmds: seq<Cmd>)
    requires 7 * |cmds| <= |buf|
    ensures Appended(buf, cmds) == Concatenated(cmds) + buf[7 * |cmds|..]
  {
    if cmds != [] {
      CommandsConcatenate(buf, cmds[..|cmds| - 1]);
    }
  }

  /** One command after the other, up to three. */
  lemma ThreeCommands(buf: seq<Byte>, a: Cmd, b: Cmd, c: Cmd)
    requires |buf| == 21
    ensures Appended(buf, []) == buf
    ensures Appended(buf, [a]) == Splice(buf, 0, Command(a.arg0, a.arg1))
    ensures Appended(buf, [a, b]) == Splice(Appended(buf, [a]), 7, Command(b.arg0, b.arg1))
    ensures Appended(buf, [a, b, c]) == Splice(Appended(buf, [a, b]), 14, Command(c.arg0, c.arg1))
    ensures Concatenated([a, b, c]) == Command(a.arg0, a.arg1) + Command(b.arg0, b.arg1) + Command(c.arg0, c.arg1)
  {
    assert Concatenated([]) == [] && Appended(buf, []) == buf;
    hide Splice, Command, Appended, Concatenated;
    AppendOne(buf, [], a);
    AppendOne(buf, [a], b);
    AppendOne(buf, [a, b], c);
    Literals(a, b, c);
  }

  lemma Literals(a: Cmd, b: Cmd, c: Cmd)
    ensures [] + [a] == [a] && [a] + [b] == [a, b] && [a, b] + [c] == [a, b, c]
  {
  }

  /** _GTF, with DSSP or FHPP deciding the first command: the buffer is full of three commands. */
  method GTF(t: TaskFile, dsspOrFhpp: bool)
    requires t.SCBF.Length == 0x15
    modifies t`CMDC, t.SCBF
    ensures t.CMDC == 3
    ensures t.SCBF[..] == (if dsspOrFhpp then [0x90, 0x06, 0, 0, 0, 0, 0xEF] else [0x10, 0x06, 0, 0, 0, 0, 0xEF])
                          + [0, 0, 0, 0, 0, 0, 0xF5] + [0xC1, 0, 0, 0, 0, 0, 0xB1]
  {
    var STFE: seq<Byte>, STFD: seq<Byte> := [0x10, 0x06, 0, 0, 0, 0, 0xEF], [0x90, 0x06, 0, 0, 0, 0, 0xEF];
    var FZTF: seq<Byte>, DCFL: seq<Byte> := [0, 0, 0, 0, 0, 0, 0xF5], [0xC1, 0, 0, 0, 0, 0, 0xB1];
    assert Command(STFE, 0x06) == STFE && Command(STFD, 0x06) == STFD;
    assert Command(FZTF, 0) == FZTF && Command(DCFL, 0) == DCFL;
    hide Command, Splice;
    ghost var buf := t.SCBF[..];
    t.CMDC := 0;
    var first := if dsspOrFhpp then STFD else STFE;
    var ok := t.GTFB(first, 0x06);
    ok := t.GTFB(FZTF, 0);
    ok := t.GTFB(DCFL, 0);
    ghost var a, b, c := Cmd(first, 0x06), Cmd(FZTF, 0), Cmd(DCFL, 0);
    ThreeCommands(buf, a, b, c);
    CommandsConcatenate(buf, [a, b, c]);
  }
}
