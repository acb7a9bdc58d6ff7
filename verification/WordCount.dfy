// Counting the bits of a 64-bit word by sums of pairs, nibbles and bytes.
module WordCounting {

  // ---- The count ----

  const PAIRS: bv64 := 0x5555_5555_5555_5555
  const NIBBLES: bv64 := 0x3333_3333_3333_3333
  const BYTES: bv64 := 0x0f0f_0f0f_0f0f_0f0f

  function PairSums(x: bv64): bv64
  {
    x - ((x >> 1) & PAIRS)
  }

  function NibbleSums(x: bv64): bv64
  {
    (x & NIBBLES) + ((x >> 2) & NIBBLES)
  }

  function ByteSums(x: bv64): bv64
  {
    (x + (x >> 4)) & BYTES
  }

  function Stages(x: bv64): bv64
  {
    ByteSums(NibbleSums(PairSums(x)))
  }

  // Multiplying by ones in every byte adds all bytes up in the top one.
  function TopOf(y: bv64): bv64
  {
    (y * 0x0101_0101_0101_0101) >> 56
  }

  function Count64(x: bv64): bv64
  {
    TopOf(Stages(x))
  }

  // ---- The bits of a word ----

  function Count(s: seq<bool>): nat
  {
    if s == [] then 0 else Count(s[..|s| - 1]) + if s[|s| - 1] then 1 else 0
  }

  function Bit(b: bool): bv64
  {
    if b then 1 else 0
  }

  function Packed(a: bool, b: bool, c: bool, d: bool, e: bool, f: bool, g: bool, h: bool): bv64
  {
    Bit(a) | (Bit(b) << 1) | (Bit(c) << 2) | (Bit(d) << 3) | (Bit(e) << 4) | (Bit(f) << 5) | (Bit(g) << 6)
      | (Bit(h) << 7)
  }

  function ByteOf(s: seq<bool>, i: nat): bv64
    requires i + 8 <= |s|
  {
    Packed(s[i], s[i + 1], s[i + 2], s[i + 3], s[i + 4], s[i + 5], s[i + 6], s[i + 7])
  }

  function Word(a: bv64, b: bv64, c: bv64, d: bv64, e: bv64, f: bv64, g: bv64, h: bv64): bv64
  {
    a | (b << 8) | (c << 16) | (d << 24) | (e << 32) | (f << 40) | (g << 48) | (h << 56)
  }

  // The word with the given bits, lowest first.
  function WordOf(s: seq<bool>): bv64
    requires |s| == 64
  {
    Word(ByteOf(s, 0), ByteOf(s, 8), ByteOf(s, 16), ByteOf(s, 24), ByteOf(s, 32), ByteOf(s, 40), ByteOf(s, 48),
      ByteOf(s, 56))
  }

  // ---- The first three stages ----

  // Byte `k` of a word.
  function ByteAt(x: bv64, k: nat): bv64
    requires k < 8
  {
    if k == 0 then x & 0xff
    else if k == 1 then (x >> 8) & 0xff
    else if k == 2 then (x >> 16) & 0xff
    else if k == 3 then (x >> 24) & 0xff
    else if k == 4 then (x >> 32) & 0xff
    else if k == 5 then (x >> 40) & 0xff
    else if k == 6 then (x >> 48) & 0xff
    else (x >> 56) & 0xff
  }

  // The number of bits in a byte.
  function ByteCount(b: bv64): bv64
  {
    (b & 1) + ((b >> 1) & 1) + ((b >> 2) & 1) + ((b >> 3) & 1)
      + ((b >> 4) & 1) + ((b >> 5) & 1) + ((b >> 6) & 1) + ((b >> 7) & 1)
  }

  // After them every byte is the number of its bits.
  lemma FirstBytes(x: bv64)
    ensures Stages(x) & 0xff == ByteCount(x & 0xff)
    ensures (Stages(x) >> 8) & 0xff == ByteCount((x >> 8) & 0xff)
  {
  }

  lemma SecondBytes(x: bv64)
    ensures (Stages(x) >> 16) & 0xff == ByteCount((x >> 16) & 0xff)
    ensures (Stages(x) >> 24) & 0xff == ByteCount((x >> 24) & 0xff)
  {
  }

  lemma ThirdBytes(x: bv64)
    ensures (Stages(x) >> 32) & 0xff == ByteCount((x >> 32) & 0xff)
    ensures (Stages(x) >> 40) & 0xff == ByteCount((x >> 40) & 0xff)
  {
  }

  lemma LastBytes(x: bv64)
    ensures (Stages(x) >> 48) & 0xff == ByteCount((x >> 48) & 0xff)
    ensures (Stages(x) >> 56) & 0xff == ByteCount((x >> 56) & 0xff)
  {
  }

  lemma StageBytes(x: bv64, k: nat)
    requires k < 8
    ensures ByteAt(Stages(x), k) == ByteCount(ByteAt(x, k))
  {
    hide Stages, ByteCount;
    FirstBytes(x);
    SecondBytes(x);
    ThirdBytes(x);
    LastBytes(x);
  }

  predicate Without(p: bv64, m: bv64)
  {
    p & m == 0
  }

  lemma StagesSmall(x: bv64)
    ensures Without(Stages(x), 0xf0f0_f0f0_f0f0_f0f0)
  {
    hide PairSums, NibbleSums;
  }

  // ---- Small words as numbers ----

  function Number(a: bv64): nat
  {
    a as nat
  }

  predicate Fits(a: bv64, b: bv64)
  {
    a <= 64 && b <= 64 && a + b <= 64
  }

  function Plus(a: bv64, b: bv64): bv64
  {
    a + b
  }

  lemma Next(a: bv64)
    requires a < 64
    ensures (a + 1) as nat == a as nat + 1
  {
  }

  lemma NextNumber(a: bv64, b: bv64)
    requires a < 64 && b == a + 1
    ensures Number(b) == Number(a) + 1
  {
    Next(a);
  }

  lemma PlusZero(a: bv64)
    ensures Plus(a, 0) == a && Number(0) == 0
  {
  }

  lemma OneLess(a: bv64, b: bv64)
    requires Fits(a, b) && b != 0
    ensures a + (b - 1) < 64 && b - 1 < 64 && (b - 1) + 1 == b && (a + (b - 1)) + 1 == a + b && Fits(a, b - 1)
  {
  }

  lemma TakeOne(a: bv64, b: bv64) returns (c: bv64)
    requires Fits(a, b) && b != 0
    ensures Fits(a, c) && Number(b) == Number(c) + 1 && Number(Plus(a, b)) == Number(Plus(a, c)) + 1
  {
    hide Fits, Number;
    OneLess(a, b);
    c := b - 1;
    NextNumber(c, b);
    NextNumber(a + c, a + b);
  }

  // Without overflow a sum of words is the sum of their numbers.
  lemma {:induction false} PlusNumber(a: bv64, b: bv64)
    requires Fits(a, b)
    ensures Number(Plus(a, b)) == Number(a) + Number(b)
    decreases Number(b)
  {
    hide *;
    if b == 0 {
      PlusZero(a);
    } else {
      var c := TakeOne(a, b);
      PlusNumber(a, c);
    }
  }

  lemma Add(a: bv64, b: bv64, c: bv64)
    requires Fits(a, b) && c == a + b
    ensures Number(c) == Number(a) + Number(b)
  {
    hide Fits, Number;
    PlusNumber(a, b);
  }

  // ---- The product ----

  function ByteNumber(y: bv64, k: nat): nat
    requires k < 8
  {
    Number(ByteAt(y, k))
  }

  // The product adds all bytes up in the top one: neighbours first, then quarters, then
  // halves of the word.
  lemma Neighbours(y: bv64)
    requires Without(y, 0xf0f0_f0f0_f0f0_f0f0)
    ensures Without(y * 0x101, 0xe0e0_e0e0_e0e0_e0e0)
    ensures ((y * 0x101) >> 8) & 0xff == ((y >> 8) & 0xff) + (y & 0xff)
      && Fits((y >> 8) & 0xff, y & 0xff)
    ensures ((y * 0x101) >> 24) & 0xff == ((y >> 24) & 0xff) + ((y >> 16) & 0xff)
      && Fits((y >> 24) & 0xff, (y >> 16) & 0xff)
    ensures ((y * 0x101) >> 40) & 0xff == ((y >> 40) & 0xff) + ((y >> 32) & 0xff)
      && Fits((y >> 40) & 0xff, (y >> 32) & 0xff)
    ensures ((y * 0x101) >> 56) & 0xff == ((y >> 56) & 0xff) + ((y >> 48) & 0xff)
      && Fits((y >> 56) & 0xff, (y >> 48) & 0xff)
  {
  }

  lemma Neighbour0(y: bv64)
    requires Without(y, 0xf0f0_f0f0_f0f0_f0f0)
    ensures ByteNumber(y * 0x101, 1) == ByteNumber(y, 1) + ByteNumber(y, 0)
  {
    hide Without, Fits, Number;
    Neighbours(y);
    Add((y >> 8) & 0xff, y & 0xff, ((y * 0x101) >> 8) & 0xff);
  }

  lemma Neighbour1(y: bv64)
    requires Without(y, 0xf0f0_f0f0_f0f0_f0f0)
    ensures ByteNumber(y * 0x101, 3) == ByteNumber(y, 3) + ByteNumber(y, 2)
  {
    hide Without, Fits, Number;
    Neighbours(y);
    Add((y >> 24) & 0xff, (y >> 16) & 0xff, ((y * 0x101) >> 24) & 0xff);
  }

  lemma Neighbour2(y: bv64)
    requires Without(y, 0xf0f0_f0f0_f0f0_f0f0)
    ensures ByteNumber(y * 0x101, 5) == ByteNumber(y, 5) + ByteNumber(y, 4)
  {
    hide Without, Fits, Number;
    Neighbours(y);
    Add((y >> 40) & 0xff, (y >> 32) & 0xff, ((y * 0x101) >> 40) & 0xff);
  }

  lemma Neighbour3(y: bv64)
    requires Without(y, 0xf0f0_f0f0_f0f0_f0f0)
    ensures ByteNumber(y * 0x101, 7) == ByteNumber(y, 7) + ByteNumber(y, 6)
  {
    hide Without, Fits, Number;
    Neighbours(y);
    Add((y >> 56) & 0xff, (y >> 48) & 0xff, ((y * 0x101) >> 56) & 0xff);
  }

  lemma Quarters(p: bv64)
    requires Without(p, 0xe0e0_e0e0_e0e0_e0e0)
    ensures Without(p * 0x10001, 0xc0c0_c0c0_c0c0_c0c0)
    ensures ((p * 0x10001) >> 24) & 0xff == ((p >> 24) & 0xff) + ((p >> 8) & 0xff)
      && Fits((p >> 24) & 0xff, (p >> 8) & 0xff)
    ensures ((p * 0x10001) >> 56) & 0xff == ((p >> 56) & 0xff) + ((p >> 40) & 0xff)
      && Fits((p >> 56) & 0xff, (p >> 40) & 0xff)
  {
  }

  lemma Quarter0(p: bv64)
    requires Without(p, 0xe0e0_e0e0_e0e0_e0e0)
    ensures ByteNumber(p * 0x10001, 3) == ByteNumber(p, 3) + ByteNumber(p, 1)
  {
    hide Without, Fits, Number;
    Quarters(p);
    Add((p >> 24) & 0xff, (p >> 8) & 0xff, ((p * 0x10001) >> 24) & 0xff);
  }

  lemma Quarter1(p: bv64)
    requires Without(p, 0xe0e0_e0e0_e0e0_e0e0)
    ensures ByteNumber(p * 0x10001, 7) == ByteNumber(p, 7) + ByteNumber(p, 5)
  {
    hide Without, Fits, Number;
    Quarters(p);
    Add((p >> 56) & 0xff, (p >> 40) & 0xff, ((p * 0x10001) >> 56) & 0xff);
  }

  lemma Halves(q: bv64)
    requires Without(q, 0xc0c0_c0c0_c0c0_c0c0)
    ensures (q * 0x1_0000_0001) >> 56 == ((q >> 56) & 0xff) + ((q >> 24) & 0xff)
  {
  }

  lemma Half(q: bv64)
    requires Without(q, 0xc0c0_c0c0_c0c0_c0c0) && ByteNumber(q, 7) <= 32 && ByteNumber(q, 3) <= 32
    ensures Number((q * 0x1_0000_0001) >> 56) == ByteNumber(q, 7) + ByteNumber(q, 3)
  {
    hide Without, Fits, Number;
    Halves(q);
    SmallFits((q >> 56) & 0xff, (q >> 24) & 0xff);
    Add((q >> 56) & 0xff, (q >> 24) & 0xff, (q * 0x1_0000_0001) >> 56);
  }

  lemma SmallFits(a: bv64, b: bv64)
    requires Number(a) <= 32 && Number(b) <= 32
    ensures Fits(a, b)
  {
  }

  // The stages for all words, so that they chain without multiplying out.
  lemma AllQuarters()
    ensures forall p: bv64 {:trigger Without(p, 0xe0e0_e0e0_e0e0_e0e0)} :: Without(p, 0xe0e0_e0e0_e0e0_e0e0) ==>
      && Without(p * 0x10001, 0xc0c0_c0c0_c0c0_c0c0)
      && ByteNumber(p * 0x10001, 3) == ByteNumber(p, 3) + ByteNumber(p, 1)
      && ByteNumber(p * 0x10001, 7) == ByteNumber(p, 7) + ByteNumber(p, 5)
  {
    hide *;
    forall p | Without(p, 0xe0e0_e0e0_e0e0_e0e0)
      ensures Without(p * 0x10001, 0xc0c0_c0c0_c0c0_c0c0)
      ensures ByteNumber(p * 0x10001, 3) == ByteNumber(p, 3) + ByteNumber(p, 1)
      ensures ByteNumber(p * 0x10001, 7) == ByteNumber(p, 7) + ByteNumber(p, 5)
    {
      Quarters(p);
      Quarter0(p);
      Quarter1(p);
    }
  }

  lemma AllHalves()
    ensures forall q: bv64 {:trigger Without(q, 0xc0c0_c0c0_c0c0_c0c0)} ::
      Without(q, 0xc0c0_c0c0_c0c0_c0c0) && ByteNumber(q, 7) <= 32 && ByteNumber(q, 3) <= 32 ==>
      Number((q * 0x1_0000_0001) >> 56) == ByteNumber(q, 7) + ByteNumber(q, 3)
  {
    hide *;
    forall q | Without(q, 0xc0c0_c0c0_c0c0_c0c0) && ByteNumber(q, 7) <= 32 && ByteNumber(q, 3) <= 32
      ensures Number((q * 0x1_0000_0001) >> 56) == ByteNumber(q, 7) + ByteNumber(q, 3)
    {
      Half(q);
    }
  }

  // The sum of eight numbers.
  function Sum8(a: nat, b: nat, c: nat, d: nat, e: nat, f: nat, g: nat, h: nat): nat
  {
    a + b + c + d + e + f + g + h
  }

  lemma TopByte(y: bv64)
    requires Without(y, 0xf0f0_f0f0_f0f0_f0f0) && forall k :: 0 <= k < 8 ==> ByteNumber(y, k) <= 8
    ensures Number(TopOf(y)) == Sum8(ByteNumber(y, 0), ByteNumber(y, 1), ByteNumber(y, 2),
      ByteNumber(y, 3), ByteNumber(y, 4), ByteNumber(y, 5), ByteNumber(y, 6), ByteNumber(y, 7))
  {
    hide Without, ByteNumber, Number;
    Neighbours(y);
    Neighbour0(y);
    Neighbour1(y);
    Neighbour2(y);
    Neighbour3(y);
    AllQuarters();
    AllHalves();
  }

  // ---- Bits and bytes ----

  function One(b: bool): nat
  {
    if b then 1 else 0
  }

  lemma FirstBit(b: bool)
    ensures Number(Bit(b)) == One(b)
  {
  }

  lemma AddBit(a: bv64, b: bool)
    requires Number(a) <= 8
    ensures Number(Plus(a, Bit(b))) == Number(a) + One(b)
  {
    FirstBit(b);
    SmallFits(a, Bit(b));
    hide *;
    PlusNumber(a, Bit(b));
  }

  // Each bit is found at its place.
  lemma LowBits(a: bool, b: bool, c: bool, d: bool, e: bool, f: bool, g: bool, h: bool)
    ensures Packed(a, b, c, d, e, f, g, h) & 1 == Bit(a)
    ensures (Packed(a, b, c, d, e, f, g, h) >> 1) & 1 == Bit(b)
    ensures (Packed(a, b, c, d, e, f, g, h) >> 2) & 1 == Bit(c)
    ensures (Packed(a, b, c, d, e, f, g, h) >> 3) & 1 == Bit(d)
  {
  }

  lemma HighBits(a: bool, b: bool, c: bool, d: bool, e: bool, f: bool, g: bool, h: bool)
    ensures (Packed(a, b, c, d, e, f, g, h) >> 4) & 1 == Bit(e)
    ensures (Packed(a, b, c, d, e, f, g, h) >> 5) & 1 == Bit(f)
    ensures (Packed(a, b, c, d, e, f, g, h) >> 6) & 1 == Bit(g)
    ensures (Packed(a, b, c, d, e, f, g, h) >> 7) & 1 == Bit(h)
  {
  }

  lemma ByteBits(a: bool, b: bool, c: bool, d: bool, e: bool, f: bool, g: bool, h: bool)
    ensures ByteCount(Packed(a, b, c, d, e, f, g, h)) == Plus(Plus(Plus(Plus(Plus(Plus(Plus(
      Bit(a), Bit(b)), Bit(c)), Bit(d)), Bit(e)), Bit(f)), Bit(g)), Bit(h))
  {
    hide Packed, Bit;
    LowBits(a, b, c, d, e, f, g, h);
    HighBits(a, b, c, d, e, f, g, h);
  }

  lemma BitsNumber(a: bool, b: bool, c: bool, d: bool, e: bool, f: bool, g: bool, h: bool)
    ensures Number(ByteCount(Packed(a, b, c, d, e, f, g, h))) ==
      One(a) + One(b) + One(c) + One(d) + One(e) + One(f) + One(g) + One(h)
  {
    hide Number, Plus, Bit, ByteCount, Packed;
    ByteBits(a, b, c, d, e, f, g, h);
    FirstBit(a);
    var ab := Plus(Bit(a), Bit(b));
    AddBit(Bit(a), b);
    var abc := Plus(ab, Bit(c));
    AddBit(ab, c);
    var abcd := Plus(abc, Bit(d));
    AddBit(abc, d);
    var abcde := Plus(abcd, Bit(e));
    AddBit(abcd, e);
    var abcdef := Plus(abcde, Bit(f));
    AddBit(abcde, f);
    AddBit(abcdef, g);
    AddBit(Plus(abcdef, Bit(g)), h);
  }

  lemma {:induction false} CountConcat(s: seq<bool>, t: seq<bool>)
    ensures Count(s + t) == Count(s) + Count(t)
  {
    if t == [] {
      assert s + t == s;
    } else {
      assert (s + t)[..|s + t| - 1] == s + t[..|t| - 1];
      CountConcat(s, t[..|t| - 1]);
    }
  }

  lemma CountNone(s: seq<bool>, i: nat)
    requires i <= |s|
    ensures Count(s[i..i]) == 0
  {
  }

  lemma CountNext(s: seq<bool>, i: nat, j: nat)
    requires i <= j < |s|
    ensures Count(s[i..j + 1]) == Count(s[i..j]) + One(s[j])
  {
    assert s[i..j + 1][..j - i] == s[i..j];
  }

  lemma CountEight(s: seq<bool>, i: nat)
    requires i + 8 <= |s|
    ensures Count(s[i..i + 8]) == One(s[i]) + One(s[i + 1]) + One(s[i + 2]) + One(s[i + 3]) + One(s[i + 4])
      + One(s[i + 5]) + One(s[i + 6]) + One(s[i + 7])
  {
    hide Count, One;
    CountNone(s, i);
    CountNext(s, i, i);
    CountNext(s, i, i + 1);
    CountNext(s, i, i + 2);
    CountNext(s, i, i + 3);
    CountNext(s, i, i + 4);
    CountNext(s, i, i + 5);
    CountNext(s, i, i + 6);
    CountNext(s, i, i + 7);
  }

  // The count of a byte is the number of its eight bits.
  lemma ByteIs(s: seq<bool>, i: nat)
    requires i + 8 <= |s|
    ensures Number(ByteCount(ByteOf(s, i))) == Count(s[i..i + 8]) <= 8
  {
    hide Number, ByteCount, Packed, Count;
    BitsNumber(s[i], s[i + 1], s[i + 2], s[i + 3], s[i + 4], s[i + 5], s[i + 6], s[i + 7]);
    CountEight(s, i);
  }

  lemma CountJoin(s: seq<bool>, i: nat, j: nat)
    requires i <= j <= |s|
    ensures Count(s[0..j]) == Count(s[0..i]) + Count(s[i..j])
  {
    assert s[0..j] == s[0..i] + s[i..j];
    CountConcat(s[0..i], s[i..j]);
  }

  lemma CountParts(s: seq<bool>)
    requires |s| == 64
    ensures Count(s) == Sum8(Count(s[0..8]), Count(s[8..16]), Count(s[16..24]), Count(s[24..32]), Count(s[32..40]),
      Count(s[40..48]), Count(s[48..56]), Count(s[56..64]))
  {
    hide Count;
    CountNone(s, 0);
    CountJoin(s, 0, 8);
    CountJoin(s, 8, 16);
    CountJoin(s, 16, 24);
    CountJoin(s, 24, 32);
    CountJoin(s, 32, 40);
    CountJoin(s, 40, 48);
    CountJoin(s, 48, 56);
    CountJoin(s, 56, 64);
    assert s[0..64] == s;
  }

  predicate Small(a: bv64)
  {
    a <= 0xff
  }

  lemma PackedSmall(a: bool, b: bool, c: bool, d: bool, e: bool, f: bool, g: bool, h: bool)
    ensures Small(Packed(a, b, c, d, e, f, g, h))
  {
  }

  lemma ByteSmall(s: seq<bool>, i: nat)
    requires i + 8 <= |s|
    ensures Small(ByteOf(s, i))
  {
    hide Packed, Small;
    PackedSmall(s[i], s[i + 1], s[i + 2], s[i + 3], s[i + 4], s[i + 5], s[i + 6], s[i + 7]);
  }

  // The bytes of a word put together from bytes.
  lemma UnpackLow(a: bv64, b: bv64, c: bv64, d: bv64, e: bv64, f: bv64, g: bv64, h: bv64)
    requires Small(a) && Small(b) && Small(c) && Small(d) && Small(e) && Small(f) && Small(g) && Small(h)
    ensures var x := Word(a, b, c, d, e, f, g, h);
      && x & 0xff == a && (x >> 8) & 0xff == b && (x >> 16) & 0xff == c && (x >> 24) & 0xff == d
  {
  }

  lemma UnpackHigh(a: bv64, b: bv64, c: bv64, d: bv64, e: bv64, f: bv64, g: bv64, h: bv64)
    requires Small(a) && Small(b) && Small(c) && Small(d) && Small(e) && Small(f) && Small(g) && Small(h)
    ensures var x := Word(a, b, c, d, e, f, g, h);
      && (x >> 32) & 0xff == e && (x >> 40) & 0xff == f && (x >> 48) & 0xff == g && (x >> 56) & 0xff == h
  {
  }

  lemma LowBytesOf(s: seq<bool>, k: nat)
    requires |s| == 64 && k < 4
    ensures ByteAt(WordOf(s), k) == ByteOf(s, 8 * k)
  {
    hide Packed, Word, ByteOf, Small;
    ByteSmall(s, 0);
    ByteSmall(s, 8);
    ByteSmall(s, 16);
    ByteSmall(s, 24);
    ByteSmall(s, 32);
    ByteSmall(s, 40);
    ByteSmall(s, 48);
    ByteSmall(s, 56);
    UnpackLow(ByteOf(s, 0), ByteOf(s, 8), ByteOf(s, 16), ByteOf(s, 24), ByteOf(s, 32), ByteOf(s, 40), ByteOf(s, 48),
      ByteOf(s, 56));
  }

  lemma HighBytesOf(s: seq<bool>, k: nat)
    requires |s| == 64 && 4 <= k < 8
    ensures ByteAt(WordOf(s), k) == ByteOf(s, 8 * k)
  {
    hide Packed, Word, ByteOf, Small;
    ByteSmall(s, 0);
    ByteSmall(s, 8);
    ByteSmall(s, 16);
    ByteSmall(s, 24);
    ByteSmall(s, 32);
    ByteSmall(s, 40);
    ByteSmall(s, 48);
    ByteSmall(s, 56);
    UnpackHigh(ByteOf(s, 0), ByteOf(s, 8), ByteOf(s, 16), ByteOf(s, 24), ByteOf(s, 32), ByteOf(s, 40), ByteOf(s, 48),
      ByteOf(s, 56));
  }

  // Every byte after the stages is the number of bits of its part.
  lemma PartNumber(s: seq<bool>, k: nat)
    requires |s| == 64 && k < 8
    ensures ByteNumber(Stages(WordOf(s)), k) == Count(s[8 * k..8 * k + 8]) <= 8
  {
    hide Number, ByteCount, ByteAt, ByteOf, WordOf, Stages, Count;
    StageBytes(WordOf(s), k);
    if k < 4 {
      LowBytesOf(s, k);
    } else {
      HighBytesOf(s, k);
    }
    ByteIs(s, 8 * k);
  }

  // The word count is the number of the bits that are set.
  lemma CountWord(s: seq<bool>)
    requires |s| == 64
    ensures Count64(WordOf(s)) as nat == Count(s)
  {
    hide ByteNumber, Stages, Count, WordOf, Without, TopOf;
    var y := Stages(WordOf(s));
    forall k | 0 <= k < 8 ensures ByteNumber(y, k) == Count(s[8 * k..8 * k + 8]) <= 8
    {
      PartNumber(s, k);
    }
    StagesSmall(WordOf(s));
    TopByte(y);
    CountParts(s);
  }
}
