// Bit vectors of 64-bit words with a cached count of the bits that are set.
module BitVectors {
  import opened WordCounting

  const WSIZE: nat := 64

  lemma {:induction false} CountSame(s: seq<bool>, b: bool)
    requires forall i :: 0 <= i < |s| ==> s[i] == b
    ensures Count(s) == if b then |s| else 0
  {
    if s != [] {
      CountSame(s[..|s| - 1], b);
    }
  }

  lemma {:induction false} CountFlip(s: seq<bool>, pos: nat)
    requires pos < |s| && !s[pos]
    ensures Count(s[pos := true]) == Count(s) + 1
  {
    var t := s[pos := true];
    if pos == |s| - 1 {
      assert t[..|s| - 1] == s[..|s| - 1];
    } else {
      assert t[..|s| - 1] == s[..|s| - 1][pos := true];
      CountFlip(s[..|s| - 1], pos);
    }
  }

  // The count is the length exactly if every bit is set.
  lemma {:induction false} CountAll(s: seq<bool>)
    ensures Count(s) <= |s|
    ensures Count(s) == |s| <==> forall i :: 0 <= i < |s| ==> s[i]
  {
    if s != [] {
      CountAll(s[..|s| - 1]);
    }
  }

  lemma {:induction false} CountZero(s: seq<bool>)
    ensures Count(s) == 0 <==> forall i :: 0 <= i < |s| ==> !s[i]
  {
    if s != [] {
      CountZero(s[..|s| - 1]);
    }
  }

  lemma {:induction false} CountLess(s: seq<bool>, t: seq<bool>)
    requires |s| == |t| && forall i :: 0 <= i < |s| && s[i] ==> t[i]
    ensures Count(s) <= Count(t)
  {
    if s != [] {
      CountLess(s[..|s| - 1], t[..|t| - 1]);
    }
  }

  function Or(s: seq<bool>, t: seq<bool>): (r: seq<bool>)
    requires |s| == |t|
    ensures |r| == |s|
  {
    seq(|s|, i requires 0 <= i < |s| => s[i] || t[i])
  }

  // The bits of `s` that are not in `t`.
  function Minus(s: seq<bool>, t: seq<bool>): (r: seq<bool>)
    requires |s| == |t|
    ensures |r| == |s|
  {
    seq(|s|, i requires 0 <= i < |s| => s[i] && !t[i])
  }

  // Adding to `s` the bits of `t` beyond it raises the count by their number.
  lemma {:induction false} CountOr(s: seq<bool>, t: seq<bool>)
    requires |s| == |t|
    ensures Count(Or(s, t)) == Count(s) + Count(Minus(t, s))
  {
    if s != [] {
      var n := |s| - 1;
      CountOr(s[..n], t[..n]);
      assert Or(s, t)[..n] == Or(s[..n], t[..n]);
      assert Minus(t, s)[..n] == Minus(t[..n], s[..n]);
    }
  }

  function Words(bits: nat): nat
  {
    bits / WSIZE + if bits % WSIZE != 0 then 1 else 0
  }

  lemma WordsCover(bits: nat)
    ensures bits <= WSIZE * Words(bits)
  {
  }

  // `n` words without any bit set.
  function Zeros(n: nat): (r: seq<bool>)
    ensures |r| == WSIZE * n
  {
    seq(WSIZE * n, i => false)
  }

  // The first `n` bits have been masked.
  ghost predicate MaskedTo(d: seq<bool>, s: seq<bool>, t: seq<bool>, n: nat)
  {
    && |d| == |s| == |t| && n <= |s|
    && (forall p :: 0 <= p < n ==> d[p] == (s[p] && !t[p]))
    && (forall p :: n <= p < |d| ==> d[p] == s[p])
  }

  lemma MaskStep(d: seq<bool>, s: seq<bool>, t: seq<bool>, i: nat, n: nat)
    requires i < n && |s| == WSIZE * n && MaskedTo(d, s, t, WSIZE * i)
    ensures WSIZE * i <= WSIZE * (i + 1) <= |s|
    ensures MaskedTo(
      d[..WSIZE * i] + Minus(s[WSIZE * i..WSIZE * (i + 1)], t[WSIZE * i..WSIZE * (i + 1)]) + d[WSIZE * (i + 1)..],
      s, t, WSIZE * (i + 1))
  {
    WordInside(i, n);
    MaskPart(d, s, t, WSIZE * i, WSIZE * (i + 1));
  }

  lemma MaskPart(d: seq<bool>, s: seq<bool>, t: seq<bool>, a: nat, b: nat)
    requires a <= b <= |s| && MaskedTo(d, s, t, a)
    ensures MaskedTo(d[..a] + Minus(s[a..b], t[a..b]) + d[b..], s, t, b)
  {
  }

  // Vectors hold bit vectors by value, so each operation gives the changed vector.
  datatype BitVector = BitVector(
    bsize: nat,
    wsize: nat,
    counter: nat,
    // The words one after the other, the lowest bit of each first.
    data: seq<bool>)
  {
    // The bits past the end are clear and the cached count is exact.
    ghost predicate Valid()
    {
      && wsize == Words(bsize) && |data| == WSIZE * wsize && bsize <= |data| && counter == Count(data)
      && forall p :: bsize <= p < |data| ==> !data[p]
    }

    function Bits(): (r: seq<bool>)
      requires bsize <= |data|
      ensures |r| == bsize
    {
      data[..bsize]
    }

    function GetWord(loc: nat): (r: seq<bool>)
      requires |data| == WSIZE * wsize && loc < wsize
      ensures |r| == WSIZE
    {
      WordInside(loc, wsize);
      data[WSIZE * loc..WSIZE * (loc + 1)]
    }

    // Grows the vector, keeping its bits; the new ones are clear.
    method Resize(newsize: nat) returns (b: BitVector)
      requires Valid() && newsize >= bsize
      ensures b.Valid() && b.bsize == newsize
      ensures b.Bits() == Bits() + seq(newsize - bsize, i => false)
    {
      if newsize == bsize {
        return this;
      }
      var nwsize := Words(newsize);
      WordsCover(newsize);
      b := this;
      if nwsize > wsize {
        CountConcat(data, Zeros(nwsize - wsize));
        CountSame(Zeros(nwsize - wsize), false);
        b := b.(data := data + Zeros(nwsize - wsize), wsize := nwsize);
      }
      b := b.(bsize := newsize);
    }

    method Set(pos: nat) returns (b: BitVector)
      requires Valid() && pos < bsize
      ensures b.Valid() && b.bsize == bsize && b.Bits() == Bits()[pos := true]
    {
      b := this;
      if !data[pos] {
        CountFlip(data, pos);
        b := b.(data := data[pos := true], counter := counter + 1);
      }
    }

    // Counts the set bits again, word by word.
    method Recount() returns (b: BitVector)
      requires |data| == WSIZE * wsize
      ensures b == this.(counter := Count(data))
    {
      var c := 0;
      for i := 0 to wsize
        invariant WSIZE * i <= |data| && c == Count(data[..WSIZE * i])
      {
        WordInside(i, wsize);
        var w := GetWord(i);
        assert data[..WSIZE * (i + 1)] == data[..WSIZE * i] + w;
        CountConcat(data[..WSIZE * i], w);
        c := c + WordCount(w);
      }
      assert data[..WSIZE * wsize] == data;
      b := this.(counter := c);
    }

    // Adds the bits of `o`, word by word.
    method OrCount(o: BitVector) returns (b: BitVector)
      requires Valid() && o.Valid() && o.bsize == bsize
      ensures b.Valid() && b.bsize == bsize && b.Bits() == Or(Bits(), o.Bits())
    {
      hide Count;
      var d := data;
      for i := 0 to wsize
        invariant |d| == |data|
        invariant forall p :: 0 <= p < WSIZE * i && p < |d| ==> d[p] == (data[p] || o.data[p])
        invariant forall p :: WSIZE * i <= p < |d| ==> d[p] == data[p]
      {
        WordInside(i, wsize);
        d := d[..WSIZE * i] + Or(GetWord(i), o.GetWord(i)) + d[WSIZE * (i + 1)..];
      }
      b := this.(data := d);
      b := b.Recount();
    }

    // Removes the bits of `o`, word by word.
    method MaskCount(o: BitVector) returns (b: BitVector)
      requires Valid() && o.Valid() && o.bsize == bsize
      ensures b.Valid() && b.bsize == bsize && b.Bits() == Minus(Bits(), o.Bits())
    {
      var d := data;
      for i := 0 to wsize
        invariant MaskedTo(d, data, o.data, WSIZE * i)
      {
        WordInside(i, wsize);
        MaskStep(d, data, o.data, i, wsize);
        d := d[..WSIZE * i] + Minus(GetWord(i), o.GetWord(i)) + d[WSIZE * (i + 1)..];
      }
      b := this.(data := d);
      b := b.Recount();
    }

    // The cached count is that of the bits: the padding does not count.
    lemma CountBits()
      requires Valid()
      ensures counter == Count(Bits())
    {
      assert data == Bits() + data[bsize..];
      CountConcat(Bits(), data[bsize..]);
      CountSame(data[bsize..], false);
    }
  }

  method SizedVector(size: nat) returns (b: BitVector)
    ensures b.Valid() && b.bsize == size && b.Bits() == seq(size, i => false)
  {
    WordsCover(size);
    CountSame(Zeros(Words(size)), false);
    b := BitVector(size, Words(size), 0, Zeros(Words(size)));
  }

  lemma WordInside(i: nat, n: nat)
    requires i < n
    ensures WSIZE * i <= WSIZE * (i + 1) <= WSIZE * n && WSIZE * (i + 1) == WSIZE * i + WSIZE
  {
  }

  function LongCount(w: seq<bool>): (r: nat)
    requires |w| == WSIZE
    ensures r == Count(w)
  {
    hide Count, Count64, WordOf;
    CountWord(w);
    Count64(WordOf(w)) as nat
  }

  // The bits of one word; words and halves of one value are recognised.
  function WordCount(w: seq<bool>): (r: nat)
    requires |w| == WSIZE
    ensures r == Count(w)
  {
    hide Count, LongCount;
    HalfWord(w);
    if AllAre(w, false) then 0
    else if (AllAre(w[..32], false) && AllAre(w[32..], true))
      || (AllAre(w[..32], true) && AllAre(w[32..], false)) then 32
    else if AllAre(w, true) then 64
    else LongCount(w)
  }

  predicate AllAre(s: seq<bool>, b: bool)
  {
    forall i :: 0 <= i < |s| ==> s[i] == b
  }

  lemma HalfWord(w: seq<bool>)
    requires |w| == WSIZE
    ensures AllAre(w, false) ==> Count(w) == 0
    ensures AllAre(w, true) ==> Count(w) == 64
    ensures AllAre(w[..32], false) && AllAre(w[32..], true) ==> Count(w) == 32
    ensures AllAre(w[..32], true) && AllAre(w[32..], false) ==> Count(w) == 32
  {
    assert w == w[..32] + w[32..];
    CountConcat(w[..32], w[32..]);
    forall b: bool, s | AllAre(s, b) && (s == w || s == w[..32] || s == w[32..])
      ensures Count(s) == if b then |s| else 0
    {
      CountSame(s, b);
    }
  }
}
