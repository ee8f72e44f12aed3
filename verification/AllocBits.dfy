/** Size arithmetic of the allocator: bin indices of the large bins and the
    64-bit size words that steer the bitwise tries (lj_alloc.c). */
module AllocBits {
  const WORD: nat := 0x1_0000_0000_0000_0000
  const HALF: nat := 0x8000_0000_0000_0000

  /** A size_t value. */
  type Word = w: int | 0 <= w < WORD

  function Pow2(n: nat): (r: nat)
    ensures r >= 1
  {
    if n == 0 then 1 else 2 * Pow2(n - 1)
  }

  /** Index of the highest set bit (lj_fls). */
  function Fls(x: nat): nat
    requires x > 0
  {
    if x == 1 then 0 else 1 + Fls(x / 2)
  }

  /** Unsigned subtraction, wrapping at 2^64. */
  function Sub(a: Word, b: Word): Word {
    if a >= b then a - b else a - b + WORD
  }

  /** w >> 63. */
  function TopBit(w: Word): nat {
    if w >= HALF then 1 else 0
  }

  /** w << 1, losing the sign bit. */
  function Shl1(w: Word): Word {
    if w >= HALF then 2 * w - WORD else 2 * w
  }

  /** compute_tree_index, with its truncation of the shifted size to 32 bits. */
  function TreeIndex(s: nat): (i: nat)
    ensures i < 32
  {
    var x := (s / 256) % 0x1_0000_0000;
    if x == 0 then 0
    else if x > 0xFFFF then 31
    else
      Pow2Consts();
      FlsBound(x, 16);
      2 * Fls(x) + (s / Pow2(Fls(x) + 7)) % 2
  }

  function LeftShift(i: nat): nat
    requires i < 32
  {
    if i == 31 then 0 else 57 - i / 2
  }

  function MinSize(i: nat): nat {
    Pow2(i / 2 + 8) + (if i % 2 == 1 then Pow2(i / 2 + 7) else 0)
  }

  /** The size shifted so that its first distinguishing bit is the sign bit. */
  function SizeWord(s: nat, i: nat): Word
    requires i < 32
  {
    (s * Pow2(LeftShift(i))) % WORD
  }

  lemma {:induction false} FlsBound(x: nat, n: nat)
    requires 0 < x < Pow2(n)
    ensures Fls(x) < n
  {
    if x > 1 {
      FlsBound(x / 2, n - 1);
    }
  }

  lemma {:induction false} FlsRange(x: nat)
    requires x > 0
    ensures Pow2(Fls(x)) <= x < 2 * Pow2(Fls(x))
  {
    if x > 1 {
      FlsRange(x / 2);
    }
  }

  lemma {:induction false} Pow2Add(m: nat, n: nat)
    ensures Pow2(m + n) == Pow2(m) * Pow2(n)
  {
    if m > 0 {
      Pow2Add(m - 1, n);
    }
  }

  lemma {:induction false} Pow2Mono(m: nat, n: nat)
    requires m <= n
    ensures Pow2(m) <= Pow2(n)
  {
    if m < n {
      Pow2Mono(m, n - 1);
    }
  }

  lemma Pow2Consts()
    ensures Pow2(7) == 128 && Pow2(8) == 256 && Pow2(16) == 0x1_0000 && Pow2(22) == 0x40_0000
    ensures Pow2(23) == 0x80_0000 && Pow2(24) == 0x100_0000 && Pow2(64) == WORD
  {
    assert Pow2(4) == 16;
    Pow2Add(4, 4);
    Pow2Add(8, 8);
    Pow2Add(16, 16);
    Pow2Add(32, 32);
  }

  lemma TopDigits(s: nat, p: nat)
    requires p > 0 && 2 * p <= s < 4 * p
    ensures s / p == if s < 3 * p then 2 else 3
  {
    DivBetween(s, p, if s < 3 * p then 2 else 3);
  }

  lemma DivBetween(s: nat, p: nat, q: nat)
    requires p > 0 && q * p <= s < (q + 1) * p
    ensures s / p == q
  {
    var d := s / p;
    assert s == d * p + s % p;
    assert d >= q + 1 ==> d * p >= (q + 1) * p;
    assert d <= q - 1 ==> (d + 1) * p <= q * p;
  }

  lemma MinSizeForms(k: nat)
    ensures MinSize(2 * k) == 2 * Pow2(k + 7)
    ensures MinSize(2 * k + 1) == 3 * Pow2(k + 7)
    ensures MinSize(2 * k + 2) == 4 * Pow2(k + 7)
  {
    assert (2 * k) / 2 == k && (2 * k) % 2 == 0;
    assert (2 * k + 1) / 2 == k && (2 * k + 1) % 2 == 1;
    assert (2 * k + 2) / 2 == k + 1 && (2 * k + 2) % 2 == 0;
  }

  /** For sizes whose shifted value fits 16 bits, the index pins the size to one bin. */
  lemma SmallerIndexRange(s: nat)
    requires 256 <= s < 0x100_0000
    ensures var i := TreeIndex(s);
            MinSize(i) <= s && (i < 31 ==> s < MinSize(i + 1))
  {
    hide TreeIndex, Fls, Pow2, MinSize;
    var k := Fls(s / 256);
    var p := Pow2(k + 7);
    assert 2 * p <= s < 4 * p && TreeIndex(s) == 2 * k + (s / p) % 2 by {
      SmallerIndexForm(s);
    }
    TopDigits(s, p);
    MinSizeForms(k);
    if s < 3 * p {
      assert TreeIndex(s) == 2 * k;
    } else {
      assert TreeIndex(s) == 2 * k + 1;
    }
  }

  lemma SmallerIndexForm(s: nat)
    requires 256 <= s < 0x100_0000
    ensures var k := Fls(s / 256);
            2 * Pow2(k + 7) <= s < 4 * Pow2(k + 7) && TreeIndex(s) == 2 * k + (s / Pow2(k + 7)) % 2
  {
    hide Fls, Pow2;
    var x := s / 256;
    assert x % 0x1_0000_0000 == x;
    FlsRange(x);
    assert Pow2(Fls(x) + 7) == Pow2(Fls(x)) * 128 by {
      Pow2Add(Fls(x), 7);
      Pow2Consts();
    }
  }

  lemma {:induction false} MinSizeMono(i: nat, j: nat)
    requires i < j
    ensures 256 <= MinSize(i) < MinSize(j)
    decreases j
  {
    Pow2Mono(8, i / 2 + 8);
    assert Pow2(8) == 256 by { Pow2Consts(); }
    if i + 1 < j {
      MinSizeMono(i, j - 1);
    }
    var k := j - 1;
    if k % 2 == 1 {
      assert j / 2 == k / 2 + 1;
    } else {
      assert j / 2 == k / 2;
    }
  }

  /** minsize(I) <= S < minsize(I+1) below 2^40. */
  lemma TreeIndexRange(s: nat)
    requires 256 <= s < 0x100_0000_0000
    ensures var i := TreeIndex(s);
            MinSize(i) <= s && (i < 31 ==> s < MinSize(i + 1))
  {
    if s < 0x100_0000 {
      SmallerIndexRange(s);
    } else {
      LargestIndexRange(s);
    }
  }

  lemma LargestIndexRange(s: nat)
    requires 0x100_0000 <= s < 0x100_0000_0000
    ensures MinSize(TreeIndex(s)) <= s && TreeIndex(s) == 31
  {
    Pow2Consts();
  }

  /** Because of the 32-bit truncation, the bin range holds for a size exactly
      when the size is below 2^40 or its truncated quotient still selects the
      last bin. */
  lemma TreeIndexExact(s: nat)
    requires s >= 256
    ensures var i := TreeIndex(s);
            (MinSize(i) <= s && (i < 31 ==> s < MinSize(i + 1)))
            <==> (s < 0x100_0000_0000 || (s / 256) % 0x1_0000_0000 >= 0xC000)
  {
    var i := TreeIndex(s);
    if s < 0x100_0000_0000 {
      TreeIndexRange(s);
    } else {
      TruncatedIndex(s);
      LastBins();
      if i < 30 {
        MinSizeMono(i + 1, 31);
      }
    }
  }

  lemma LastBins()
    ensures MinSize(31) == 0xC0_0000
  {
    MinSizeForms(15);
    Pow2Consts();
  }

  lemma TruncatedIndex(s: nat)
    requires s >= 0x100_0000_0000
    ensures TreeIndex(s) == 31 <==> (s / 256) % 0x1_0000_0000 >= 0xC000
  {
    var x := (s / 256) % 0x1_0000_0000;
    if 0 < x <= 0xFFFF {
      var k := Fls(x);
      FlsRange(x);
      FlsBound(x, 16) by { Pow2Consts(); }
      assert Pow2(15) == 0x8000 by { Pow2Consts(); }
      if k == 15 {
        LastDigit(s);
        assert Pow2(22) == 0x40_0000 by { Pow2Consts(); }
      } else {
        assert 2 * Fls(x) + (s / Pow2(Fls(x) + 7)) % 2 <= 29;
        Pow2Mono(k + 1, 15);
      }
    }
  }

  lemma LastDigit(s: nat)
    requires 0x8000 <= (s / 256) % 0x1_0000_0000 <= 0xFFFF
    ensures (s / 0x40_0000) % 2 == 1 <==> (s / 256) % 0x1_0000_0000 >= 0xC000
  {
  }

  /** The first size past the truncation limit lands in bin 0, whose sizes end below 384,
      while a request of a few bytes less is looked for in bin 31 alone. */
  lemma TruncationCounterexample()
    ensures TreeIndex(0x100_0000_0000) == 0 && MinSize(1) == 384 && TreeIndex(0xFF_FFFF_FFF8) == 31
  {
    Pow2Consts();
  }

  /** Within one bin a larger size has a larger size word. */
  lemma SizeWordMono(i: nat, s1: nat, s2: nat)
    requires i < 32 && s1 < s2 < WORD
    requires i < 31 ==> MinSize(i) <= s1 && s2 < MinSize(i + 1)
    ensures SizeWord(s1, i) < SizeWord(s2, i)
  {
    if i == 31 {
      assert Pow2(0) == 1;
    } else {
      SizeWordIs(s1, i);
      SizeWordIs(s2, i);
      MulMono(s1, s2, Pow2(57 - i / 2));
    }
  }

  lemma SizeWordIs(s: nat, i: nat)
    requires i < 31 && MinSize(i) <= s < MinSize(i + 1)
    ensures SizeWord(s, i) == s * Pow2(57 - i / 2) - (2 + i % 2) * WORD
  {
    var h, hi := i / 2, 2 + i % 2;
    var q, p := Pow2(57 - h), Pow2(h + 7);
    assert q * p == WORD by { Pow2Add(57 - h, h + 7); Pow2Consts(); }
    assert hi * p <= s < (hi + 1) * p by { BinRange(i, s); }
    SizeWordAt(s, q, p, hi);
  }

  lemma BinRange(i: nat, s: nat)
    requires MinSize(i) <= s < MinSize(i + 1)
    ensures (2 + i % 2) * Pow2(i / 2 + 7) <= s < (3 + i % 2) * Pow2(i / 2 + 7)
  {
    MinSizeForms(i / 2);
    if i % 2 == 0 {
      assert i == 2 * (i / 2);
    } else {
      assert i == 2 * (i / 2) + 1;
    }
  }

  lemma MulMono(a: nat, b: nat, q: nat)
    requires a < b && q >= 1
    ensures a * q < b * q
  {
  }

  lemma SizeWordAt(s: nat, q: nat, p: nat, hi: nat)
    requires q * p == WORD && q >= 1
    requires hi * p <= s < (hi + 1) * p
    ensures (s * q) % WORD == s * q - hi * WORD
  {
    var d := s - hi * p;
    assert d * q < p * q;
    assert s * q == d * q + (hi * p) * q;
    assert (hi * p) * q == hi * (p * q);
    ModShift(d * q, hi);
  }

  lemma ModShift(r: nat, k: nat)
    requires r < WORD
    ensures (r + k * WORD) % WORD == r
  {
  }

  // ---- paths in a bitwise trie ---------------------------------------------

  function ShiftN(w: Word, d: nat): Word {
    if d == 0 then w else Shl1(ShiftN(w, d - 1))
  }

  /** A position in a binary tree. */
  datatype Path = Top | Left(up: Path) | Right(up: Path)

  function Depth(p: Path): nat {
    if p.Top? then 0 else Depth(p.up) + 1
  }

  /** Position reached by following the d leading bits of w from the root. */
  function PathOf(w: Word, d: nat): (p: Path)
    ensures Depth(p) == d
  {
    if d == 0 then Top
    else if TopBit(ShiftN(w, d - 1)) == 0 then Left(PathOf(w, d - 1))
    else Right(PathOf(w, d - 1))
  }

  /** The leading bits of w lead to p. */
  predicate Spelled(w: Word, p: Path) {
    p == PathOf(w, Depth(p))
  }

  /** Sizes that share a path prefix compare like the rest of their words. */
  lemma {:induction false} PathOrder(w1: Word, w2: Word, d: nat)
    requires PathOf(w1, d) == PathOf(w2, d)
    requires ShiftN(w1, d) < ShiftN(w2, d)
    ensures w1 < w2
  {
    if d > 0 {
      PathOrder(w1, w2, d - 1);
    }
  }

  /** Everything to the left of a position is smaller than everything to its right. */
  lemma LeftIsSmaller(w1: Word, w2: Word, p: Path)
    requires Spelled(w1, Left(p)) && Spelled(w2, Right(p))
    ensures w1 < w2
  {
    PathOrder(w1, w2, Depth(p));
  }

  /** a is p or an ancestor of p. */
  predicate Anc(p: Path, a: Path) {
    p == a || (!p.Top? && Anc(p.up, a))
  }

  lemma {:induction false} AncTop(p: Path)
    ensures Anc(p, Top)
  {
    if !p.Top? {
      AncTop(p.up);
    }
  }

  lemma {:induction false} AncDepth(p: Path, a: Path)
    requires Anc(p, a)
    ensures Depth(p) >= Depth(a)
    ensures Depth(p) == Depth(a) ==> p == a
  {
    if p != a {
      AncDepth(p.up, a);
    }
  }

  lemma {:induction false} SpelledAnc(w: Word, p: Path, a: Path)
    requires Spelled(w, p) && Anc(p, a)
    ensures Spelled(w, a)
  {
    if p != a {
      SpelledAnc(w, p.up, a);
    }
  }

  /** Below a position, one continues to the left or to the right. */
  lemma {:induction false} AncStep(p: Path, a: Path)
    requires Anc(p, a) && p != a
    ensures Anc(p, Left(a)) || Anc(p, Right(a))
  {
    if p.up != a {
      AncStep(p.up, a);
    }
  }

  lemma {:induction false} AncTrans(p: Path, q: Path, a: Path)
    requires Anc(p, q) && Anc(q, a)
    ensures Anc(p, a)
  {
    if p != q {
      AncTrans(p.up, q, a);
    }
  }
}
