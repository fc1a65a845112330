/** Size classes of the tree bins: which bin a chunk size belongs to, and the bit of the size
    that a step down the tree of that bin inspects. Word size is 32 bits. */
module SizeClass {
  import opened Arith

  const WORD: nat := 0x1_0000_0000
  const NTREEBINS: nat := 32
  const MIN_LARGE_SIZE: nat := 256

  predicate LargeSize(s: nat) { MIN_LARGE_SIZE <= s < WORD }

  /** 31 - clz(x) */
  function Log2(x: nat): (k: nat)
    requires x > 0
    ensures Pow2(k) <= x < Pow2(k + 1)
  {
    if x == 1 then 0 else 1 + Log2(x / 2)
  }

  /** compute_tree_index */
  function TreeIndex(s: nat): nat
  {
    var x := s / 256;
    if x == 0 then 0
    else if x > 0xFFFF then NTREEBINS - 1
    else
      var k := Log2(x);
      2 * k + (s / Pow2(k + 7)) % 2
  }

  /** minsize_for_tree_index */
  function MinSize(i: nat): nat
  {
    Pow2(i / 2 + 8) + if i % 2 == 1 then Pow2(i / 2 + 7) else 0
  }

  /** leftshift_for_tree_index */
  function LeftShift(i: nat): nat
    requires i < NTREEBINS
  {
    if i == NTREEBINS - 1 then 0 else 31 - (i / 2 + 6)
  }

  /** Number of low bits that tell apart the sizes of bin `i`, and the value all of them share above. */
  function RootBits(i: nat): nat
  {
    if i == NTREEBINS - 1 then 32 else i / 2 + 7
  }

  function RootPrefix(i: nat): nat
  {
    if i == NTREEBINS - 1 then 0 else 2 + i % 2
  }

  lemma Pow2Values()
    ensures Pow2(7) == 128 && Pow2(8) == 256 && Pow2(15) == 32768 && Pow2(16) == 65536
    ensures Pow2(22) == 0x40_0000 && Pow2(23) == 0x80_0000 && Pow2(31) == 0x8000_0000 && Pow2(32) == WORD
  {
    assert Pow2(8) == 256;
    Pow2Add(8, 8);
    Pow2Add(8, 16);
    Pow2Add(16, 16);
    Pow2Add(7, 8);
    Pow2Add(7, 16);
    assert Pow2(22) * 2 == Pow2(23);
    Pow2Add(15, 8);
    assert Pow2(32) == 2 * Pow2(31);
  }

  /** A size in `[2h, 4h)` for `h = Pow2(k + 7)` goes to one of the two bins of that octave. */
  lemma Octave(s: nat, k: nat)
    requires k <= 15
    requires Pow2(k + 8) <= s < Pow2(k + 9)
    ensures var b := s / Pow2(k + 7);
            (b == 2 || b == 3) && b * Pow2(k + 7) <= s < (b + 1) * Pow2(k + 7)
  {
    var h := Pow2(k + 7);
    assert Pow2(k + 8) == 2 * h && Pow2(k + 9) == 4 * h;
    DivBounds(s, h);
    if s / h < 2 {
      MulMono(s / h + 1, 2, h);
    } else if s / h > 3 {
      MulMono(4, s / h, h);
    }
  }

  lemma OctaveOf(s: nat)
    requires MIN_LARGE_SIZE <= s && s / 256 <= 0xFFFF
    ensures var k := Log2(s / 256); k <= 15 && Pow2(k + 8) <= s < Pow2(k + 9)
  {
    var x := s / 256;
    var k := Log2(x);
    Scale256(k);
    Scale256(k + 1);
    if k > 15 {
      assert Pow2(16) == 65536 by { Pow2Values(); }
      Pow2Mono(16, k);
    }
  }

  lemma Scale256(k: nat)
    ensures Pow2(k + 8) == 256 * Pow2(k)
  {
    Pow2Add(k, 8);
    Pow2Values();
  }

  /** Each bin holds exactly its half-open range of sizes; the last bin has no upper end. */
  lemma BinRange(s: nat)
    requires MIN_LARGE_SIZE <= s < WORD
    ensures TreeIndex(s) < NTREEBINS
    ensures MinSize(TreeIndex(s)) <= s
    ensures TreeIndex(s) < NTREEBINS - 1 ==> s < MinSize(TreeIndex(s) + 1)
  {
    if s / 256 > 0xFFFF {
      LastMinSize();
    } else {
      OctaveOf(s);
      var k := Log2(s / 256);
      Octave(s, k);
      var b := s / Pow2(k + 7);
      var i := TreeIndex(s);
      assert i == 2 * k + b % 2;
      Halves(k);
      RangeOf(s, i, k, b);
    }
  }

  lemma LastMinSize()
    ensures MinSize(NTREEBINS - 1) == 0xC0_0000
  {
    assert Pow2(22) == 0x40_0000 && Pow2(23) == 0x80_0000 by { Pow2Values(); }
  }

  lemma RangeOf(s: nat, i: nat, k: nat, b: nat)
    requires i / 2 == k && i % 2 == b % 2
    requires b == 2 || b == 3
    requires b * Pow2(k + 7) <= s < (b + 1) * Pow2(k + 7)
    ensures MinSize(i) <= s < MinSize(i + 1)
  {
    NextMinSize(i);
  }

  lemma EvenMinSize(i: nat, k: nat)
    requires i / 2 == k && i % 2 == 0
    ensures MinSize(i) == 2 * Pow2(k + 7)
  {
    Pow2Succ(k + 7);
  }

  lemma OddMinSize(i: nat, k: nat)
    requires i / 2 == k && i % 2 == 1
    ensures MinSize(i) == 3 * Pow2(k + 7)
  {
    Pow2Succ(k + 7);
  }

  lemma NextMinSize(i: nat)
    ensures MinSize(i) == (2 + i % 2) * Pow2(i / 2 + 7)
    ensures MinSize(i + 1) == (3 + i % 2) * Pow2(i / 2 + 7)
  {
    var k := i / 2;
    if i % 2 == 0 {
      EvenMinSize(i, k);
      OddMinSize(i + 1, k);
    } else {
      OddMinSize(i, k);
      EvenMinSize(i + 1, k + 1);
      Pow2Succ(k + 7);
    }
  }

  lemma {:induction false} MinSizeMono(i: nat, j: nat)
    requires i <= j
    ensures MinSize(i) <= MinSize(j)
  {
    if i < j {
      MinSizeMono(i, j - 1);
      NextMinSize(j - 1);
      MulMono(2 + (j - 1) % 2, 3 + (j - 1) % 2, Pow2((j - 1) / 2 + 7));
    }
  }

  /** Larger sizes never go to a lower bin, so every size of a lower bin is below every size of a higher one. */
  lemma BinsOrdered(s: nat, t: nat)
    requires MIN_LARGE_SIZE <= s < WORD && MIN_LARGE_SIZE <= t < WORD
    ensures s <= t ==> TreeIndex(s) <= TreeIndex(t)
  {
    if s <= t && TreeIndex(s) > TreeIndex(t) {
      BinRange(s);
      BinRange(t);
      MinSizeMono(TreeIndex(t) + 1, TreeIndex(s));
    }
  }

  /** All sizes of a bin agree above the bits its tree inspects. */
  lemma RootShared(s: nat)
    requires MIN_LARGE_SIZE <= s < WORD
    ensures s / Pow2(RootBits(TreeIndex(s))) == RootPrefix(TreeIndex(s))
  {
    var i := TreeIndex(s);
    BinRange(s);
    Pow2Values();
    if i == NTREEBINS - 1 {
      DivUnique(s, WORD, 0);
    } else {
      HalfOctaveShared(s, i);
    }
  }

  lemma HalfOctaveShared(s: nat, i: nat)
    requires MinSize(i) <= s < MinSize(i + 1)
    ensures s / Pow2(i / 2 + 7) == 2 + i % 2
  {
    NextMinSize(i);
    DivUnique(s, Pow2(i / 2 + 7), 2 + i % 2);
  }

  /** The shifted size a tree walk carries: `s << (32 - e)` truncated to the word, when `e` bits are left. */
  function SizeBits(s: nat, e: nat): nat
    requires e <= 32
  {
    (s * Pow2(32 - e)) % WORD
  }

  lemma ShiftedQuotient(s: nat, e: nat)
    requires 1 <= e <= 32
    ensures (s * Pow2(32 - e)) / 0x8000_0000 == s / Pow2(e - 1)
  {
    var d, m := Pow2(e - 1), Pow2(32 - e);
    var q := s / d;
    assert m * d == 0x8000_0000 by {
      Pow2Add(32 - e, e - 1);
      Pow2Values();
    }
    DivBounds(s, d);
    ScaledBounds(s, q, d, m);
    DivUnique(s * m, 0x8000_0000, q);
  }

  lemma ScaledBounds(s: int, q: int, d: nat, m: nat)
    requires q * d <= s < (q + 1) * d && m > 0
    ensures q * (m * d) <= s * m < (q + 1) * (m * d)
  {
    MulMono(q * d, s, m);
    MulMono(s + 1, (q + 1) * d, m);
    assert (q * d) * m == q * (m * d);
    assert ((q + 1) * d) * m == (q + 1) * (m * d);
  }

  lemma SignBit(x: nat)
    ensures (x % WORD) / 0x8000_0000 == (x / 0x8000_0000) % 2
    ensures (x % WORD * 2) % WORD == (2 * x) % WORD
  {
  }

  /** The sign bit of the walk's value is the next bit of the size, and doubling it moves on by one bit. */
  lemma SizeBitsStep(s: nat, e: nat)
    requires 1 <= e <= 32
    ensures SizeBits(s, e) / 0x8000_0000 == (s / Pow2(e - 1)) % 2
    ensures (SizeBits(s, e) * 2) % WORD == SizeBits(s, e - 1)
    ensures s / Pow2(e - 1) == 2 * (s / Pow2(e)) + (s / Pow2(e - 1)) % 2
  {
    var x := s * Pow2(32 - e);
    assert s * Pow2(32 - (e - 1)) == 2 * x by {
      assert Pow2(32 - (e - 1)) == 2 * Pow2(32 - e);
    }
    SignBit(x);
    ShiftedQuotient(s, e);
    HalveQuotient(s, e - 1);
  }
}
