/** The portable form of the tree-index macro, on machine words, computes the bin of a size. */
module PortableIndex {
  import opened Arith
  import opened SizeClass

  /** The exponent the portable compute_tree_index finds for `x = s >> 8`. */
  function PortableLog2(x: bv32): bv32
  {
    var n0 := ((x - 0x100) >> 16) & 8;
    var y1 := x << n0;
    var k1 := ((y1 - 0x1000) >> 16) & 4;
    var y2 := y1 << k1;
    var n1 := n0 + k1;
    var k2 := ((y2 - 0x4000) >> 16) & 2;
    var n2 := n1 + k2;
    var y3 := y2 << k2;
    14 - n2 + (y3 >> 15)
  }

  /** On every quotient the macro is used for, the shift cascade is the floor of the binary logarithm. */
  lemma PortableLog2Exact(x: bv32)
    requires 0 < x <= 0xFFFF
    ensures var k := PortableLog2(x); k <= 15 && (1 << k) <= x < (1 << (k + 1))
  {
  }

  lemma SmallPowers()
    ensures Pow2(0) == 1 && Pow2(1) == 2 && Pow2(2) == 4 && Pow2(3) == 8 && Pow2(4) == 0x10 && Pow2(5) == 0x20
    ensures Pow2(6) == 0x40 && Pow2(7) == 0x80 && Pow2(8) == 0x100 && Pow2(9) == 0x200 && Pow2(10) == 0x400
    ensures Pow2(11) == 0x800 && Pow2(12) == 0x1000 && Pow2(13) == 0x2000 && Pow2(14) == 0x4000 && Pow2(15) == 0x8000
    ensures Pow2(16) == 0x10000
  {
  }

  /** The bounds of the cascade, as numbers. */
  lemma NumberBounds(x: bv32, k: bv32)
    requires k <= 15 && (1 << k) <= x < (1 << (k + 1))
    ensures Pow2(k as nat) <= x as nat < Pow2(k as nat + 1)
  {
    SmallPowers();
    if k == 0 {
      assert 0x1 <= x < 0x2 && k as nat == 0;
    } else if k == 1 {
      assert 0x2 <= x < 0x4 && k as nat == 1;
    } else if k == 2 {
      assert 0x4 <= x < 0x8 && k as nat == 2;
    } else if k == 3 {
      assert 0x8 <= x < 0x10 && k as nat == 3;
    } else if k == 4 {
      assert 0x10 <= x < 0x20 && k as nat == 4;
    } else if k == 5 {
      assert 0x20 <= x < 0x40 && k as nat == 5;
    } else if k == 6 {
      assert 0x40 <= x < 0x80 && k as nat == 6;
    } else if k == 7 {
      assert 0x80 <= x < 0x100 && k as nat == 7;
    } else if k == 8 {
      assert 0x100 <= x < 0x200 && k as nat == 8;
    } else if k == 9 {
      assert 0x200 <= x < 0x400 && k as nat == 9;
    } else if k == 10 {
      assert 0x400 <= x < 0x800 && k as nat == 10;
    } else if k == 11 {
      assert 0x800 <= x < 0x1000 && k as nat == 11;
    } else if k == 12 {
      assert 0x1000 <= x < 0x2000 && k as nat == 12;
    } else if k == 13 {
      assert 0x2000 <= x < 0x4000 && k as nat == 13;
    } else if k == 14 {
      assert 0x4000 <= x < 0x8000 && k as nat == 14;
    } else if k == 15 {
      assert 0x8000 <= x < 0x10000 && k as nat == 15;
    }
  }

  lemma Log2Unique(x: nat, k: nat)
    requires x > 0 && Pow2(k) <= x < Pow2(k + 1)
    ensures Log2(x) == k
  {
    if Log2(x) < k {
      Pow2Mono(Log2(x) + 1, k);
    } else if k < Log2(x) {
      Pow2Mono(k + 1, Log2(x));
    }
  }

  lemma ZeroTest(x: bv32)
    ensures x < 1 <==> x as nat < 1
  {
  }

  lemma NumberLog2(x: bv32, k: bv32)
    requires 0 < x && k <= 15 && (1 << k) <= x < (1 << (k + 1))
    ensures x as nat > 0 && Log2(x as nat) == k as nat
  {
    ZeroTest(x);
    NumberBounds(x, k);
    Log2Unique(x as nat, k as nat);
  }

  /** The cascade on the 16 bits that a middle-sized quotient fits. */
  function Cascade(y: bv16): nat { PortableLog2(y as bv32) as nat }

  lemma CascadeIsLog2(y: bv16)
    requires (y as bv32) as nat > 0
    ensures Cascade(y) == Log2((y as bv32) as nat)
  {
    var x := y as bv32;
    ZeroTest(x);
    PortableLog2Exact(x);
    NumberLog2(x, PortableLog2(x));
  }

  /** compute_tree_index without compiler support, `y` being the quotient X as a machine word where it is one of 16
      bits. */
  function PortableTreeIndex(s: nat, y: bv16): nat
  {
    var x := s / 256;
    if x == 0 then 0
    else if x > 0xFFFF then NTREEBINS - 1
    else 2 * Cascade(y) + s / Pow2(Cascade(y) + 7) % 2
  }

  /** All forms of the macro agree: on every size the portable one gives the index the others get by counting zeros. */
  lemma PortableIndexExact(s: nat, y: bv16)
    requires s < WORD && (s / 256 <= 0xFFFF ==> (y as bv32) as nat == s / 256)
    ensures PortableTreeIndex(s, y) == TreeIndex(s)
  {
    if 0 < s / 256 <= 0xFFFF {
      CascadeIsLog2(y);
    }
  }
}
