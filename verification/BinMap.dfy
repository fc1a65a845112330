/** The 32-bit bin maps and the bit tricks that search them: marking and clearing a bin, isolating the
    least marked bin above an index, and turning an isolated bit into its index. */
module BinMap {

  predicate BitSet(m: bv32, i: bv32)
    requires i < 32
  {
    (m >> i) & 1 == 1
  }

  predicate Marked(m: bv32, i: nat)
    requires i < 32
  {
    (m >> i) & 1 == 1
  }

  function SetBit(m: bv32, i: bv32): bv32
    requires i < 32
  {
    m | (1 << i)
  }

  function ResetBit(m: bv32, i: bv32): bv32
    requires i < 32
  {
    m & !(1 << i)
  }

  /** mark_smallmap, mark_treemap */
  function Mark(m: bv32, i: nat): bv32
    requires i < 32
  {
    SetBit(m, i as bv32)
  }

  /** clear_smallmap, clear_treemap */
  function Clear(m: bv32, i: nat): bv32
    requires i < 32
  {
    ResetBit(m, i as bv32)
  }

  /** least_bit */
  function LeastBit(x: bv32): bv32 { x & (0 - x) }

  /** left_bits */
  function LeftBits(x: bv32): bv32 { (x << 1) | (0 - (x << 1)) }

  /** compute_bit2idx, the portable form */
  function Bit2Idx(x: bv32): bv32
  {
    var y0 := x - 1;
    var k0 := (y0 >> 12) & 16;
    var y1 := y0 >> k0;
    var k1 := (y1 >> 5) & 8;
    var y2 := y1 >> k1;
    var k2 := (y2 >> 2) & 4;
    var y3 := y2 >> k2;
    var k3 := (y3 >> 1) & 2;
    var y4 := y3 >> k3;
    var k4 := (y4 >> 1) & 1;
    var y5 := y4 >> k4;
    k0 + k1 + k2 + k3 + k4 + y5
  }

  /** Marking a bin changes the answer for that bin and no other. */
  lemma MarkExact(m: bv32, i: nat, j: nat)
    requires i < 32 && j < 32
    ensures Marked(Mark(m, i), j) <==> i == j || Marked(m, j)
  {
    SameBit(m, i);
    SameBit(m, j);
    var r := SetBit(m, i as bv32);
    SetBitExact(m, i as bv32, j as bv32);
    LiftBit(m, r, i, j, true);
  }

  lemma SetBitExact(m: bv32, i: bv32, j: bv32)
    requires i < 32 && j < 32
    ensures BitSet(SetBit(m, i), j) <==> i == j || BitSet(m, j)
  {
  }

  /** Clearing a bin changes the answer for that bin and no other. */
  lemma ClearExact(m: bv32, i: nat, j: nat)
    requires i < 32 && j < 32
    ensures Marked(Clear(m, i), j) <==> i != j && Marked(m, j)
  {
    SameBit(m, i);
    SameBit(m, j);
    var r := ResetBit(m, i as bv32);
    ResetBitExact(m, i as bv32, j as bv32);
    LiftBit(m, r, i, j, false);
  }

  lemma ResetBitExact(m: bv32, i: bv32, j: bv32)
    requires i < 32 && j < 32
    ensures BitSet(ResetBit(m, i), j) <==> i != j && BitSet(m, j)
  {
  }

  lemma LiftBit(m: bv32, r: bv32, i: nat, j: nat, on: bool)
    requires i < 32 && j < 32 && (i as bv32) < 32 && (j as bv32) < 32
    requires BitSet(r, j as bv32) <==> if (i as bv32) == (j as bv32) then on else BitSet(m, j as bv32)
    ensures Marked(r, j) <==> if i == j then on else Marked(m, j)
  {
    SameBit(r, j);
    SameBit(m, j);
    IndexOrder(i, j);
    IndexOrder(j, i);
  }

  lemma SameBit(m: bv32, i: nat)
    requires i < 32
    ensures (i as bv32) < 32
    ensures Marked(m, i) <==> BitSet(m, i as bv32)
  {
    if i == 0 {
    } else if i == 1 {
    } else if i == 2 {
    } else if i == 3 {
    } else if i == 4 {
    } else if i == 5 {
    } else if i == 6 {
    } else if i == 7 {
    } else if i == 8 {
    } else if i == 9 {
    } else if i == 10 {
    } else if i == 11 {
    } else if i == 12 {
    } else if i == 13 {
    } else if i == 14 {
    } else if i == 15 {
    } else if i == 16 {
    } else if i == 17 {
    } else if i == 18 {
    } else if i == 19 {
    } else if i == 20 {
    } else if i == 21 {
    } else if i == 22 {
    } else if i == 23 {
    } else if i == 24 {
    } else if i == 25 {
    } else if i == 26 {
    } else if i == 27 {
    } else if i == 28 {
    } else if i == 29 {
    } else if i == 30 {
    } else if i == 31 {
    }
  }

  /** Turning an isolated bit into its index inverts the shift that makes the bit. */
  lemma Bit2IdxInverse(x: bv32)
    requires x != 0
    ensures var i := Bit2Idx(LeastBit(x)); i < 32 && 1 << i == LeastBit(x)
  {
  }

  lemma LeastBitIsLeast(x: bv32, i: bv32, j: bv32)
    requires x != 0 && i < 32 && j < 32 && 1 << i == LeastBit(x)
    ensures BitSet(x, i) && (j < i ==> !BitSet(x, j))
  {
  }

  /** The mask keeps exactly the marks above the index. */
  lemma LeftBitsExact(m: bv32, idx: bv32, j: bv32)
    requires idx < 32 && j < 32
    ensures BitSet(LeftBits(1 << idx) & m, j) <==> idx < j && BitSet(m, j)
  {
  }

  lemma EmptyMap(j: bv32)
    requires j < 32
    ensures !BitSet(0, j)
  {
  }

  lemma {:induction false} IndexBelow(i: nat, j: nat)
    requires i < j < 32
    ensures (i as bv32) < (j as bv32)
    decreases j
  {
    if i + 1 < j {
      IndexBelow(i, j - 1);
    }
    IndexStep(j - 1);
  }

  lemma IndexStep(i: nat)
    requires i + 1 < 32
    ensures (i as bv32) < ((i + 1) as bv32)
  {
    if i == 0 {
    } else if i == 1 {
    } else if i == 2 {
    } else if i == 3 {
    } else if i == 4 {
    } else if i == 5 {
    } else if i == 6 {
    } else if i == 7 {
    } else if i == 8 {
    } else if i == 9 {
    } else if i == 10 {
    } else if i == 11 {
    } else if i == 12 {
    } else if i == 13 {
    } else if i == 14 {
    } else if i == 15 {
    } else if i == 16 {
    } else if i == 17 {
    } else if i == 18 {
    } else if i == 19 {
    } else if i == 20 {
    } else if i == 21 {
    } else if i == 22 {
    } else if i == 23 {
    } else if i == 24 {
    } else if i == 25 {
    } else if i == 26 {
    } else if i == 27 {
    } else if i == 28 {
    } else if i == 29 {
    } else if i == 30 {
    }
  }

  lemma IndexOrder(i: nat, j: nat)
    requires i < 32 && j < 32
    ensures i < j <==> (i as bv32) < (j as bv32)
  {
    if i < j {
      IndexBelow(i, j);
    } else if j < i {
      IndexBelow(j, i);
    }
  }

  lemma IndexBack(x: bv32)
    requires x < 32
    ensures (x as nat) < 32 && (x as nat) as bv32 == x
  {
  }

  method NextBit(m: bv32, idx: bv32) returns (i: bv32)
    requires idx < 32
    ensures i <= 32
    ensures i == 32 ==> forall j :: idx < j < 32 ==> !BitSet(m, j)
    ensures i < 32 ==> idx < i && BitSet(m, i) && forall j :: idx < j < i ==> !BitSet(m, j)
  {
    var left := LeftBits(1 << idx) & m;
    if left == 0 {
      i := 32;
      forall j | idx < j < 32
        ensures !BitSet(m, j)
      {
        LeftBitsExact(m, idx, j);
        EmptyMap(j);
      }
    } else {
      i := LeastBitOf(left);
      LeftBitsExact(m, idx, i);
      forall j | idx < j < i
        ensures !BitSet(m, j)
      {
        LeftBitsExact(m, idx, j);
      }
    }
  }

  function IndexOf(b: bv32): nat
  {
    if b < 32 then b as nat else 32
  }

  lemma IndexOfExact(m: bv32, idx: nat, b: bv32, i: nat)
    requires idx < 32 && b <= 32 && (b < 32 ==> (idx as bv32) < b && BitSet(m, b))
    requires i == IndexOf(b)
    ensures i <= 32
    ensures i < 32 ==> idx < i && Marked(m, i) && b == i as bv32
    ensures b < 32 ==> i < 32
  {
    if b < 32 {
      IndexBack(b);
      IndexOrder(idx, i);
      SameBit(m, i);
    }
  }

  lemma NoneBetweenAll(m: bv32, idx: nat, i: nat, b: bv32)
    requires idx < i <= 32
    requires b <= 32 && (b == 32 ==> i == 32) && (b < 32 ==> i < 32 && b == i as bv32)
    requires forall j :: (idx as bv32) < j < b ==> !BitSet(m, j)
    ensures forall j :: idx < j < i ==> !Marked(m, j)
  {
    forall j | idx < j < i
      ensures !Marked(m, j)
    {
      NoneBetween(m, idx, j, i, b);
    }
  }

  lemma NextLift(m: bv32, idx: nat, b: bv32, i: nat)
    requires idx < 32 && b <= 32 && (b < 32 ==> (idx as bv32) < b && BitSet(m, b))
    requires forall j :: (idx as bv32) < j < b ==> !BitSet(m, j)
    requires i == IndexOf(b)
    ensures i <= 32
    ensures i < 32 ==> idx < i && Marked(m, i)
    ensures forall j :: idx < j < i ==> !Marked(m, j)
  {
    IndexOfExact(m, idx, b, i);
    NoneBetweenAll(m, idx, i, b);
  }

  /** The nearest marked bin above `idx`; 32 when there is none. */
  method NextMarked(m: bv32, idx: nat) returns (i: nat)
    requires idx < 32
    ensures i <= 32
    ensures i < 32 ==> idx < i && Marked(m, i)
    ensures forall j :: idx < j < i ==> !Marked(m, j)
  {
    SameBit(m, idx);
    var b := NextBit(m, idx as bv32);
    i := IndexOf(b);
    NextLift(m, idx, b, i);
  }

  lemma NoneBetween(m: bv32, idx: nat, j: nat, i: nat, b: bv32)
    requires idx < j < i <= 32
    requires b <= 32 && (b == 32 ==> i == 32) && (b < 32 ==> i < 32 && b == i as bv32)
    requires forall j :: (idx as bv32) < j < b ==> !BitSet(m, j)
    ensures !Marked(m, j)
  {
    IndexOrder(idx, j);
    SameBit(m, j);
    if i < 32 {
      IndexOrder(j, i);
    }
  }

  method LeastBitOf(m: bv32) returns (i: bv32)
    requires m != 0
    ensures i < 32 && BitSet(m, i) && forall j :: j < i ==> !BitSet(m, j)
  {
    i := Bit2Idx(LeastBit(m));
    Bit2IdxInverse(m);
    LeastBitIsLeast(m, i, i);
    forall j | j < i
      ensures !BitSet(m, j)
    {
      LeastBitIsLeast(m, i, j);
    }
  }

  /** The lowest marked bin of a non-empty map. */
  method LeastMarked(m: bv32) returns (i: nat)
    requires m != 0
    ensures i < 32 && Marked(m, i)
    ensures forall j :: 0 <= j < i ==> !Marked(m, j)
  {
    var b := LeastBitOf(m);
    IndexBack(b);
    i := b as nat;
    SameBit(m, i);
    forall j | 0 <= j < i
      ensures !Marked(m, j)
    {
      IndexOrder(j, i);
      SameBit(m, j);
    }
  }

  lemma ZeroIffNone(m: bv32)
    ensures m == 0 <==> forall j :: 0 <= j < 32 ==> !Marked(m, j)
  {
    if m == 0 {
      forall j | 0 <= j < 32
        ensures !Marked(m, j)
      {
        SameBit(m, j);
        EmptyMap(j as bv32);
      }
    } else {
      var b := Bit2Idx(LeastBit(m));
      Bit2IdxInverse(m);
      LeastBitIsLeast(m, b, b);
      WitnessMarked(m, b);
    }
  }

  lemma WitnessMarked(m: bv32, b: bv32)
    requires b < 32 && BitSet(m, b)
    ensures exists j :: 0 <= j < 32 && Marked(m, j)
  {
    IndexBack(b);
    SameBit(m, b as nat);
    assert Marked(m, b as nat);
  }

  /** The two low bits of the shifted map are the marks of bins `i` and `i + 1`. */
  lemma LowBits(m: bv32, i: nat)
    requires i < 31
    ensures (m >> i) & 3 != 0 <==> Marked(m, i) || Marked(m, i + 1)
  {
    if i == 0 {
    } else if i == 1 {
    } else if i == 2 {
    } else if i == 3 {
    } else if i == 4 {
    } else if i == 5 {
    } else if i == 6 {
    } else if i == 7 {
    } else if i == 8 {
    } else if i == 9 {
    } else if i == 10 {
    } else if i == 11 {
    } else if i == 12 {
    } else if i == 13 {
    } else if i == 14 {
    } else if i == 15 {
    } else if i == 16 {
    } else if i == 17 {
    } else if i == 18 {
    } else if i == 19 {
    } else if i == 20 {
    } else if i == 21 {
    } else if i == 22 {
    } else if i == 23 {
    } else if i == 24 {
    } else if i == 25 {
    } else if i == 26 {
    } else if i == 27 {
    } else if i == 28 {
    } else if i == 29 {
    } else if i == 30 {
    } else if i == 31 {
    }
  }

  lemma LastBits(m: bv32)
    ensures (m >> 31) & 3 != 0 <==> Marked(m, 31)
  {
  }

  /** The inverted low bit is the step from an unmarked bin to the next. */
  lemma LowBitInverted(m: bv32, i: nat)
    requires i < 32
    ensures !(m >> i) & 1 == if Marked(m, i) then 0 else 1
  {
    if i == 0 {
    } else if i == 1 {
    } else if i == 2 {
    } else if i == 3 {
    } else if i == 4 {
    } else if i == 5 {
    } else if i == 6 {
    } else if i == 7 {
    } else if i == 8 {
    } else if i == 9 {
    } else if i == 10 {
    } else if i == 11 {
    } else if i == 12 {
    } else if i == 13 {
    } else if i == 14 {
    } else if i == 15 {
    } else if i == 16 {
    } else if i == 17 {
    } else if i == 18 {
    } else if i == 19 {
    } else if i == 20 {
    } else if i == 21 {
    } else if i == 22 {
    } else if i == 23 {
    } else if i == 24 {
    } else if i == 25 {
    } else if i == 26 {
    } else if i == 27 {
    } else if i == 28 {
    } else if i == 29 {
    } else if i == 30 {
    } else if i == 31 {
    }
  }
}
