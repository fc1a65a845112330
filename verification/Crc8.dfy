/** Checksums that take one symbol at a time into a register, whatever the register and the step on it are. */
module Checksum {

  /** Addition of symbols: each is its own inverse. */
  ghost predicate SelfInverse<T(!new)>(add: (T, T) -> T, zero: T)
  {
    (forall x :: add(x, x) == zero) && Common(add) && Cancels(add) && Crosses(add)
  }

  ghost predicate Common<T(!new)>(add: (T, T) -> T)
  {
    forall x, y, d {:trigger add(add(d, x), add(d, y))} :: add(add(d, x), add(d, y)) == add(x, y)
  }

  ghost predicate Cancels<T(!new)>(add: (T, T) -> T)
  {
    forall x, y, d {:trigger add(x, d), add(y, d)} :: add(x, d) == add(y, d) ==> x == y
  }

  ghost predicate Crosses<T(!new)>(add: (T, T) -> T)
  {
    forall u, v, x, y {:trigger add(u, x), add(v, y), add(u, v)} :: add(u, x) == add(v, y) ==> add(u, v) == add(x, y)
  }

  ghost predicate Linear<T(!new)>(f: T -> T, add: (T, T) -> T)
  {
    forall x, y {:trigger f(add(x, y))} :: f(add(x, y)) == add(f(x), f(y))
  }

  ghost predicate Injective<T(!new)>(f: T -> T)
  {
    forall x, y {:trigger f(x), f(y)} :: f(x) == f(y) ==> x == y
  }

  ghost predicate Involution<T(!new)>(f: T -> T)
  {
    forall x {:trigger f(f(x))} :: f(f(x)) == x
  }

  /** Add each symbol to the register, then step. */
  function Fold<T>(f: T -> T, add: (T, T) -> T, crc: T, msg: seq<T>): T
    decreases |msg|
  {
    if msg == [] then crc else Fold(f, add, f(add(crc, msg[0])), msg[1..])
  }

  /** Step, then add each symbol: one step behind. */
  function Register<T>(f: T -> T, add: (T, T) -> T, crc: T, msg: seq<T>): T
    decreases |msg|
  {
    if msg == [] then crc else Register(f, add, add(f(crc), msg[0]), msg[1..])
  }

  lemma {:induction false} RegisterLast<T>(f: T -> T, add: (T, T) -> T, crc: T, msg: seq<T>)
    ensures f(Register(f, add, crc, msg)) == Fold(f, add, f(crc), msg)
    decreases |msg|
  {
    if msg != [] {
      RegisterLast(f, add, add(f(crc), msg[0]), msg[1..]);
    }
  }

  lemma {:induction false} RegisterSnoc<T>(f: T -> T, add: (T, T) -> T, crc: T, msg: seq<T>, b: T)
    ensures Register(f, add, crc, msg + [b]) == add(f(Register(f, add, crc, msg)), b)
    decreases |msg|
  {
    if msg == [] {
      assert (msg + [b])[1..] == [];
    } else {
      RegisterSnoc(f, add, add(f(crc), msg[0]), msg[1..], b);
      assert (msg + [b])[1..] == msg[1..] + [b];
    }
  }

  lemma {:induction false} FoldSplit<T>(f: T -> T, add: (T, T) -> T, crc: T, a: seq<T>, b: seq<T>)
    ensures Fold(f, add, crc, a + b) == Fold(f, add, Fold(f, add, crc, a), b)
    decreases |a|
  {
    if a == [] {
      assert a + b == b;
    } else {
      FoldSplit(f, add, f(add(crc, a[0])), a[1..], b);
      assert (a + b)[1..] == a[1..] + b;
    }
  }

  lemma FoldSnoc<T>(f: T -> T, add: (T, T) -> T, crc: T, msg: seq<T>, b: T)
    ensures Fold(f, add, crc, msg + [b]) == f(add(Fold(f, add, crc, msg), b))
  {
    FoldSplit(f, add, crc, msg, [b]);
    assert [b][1..] == [];
  }

  lemma FoldTwo<T>(f: T -> T, add: (T, T) -> T, crc: T, x: T, y: T, post: seq<T>)
    ensures Fold(f, add, crc, [x, y] + post) == Fold(f, add, f(add(f(add(crc, x)), y)), post)
  {
    assert ([x, y] + post)[1..] == [y] + post && ([y] + post)[1..] == post;
  }

  /** A message followed by its checksum has checksum 0. */
  lemma ChecksumAppended<T(!new)>(f: T -> T, add: (T, T) -> T, zero: T, msg: seq<T>)
    requires SelfInverse(add, zero) && f(zero) == zero
    ensures Fold(f, add, zero, msg + [Fold(f, add, zero, msg)]) == zero
  {
    FoldSnoc(f, add, zero, msg, Fold(f, add, zero, msg));
  }

  /** Different registers stay different over equal symbols. */
  lemma {:induction false} DifferenceStays<T(!new)>(f: T -> T, add: (T, T) -> T, x: T, y: T, msg: seq<T>)
    requires Cancels(add) && Injective(f) && x != y
    ensures Fold(f, add, x, msg) != Fold(f, add, y, msg)
    decreases |msg|
  {
    if msg != [] {
      DifferenceStays(f, add, f(add(x, msg[0])), f(add(y, msg[0])), msg[1..]);
    }
  }

  lemma TwoStepsDiffer<T(!new)>(f: T -> T, add: (T, T) -> T, crc: T, a0: T, a1: T, b0: T, b1: T)
    requires Common(add) && Crosses(add) && Linear(f, add) && f(add(a0, b0)) != add(a1, b1)
    ensures add(f(add(crc, a0)), a1) != add(f(add(crc, b0)), b1)
  {
    var x, y := add(crc, a0), add(crc, b0);
    assert f(add(x, y)) == add(f(x), f(y));
  }

  /** A difference in two adjacent symbols shows in the checksum unless the second cancels the stepped first. */
  lemma DifferenceShows<T(!new)>(f: T -> T, add: (T, T) -> T, zero: T, pre: seq<T>, a0: T, a1: T, b0: T, b1: T,
      post: seq<T>)
    requires Cancels(add) && Injective(f)
    requires Common(add) && Crosses(add) && Linear(f, add) && f(add(a0, b0)) != add(a1, b1)
    ensures Fold(f, add, zero, pre + ([a0, a1] + post)) != Fold(f, add, zero, pre + ([b0, b1] + post))
  {
    var crc := Fold(f, add, zero, pre);
    TwoStepsDiffer(f, add, crc, a0, a1, b0, b1);
    FoldSplit(f, add, zero, pre, [a0, a1] + post);
    FoldSplit(f, add, zero, pre, [b0, b1] + post);
    FoldTwo(f, add, crc, a0, a1, post);
    FoldTwo(f, add, crc, b0, b1, post);
    DifferenceStays(f, add, f(add(f(add(crc, a0)), a1)), f(add(f(add(crc, b0)), b1)), post);
  }

  function Map<T>(f: T -> T, msg: seq<T>): (r: seq<T>)
    ensures |r| == |msg| && forall i :: 0 <= i < |msg| ==> r[i] == f(msg[i])
  {
    if msg == [] then [] else [f(msg[0])] + Map(f, msg[1..])
  }

  /** Two steps that are each other's image under a linear involution compute each other's image of the checksum. */
  lemma {:induction false} MirroredFold<T(!new)>(f: T -> T, g: T -> T, mirror: T -> T, add: (T, T) -> T, crc: T,
      msg: seq<T>)
    requires Linear(mirror, add) && Involution(mirror)
    requires forall x {:trigger g(x)} :: g(x) == mirror(f(mirror(x)))
    ensures Fold(g, add, crc, msg) == mirror(Fold(f, add, mirror(crc), Map(mirror, msg)))
    decreases |msg|
  {
    if msg == [] {
      assert mirror(mirror(crc)) == crc;
    } else {
      MirroredFold(f, g, mirror, add, g(add(crc, msg[0])), msg[1..]);
      assert Map(mirror, msg)[1..] == Map(mirror, msg[1..]);
      assert mirror(g(add(crc, msg[0]))) == f(mirror(add(crc, msg[0])));
    }
  }

  function Eight<T>(f: T -> T, x: T): T { f(f(f(f(f(f(f(f(x)))))))) }

  lemma EightLinear<T(!new)>(f: T -> T, add: (T, T) -> T, x: T, y: T)
    requires Linear(f, add)
    ensures Eight(f, add(x, y)) == add(Eight(f, x), Eight(f, y))
  {
    assert f(f(add(x, y))) == add(f(f(x)), f(f(y)));
    assert f(f(f(f(add(x, y))))) == add(f(f(f(f(x)))), f(f(f(f(y)))));
  }

  lemma EightInjective<T(!new)>(f: T -> T, x: T, y: T)
    requires Injective(f) && Eight(f, x) == Eight(f, y)
    ensures x == y
  {
    assert f(f(f(f(x)))) == f(f(f(f(y))));
  }

  // --- a register that takes a symbol bit by bit -----------------------------------------------------------

  /** Turns of a shift register: each takes the next bit of the symbol and moves the symbol on. */
  function Turns<T>(shift: (T, T) -> T, move: T -> T, crc: T, data: T, n: nat): T
    decreases n
  {
    if n == 0 then crc else Turns(shift, move, shift(crc, data), move(data), n - 1)
  }

  /** One turn on a register that is a stepped value plus the bits taken so far steps the value and takes one bit more.
      `low` are the values that a step leaves below the top bit. */
  ghost predicate TurnSplits<T(!new)>(shift: (T, T) -> T, double: T -> T, add: (T, T) -> T, collect: (T, T) -> T,
      low: T -> bool)
  {
    forall c, e, d {:trigger shift(add(c, e), d)} :: low(e) ==> shift(add(c, e), d) == add(double(c), collect(e, d))
  }

  /** Four turns, with the bits taken before each. */
  lemma FourTurns<T(!new)>(shift: (T, T) -> T, move: T -> T, double: T -> T, add: (T, T) -> T, collect: (T, T) -> T,
                           low: T -> bool, c: T, d0: T, d1: T, d2: T, d3: T, e0: T, e1: T, e2: T, e3: T, n: nat)
    requires TurnSplits(shift, double, add, collect, low) && n >= 4
    requires d1 == move(d0) && d2 == move(d1) && d3 == move(d2)
    requires low(e0) && low(e1) && low(e2) && low(e3)
    requires e1 == collect(e0, d0) && e2 == collect(e1, d1) && e3 == collect(e2, d2)
    ensures Turns(shift, move, add(c, e0), d0, n)
         == Turns(shift, move, add(double(double(double(double(c)))), collect(e3, d3)), move(d3), n - 4)
  {
    var c1 := double(c);
    var c2 := double(c1);
    var c3 := double(c2);
    assert Turns(shift, move, add(c, e0), d0, n) == Turns(shift, move, add(c1, e1), d1, n - 1);
    assert Turns(shift, move, add(c1, e1), d1, n - 1) == Turns(shift, move, add(c2, e2), d2, n - 2);
    assert Turns(shift, move, add(c2, e2), d2, n - 2) == Turns(shift, move, add(c3, e3), d3, n - 3);
  }
}

/** CRC-8 with polynomial 0x31: bit by bit, and by the table of the reflected polynomial. */
module Crc8 {
  import opened Checksum

  const POLY: bv8 := 0x31

  // --- bit by bit -------------------------------------------------------------------------------------

  /** One turn of the loop of calc_crc: shift in the first data bit, and reduce if a bit fell out. */
  function ShiftIn(crc: bv8, data: bv8): bv8
  {
    var shifted := (crc << 1) | (if data & 0x80 != 0 then 1 else 0);
    if crc & 0x80 != 0 then shifted ^ 0x31 else shifted
  }

  /** The register times x, reduced by the polynomial when bit 7 falls out. */
  function Double(c: bv8): bv8 { (c << 1) ^ (c >> 7) ^ ((c >> 7) << 4) ^ ((c >> 7) << 5) }

  function Xor(x: bv8, y: bv8): bv8 { x ^ y }

  /** The register times x^8: what eight turns make of it when only zeros come in. */
  function Times256(c: bv8): bv8 { Eight(Double, c) }

  lemma XorCommon(x: bv8, y: bv8, d: bv8)
    ensures Xor(x, x) == 0 && Xor(Xor(d, x), Xor(d, y)) == Xor(x, y)
  {
  }

  lemma XorCancels(x: bv8, y: bv8, d: bv8)
    requires Xor(x, d) == Xor(y, d)
    ensures x == y
  {
  }

  lemma XorCrosses(u: bv8, v: bv8, x: bv8, y: bv8)
    requires Xor(u, x) == Xor(v, y)
    ensures Xor(u, v) == Xor(x, y)
  {
  }

  lemma XorIsCommon()
    ensures Common(Xor) && forall x :: Xor(x, x) == 0
  {
    forall x, y, d {:trigger Xor(Xor(d, x), Xor(d, y))}
      ensures Xor(x, x) == 0 && Xor(Xor(d, x), Xor(d, y)) == Xor(x, y)
    {
      XorCommon(x, y, d);
    }
  }

  lemma XorIsCancelling()
    ensures Cancels(Xor)
  {
    forall x, y, d {:trigger Xor(x, d), Xor(y, d)} | Xor(x, d) == Xor(y, d)
      ensures x == y
    {
      XorCancels(x, y, d);
    }
  }

  lemma XorIsCrossing()
    ensures Crosses(Xor)
  {
    forall u, v, x, y {:trigger Xor(u, x), Xor(v, y), Xor(u, v)} | Xor(u, x) == Xor(v, y)
      ensures Xor(u, v) == Xor(x, y)
    {
      XorCrosses(u, v, x, y);
    }
  }

  lemma XorSelfInverse()
    ensures SelfInverse(Xor, 0)
  {
    XorIsCommon();
    XorIsCancelling();
    XorIsCrossing();
  }

  lemma DoubleIsLinear()
    ensures Linear(Double, Xor)
  {
  }

  lemma DoubleIsInjective()
    ensures Injective(Double)
  {
  }

  lemma StepIsLinear()
    ensures Linear(Times256, Xor) && Injective(Times256)
  {
    DoubleIsLinear();
    DoubleIsInjective();
    forall x, y
      ensures Times256(Xor(x, y)) == Xor(Times256(x), Times256(y))
    {
      EightLinear(Double, Xor, x, y);
    }
    forall x, y | Times256(x) == Times256(y)
      ensures x == y
    {
      EightInjective(Double, x, y);
    }
  }

  /** The data bits taken so far, with the next one. */
  function Collect(e: bv8, data: bv8): bv8 { (e << 1) | (data >> 7) }

  function MoveOn(data: bv8): bv8 { data << 1 }

  predicate Low(e: bv8) { e < 0x80 }

  lemma ShiftSplits(c: bv8, e: bv8, data: bv8)
    requires Low(e)
    ensures ShiftIn(Xor(c, e), data) == Xor(Double(c), Collect(e, data))
  {
  }

  lemma ShiftInSplits()
    ensures TurnSplits(ShiftIn, Double, Xor, Collect, Low)
  {
    forall c, e, d | Low(e)
      ensures ShiftIn(Xor(c, e), d) == Xor(Double(c), Collect(e, d))
    {
      ShiftSplits(c, e, d);
    }
  }

  lemma CollectsHigh(d0: bv8, d1: bv8, d2: bv8, d3: bv8)
    requires d1 == MoveOn(d0) && d2 == MoveOn(d1) && d3 == MoveOn(d2)
    ensures Collect(0, d0) == d0 >> 7 && Collect(d0 >> 7, d1) == d0 >> 6 && Collect(d0 >> 6, d2) == d0 >> 5
    ensures Collect(d0 >> 5, d3) == d0 >> 4 && Low(0) && Low(d0 >> 7) && Low(d0 >> 6) && Low(d0 >> 5)
  {
  }

  lemma CollectsLow(d0: bv8, d4: bv8, d5: bv8, d6: bv8, d7: bv8)
    requires d4 == MoveOn(MoveOn(MoveOn(MoveOn(d0)))) && d5 == MoveOn(d4) && d6 == MoveOn(d5) && d7 == MoveOn(d6)
    ensures Collect(d0 >> 4, d4) == d0 >> 3 && Collect(d0 >> 3, d5) == d0 >> 2 && Collect(d0 >> 2, d6) == d0 >> 1
    ensures Collect(d0 >> 1, d7) == d0 && Low(d0 >> 4) && Low(d0 >> 3) && Low(d0 >> 2) && Low(d0 >> 1)
  {
  }

  lemma XorZero(x: bv8)
    ensures Xor(x, 0) == x
  {
  }

  lemma EightTurns(crc: bv8, data: bv8)
    ensures Turns(ShiftIn, MoveOn, crc, data, 8) == Xor(Times256(crc), data)
  {
    var d1 := MoveOn(data);
    var d2 := MoveOn(d1);
    var d3 := MoveOn(d2);
    var d4 := MoveOn(d3);
    var d5 := MoveOn(d4);
    var d6 := MoveOn(d5);
    var d7 := MoveOn(d6);
    var half := Double(Double(Double(Double(crc))));
    ShiftInSplits();
    CollectsHigh(data, d1, d2, d3);
    CollectsLow(data, d4, d5, d6, d7);
    XorZero(crc);
    FourTurns(ShiftIn, MoveOn, Double, Xor, Collect, Low, crc, data, d1, d2, d3, 0, data >> 7, data >> 6, data >> 5, 8);
    FourTurns(ShiftIn, MoveOn, Double, Xor, Collect, Low, half, d4, d5, d6, d7, data >> 4, data >> 3, data >> 2,
        data >> 1, 4);
  }

  /** calc_crc: the register becomes its remainder times x^8, plus the data byte. */
  method CalcCrc(crc0: bv8, data0: bv8) returns (crc: bv8)
    ensures crc == Xor(Times256(crc0), data0)
  {
    var data := data0;
    crc := crc0;
    for i := 0 to 8
      invariant Turns(ShiftIn, MoveOn, crc0, data0, 8) == Turns(ShiftIn, MoveOn, crc, data, 8 - i)
    {
      ghost var next := ShiftIn(crc, data);
      var flag := crc & 0x80 != 0;
      var first: bv8 := if data & 0x80 != 0 then 1 else 0;
      crc := (crc << 1) | first;
      data := data << 1;
      if flag {
        crc := crc ^ POLY;
      }
      assert crc == next;
    }
    EightTurns(crc0, data0);
  }

  /** The checksum as the remainder of the message times x^8. */
  function Remainder(msg: seq<bv8>): bv8 { Fold(Times256, Xor, 0, msg) }

  lemma ZeroStays()
    ensures Times256(0) == 0
  {
    assert Double(0) == 0;
  }

  /** crc8: one calc_crc per byte, and one more with a zero byte. */
  method Crc(buf: seq<bv8>) returns (crc: bv8)
    ensures crc == Remainder(buf)
  {
    crc := 0;
    for j := 0 to |buf|
      invariant crc == Register(Times256, Xor, 0, buf[..j])
    {
      RegisterSnoc(Times256, Xor, 0, buf[..j], buf[j]);
      assert buf[..j + 1] == buf[..j] + [buf[j]];
      crc := CalcCrc(crc, buf[j]);
    }
    assert buf[..|buf|] == buf;
    RegisterLast(Times256, Xor, 0, buf);
    ZeroStays();
    XorZero(Times256(crc));
    crc := CalcCrc(crc, 0);
  }

  // --- by table ---------------------------------------------------------------------------------------

  function Pick(n: bv8, a0: bv8, a1: bv8, a2: bv8, a3: bv8, a4: bv8, a5: bv8, a6: bv8, a7: bv8,
                a8: bv8, a9: bv8, a10: bv8, a11: bv8, a12: bv8, a13: bv8, a14: bv8, a15: bv8): bv8
  {
    if n == 0 then a0
    else if n == 1 then a1
    else if n == 2 then a2
    else if n == 3 then a3
    else if n == 4 then a4
    else if n == 5 then a5
    else if n == 6 then a6
    else if n == 7 then a7
    else if n == 8 then a8
    else if n == 9 then a9
    else if n == 10 then a10
    else if n == 11 then a11
    else if n == 12 then a12
    else if n == 13 then a13
    else if n == 14 then a14
    else a15
  }

  /** The 256 entries, by high and low half of the index. */
  function Table(x: bv8): bv8
  {
    var hi, lo := x >> 4, x & 15;
    if hi == 0 then Pick(lo, 0, 94, 188, 226, 97, 63, 221, 131, 194, 156, 126, 32, 163, 253, 31, 65)
    else if hi == 1 then Pick(lo, 157, 195, 33, 127, 252, 162, 64, 30, 95, 1, 227, 189, 62, 96, 130, 220)
    else if hi == 2 then Pick(lo, 35, 125, 159, 193, 66, 28, 254, 160, 225, 191, 93, 3, 128, 222, 60, 98)
    else if hi == 3 then Pick(lo, 190, 224, 2, 92, 223, 129, 99, 61, 124, 34, 192, 158, 29, 67, 161, 255)
    else if hi == 4 then Pick(lo, 70, 24, 250, 164, 39, 121, 155, 197, 132, 218, 56, 102, 229, 187, 89, 7)
    else if hi == 5 then Pick(lo, 219, 133, 103, 57, 186, 228, 6, 88, 25, 71, 165, 251, 120, 38, 196, 154)
    else if hi == 6 then Pick(lo, 101, 59, 217, 135, 4, 90, 184, 230, 167, 249, 27, 69, 198, 152, 122, 36)
    else if hi == 7 then Pick(lo, 248, 166, 68, 26, 153, 199, 37, 123, 58, 100, 134, 216, 91, 5, 231, 185)
    else if hi == 8 then Pick(lo, 140, 210, 48, 110, 237, 179, 81, 15, 78, 16, 242, 172, 47, 113, 147, 205)
    else if hi == 9 then Pick(lo, 17, 79, 173, 243, 112, 46, 204, 146, 211, 141, 111, 49, 178, 236, 14, 80)
    else if hi == 10 then Pick(lo, 175, 241, 19, 77, 206, 144, 114, 44, 109, 51, 209, 143, 12, 82, 176, 238)
    else if hi == 11 then Pick(lo, 50, 108, 142, 208, 83, 13, 239, 177, 240, 174, 76, 18, 145, 207, 45, 115)
    else if hi == 12 then Pick(lo, 202, 148, 118, 40, 171, 245, 23, 73, 8, 86, 180, 234, 105, 55, 213, 139)
    else if hi == 13 then Pick(lo, 87, 9, 235, 181, 54, 104, 138, 212, 149, 203, 41, 119, 244, 170, 72, 22)
    else if hi == 14 then Pick(lo, 233, 183, 85, 11, 136, 214, 52, 106, 43, 117, 151, 201, 74, 20, 246, 168)
    else Pick(lo, 116, 42, 200, 150, 21, 75, 169, 247, 182, 232, 10, 84, 215, 137, 107, 53)
  }

  /** crc8_table over the first `counter` bytes. */
  method CrcByTable(p: seq<bv8>, counter: nat) returns (crc: bv8)
    requires counter <= |p|
    ensures crc == Fold(Table, Xor, 0, p[..counter])
  {
    crc := 0;
    var at := 0;
    for left := counter downto 0
      invariant at == counter - left && crc == Fold(Table, Xor, 0, p[..at])
    {
      FoldSnoc(Table, Xor, 0, p[..at], p[at]);
      assert p[..at + 1] == p[..at] + [p[at]];
      crc := Table(Xor(crc, p[at]));
      at := at + 1;
    }
  }

  /** The bits of a byte, last first. */
  function Reverse(x: bv8): bv8
  {
    ((x & 1) << 7) | ((x & 2) << 5) | ((x & 4) << 3) | ((x & 8) << 1)
    | ((x & 16) >> 1) | ((x & 32) >> 3) | ((x & 64) >> 5) | ((x & 128) >> 7)
  }

  lemma ReverseFacts(x: bv8, y: bv8)
    ensures Reverse(Reverse(x)) == x && Reverse(Xor(x, y)) == Xor(Reverse(x), Reverse(y)) && Reverse(0) == 0
  {
  }

  lemma ReverseIsMirror()
    ensures Linear(Reverse, Xor) && Involution(Reverse)
  {
    forall x, y {:trigger Reverse(Xor(x, y))}
      ensures Reverse(Reverse(x)) == x && Reverse(Xor(x, y)) == Xor(Reverse(x), Reverse(y))
    {
      ReverseFacts(x, y);
    }
  }

  lemma LowTable(x: bv8)
    requires x < 0x10
    ensures Table(x) == Reverse(Times256(Reverse(x)))
  {
  }

  lemma MiddleTable(x: bv8)
    requires 0x10 <= x < 0x80
    ensures Table(x) == Reverse(Times256(Reverse(x)))
  {
  }

  lemma HighTable(x: bv8)
    requires x >= 0x80
    ensures Table(x) == Reverse(Times256(Reverse(x)))
  {
  }

  /** Every entry of the table is the bit-by-bit step seen in reverse. */
  lemma TableIsReversedStep(x: bv8)
    ensures Table(x) == Reverse(Times256(Reverse(x)))
  {
    if x < 0x10 {
      LowTable(x);
    } else if x < 0x80 {
      MiddleTable(x);
    } else {
      HighTable(x);
    }
  }

  /** The table computes the reversed checksum of the message whose bytes are reversed. */
  lemma TableMatchesBits(msg: seq<bv8>)
    ensures Fold(Table, Xor, 0, msg) == Reverse(Remainder(Map(Reverse, msg)))
  {
    ReverseIsMirror();
    forall x
      ensures Table(x) == Reverse(Times256(Reverse(x)))
    {
      TableIsReversedStep(x);
    }
    ReverseFacts(0, 0);
    MirroredFold(Times256, Table, Reverse, Xor, 0, msg);
  }

  // --- what the checksum is good for ------------------------------------------------------------------

  /** A message followed by its checksum has checksum 0. */
  lemma AppendedChecksum(msg: seq<bv8>)
    ensures Remainder(msg + [Remainder(msg)]) == 0
  {
    XorSelfInverse();
    ZeroStays();
    ChecksumAppended(Times256, Xor, 0, msg);
  }

  function Pair(hi: bv8, lo: bv8): bv16 { (hi as bv16 << 8) | (lo as bv16) }

  function Shifted(pattern: bv16, k: bv16): bv16
    requires k <= 8
  {
    pattern << k
  }

  /** Two bytes differ from two others by a burst: all differing bits lie within eight in a row. */
  ghost predicate Burst(a0: bv8, a1: bv8, b0: bv8, b1: bv8)
  {
    exists pattern: bv16, k: bv16 ::
      0 < pattern < 0x100 && k <= 8 && Pair(Xor(a0, b0), Xor(a1, b1)) == Shifted(pattern, k)
  }

  lemma BurstIsNoMultiple(e0: bv8, e1: bv8, pattern: bv16, k: bv16)
    requires 0 < pattern < 0x100 && k <= 8 && Pair(e0, e1) == Shifted(pattern, k)
    ensures Times256(e0) != e1
  {
  }

  lemma BurstShows(a0: bv8, a1: bv8, b0: bv8, b1: bv8)
    requires Burst(a0, a1, b0, b1)
    ensures Times256(Xor(a0, b0)) != Xor(a1, b1)
  {
    var pattern: bv16, k: bv16 :|
      0 < pattern < 0x100 && k <= 8 && Pair(Xor(a0, b0), Xor(a1, b1)) == Shifted(pattern, k);
    BurstIsNoMultiple(Xor(a0, b0), Xor(a1, b1), pattern, k);
  }

  /** Every burst of at most eight wrong bits changes the checksum. */
  lemma BurstDetected(pre: seq<bv8>, a0: bv8, a1: bv8, b0: bv8, b1: bv8, post: seq<bv8>)
    requires Burst(a0, a1, b0, b1)
    ensures Remainder(pre + ([a0, a1] + post)) != Remainder(pre + ([b0, b1] + post))
  {
    BurstShows(a0, a1, b0, b1);
    XorSelfInverse();
    StepIsLinear();
    DifferenceShows(Times256, Xor, 0, pre, a0, a1, b0, b1, post);
  }
}
