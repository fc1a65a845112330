/** The dirty-page thresholds: the global limits, the cubic control line between them, and the shares of the devices.
    `unsigned long` and `long` are 32 bits wide. */
module Writeback {
  import opened Arith

  const WORD := 0x1_0000_0000
  const HALF := 0x8000_0000
  const PAGE := 4096
  /** 20 MB in pages: the floor under the dirty threshold. */
  const LOW := 5120
  const ONE := 1024

  function Wrap(x: int): (r: nat)
    ensures r < WORD && (0 <= x < WORD ==> r == x)
  {
    x % WORD
  }

  function Max(a: int, b: int): int
  {
    if a >= b then a else b
  }

  /** A threshold set in bytes if there is one, else as a share of memory. */
  function Requested(bytes: nat, ratio: int, available: nat): (pages: nat)
    requires bytes < WORD
    ensures pages <= WORD / 100
  {
    if bytes != 0 then Wrap(bytes + PAGE - 1) / PAGE else Wrap(ratio * available) / 100
  }

  /** The dirty threshold that a setting stands for. */
  function DirtyFor(bytes: nat, ratio: int, available: nat): nat
    requires bytes < WORD
  {
    Max(Requested(bytes, ratio, available), LOW)
  }

  /** The background threshold that a setting stands for, under a dirty threshold. */
  function BackgroundFor(bytes: nat, ratio: int, available: nat, dirty: nat): nat
    requires bytes < WORD
  {
    var pages := Requested(bytes, ratio, available);
    if pages < dirty then pages else dirty / 2
  }

  /** A quarter more, rounded down. */
  predicate QuarterMore(more: nat, pages: nat)
  {
    4 * more <= 5 * pages < 4 * more + 4
  }

  lemma AQuarter(pages: nat)
    requires pages <= WORD / 100
    ensures QuarterMore(Wrap(pages + pages / 4), pages) && Wrap(pages + pages / 4) < HALF
  {
  }

  /** global_dirty_limits: the background threshold is below the dirty one for every setting, and sums of two thresholds
      stay in a word. Both are what was asked for, or the nearest allowed, and a quarter more for a favoured task. */
  method GlobalDirtyLimits(dirtyBytes: nat, dirtyRatio: int, backgroundBytes: nat, backgroundRatio: int, available: nat,
      favoured: bool)
    returns (background: nat, dirty: nat)
    requires dirtyBytes < WORD && backgroundBytes < WORD
    ensures background < dirty && LOW <= dirty < HALF
    ensures var d := DirtyFor(dirtyBytes, dirtyRatio, available);
      if favoured then QuarterMore(dirty, d) else dirty == d
    ensures var b := BackgroundFor(backgroundBytes, backgroundRatio, available,
        DirtyFor(dirtyBytes, dirtyRatio, available));
      if favoured then QuarterMore(background, b) else background == b
  {
    if dirtyBytes != 0 {
      dirty := Wrap(dirtyBytes + PAGE - 1) / PAGE;
    } else {
      dirty := Wrap(dirtyRatio * available) / 100;
    }
    if dirty < LOW {
      dirty := LOW;
    }
    if backgroundBytes != 0 {
      background := Wrap(backgroundBytes + PAGE - 1) / PAGE;
    } else {
      background := Wrap(backgroundRatio * available) / 100;
    }
    if background >= dirty {
      background := dirty / 2;
    }
    if favoured {
      AQuarter(background);
      AQuarter(dirty);
      background := Wrap(background + background / 4);
      dirty := Wrap(dirty + dirty / 4);
    }
  }

  // --- the control line -------------------------------------------------------------------------------

  function Freerun(thresh: nat, background: nat): nat
  {
    Wrap(thresh + background) / 2
  }

  function Setpoint(freerun: nat, limit: nat): nat
  {
    Wrap(freerun + limit) / 2
  }

  /** Division that drops the fraction. */
  function TruncDiv(n: int, d: int): int
    requires d > 0
  {
    if n >= 0 then n / d else -(-n / d)
  }

  function ToLong(x: int): int
  {
    (x + HALF) % WORD - HALF
  }

  /** The distance from the setpoint, 1024 standing for the distance of the limit. */
  function Distance(setpoint: nat, limit: nat, dirty: nat): int
    requires setpoint <= limit
  {
    ToLong(TruncDiv((setpoint - dirty) * ONE, limit - setpoint + 1))
  }

  /** Shifting right rounds down, also below zero. */
  function Cubic(x: int): int
  {
    (x * x / ONE) * x / ONE + ONE
  }

  /** The thresholds that global_dirty_limits and the global limit can give. */
  predicate Scope(thresh: nat, background: nat, globalLimit: nat)
  {
    background < thresh < HALF && globalLimit < HALF
  }

  lemma SetpointBetween(thresh: nat, background: nat, globalLimit: nat)
    requires Scope(thresh, background, globalLimit)
    ensures var f, limit := Freerun(thresh, background), Max(thresh, globalLimit);
      && background <= f < thresh <= limit && f <= Setpoint(f, limit) < limit
      && Setpoint(f, limit) - f <= limit - Setpoint(f, limit)
  {
  }

  /** The global part of bdi_position_ratio. */
  function GlobalRatio(thresh: nat, background: nat, globalLimit: nat, dirty: nat): int
    requires Scope(thresh, background, globalLimit)
  {
    var limit := Max(thresh, globalLimit);
    SetpointBetween(thresh, background, globalLimit);
    if dirty >= limit then 0 else Cubic(Distance(Setpoint(Freerun(thresh, background), limit), limit, dirty))
  }

  lemma QuotientBelow(n: nat, d: nat)
    requires n < d
    ensures 0 <= n * ONE / d <= 1023
  {
    DivMono(0, n * ONE, d);
    DivMono(n * ONE, ONE * d - 1, d);
    DivUnique(ONE * d - 1, d, ONE - 1);
  }

  lemma TruncOrder(a: int, b: int, d: int)
    requires d > 0 && a <= b
    ensures TruncDiv(a, d) <= TruncDiv(b, d)
  {
    if a >= 0 {
      DivMono(a, b, d);
    } else if b < 0 {
      DivMono(-b, -a, d);
    } else {
      DivMono(0, -a, d);
      DivMono(0, b, d);
    }
  }

  /** Between freerun and limit the distance is a proper fraction, and more dirty pages never raise it. */
  lemma DistanceFalls(setpoint: nat, limit: nat, freerun: nat, low: nat, high: nat)
    requires freerun <= low <= high < limit < HALF && freerun <= setpoint < limit
    requires setpoint - freerun <= limit - setpoint
    ensures -1023 <= Distance(setpoint, limit, high) <= Distance(setpoint, limit, low) <= 1023
  {
    DistanceIsFraction(setpoint, limit, freerun, low);
    DistanceIsFraction(setpoint, limit, freerun, high);
    TruncOrder((setpoint - high) * ONE, (setpoint - low) * ONE, limit - setpoint + 1);
  }

  lemma DistanceIsFraction(setpoint: nat, limit: nat, freerun: nat, dirty: nat)
    requires freerun <= dirty < limit < HALF && freerun <= setpoint < limit && setpoint - freerun <= limit - setpoint
    ensures -1023 <= TruncDiv((setpoint - dirty) * ONE, limit - setpoint + 1) <= 1023
    ensures Distance(setpoint, limit, dirty) == TruncDiv((setpoint - dirty) * ONE, limit - setpoint + 1)
  {
    var n, d := setpoint - dirty, limit - setpoint + 1;
    if n >= 0 {
      QuotientBelow(n, d);
    } else {
      QuotientBelow(-n, d);
    }
  }

  lemma SquareOrder(a: nat, b: nat)
    requires a <= b
    ensures a * a <= b * b
  {
  }

  lemma ProductOrder(a: nat, b: nat, c: nat, d: nat)
    requires a <= b && c <= d
    ensures a * c <= b * d
  {
    assert a * c <= b * c;
  }

  lemma NegatedProduct(p: int, x: int)
    ensures p * -x == -(p * x)
  {
  }

  lemma SquareRounded(x: nat, y: nat)
    requires x <= y
    ensures 0 <= x * x / ONE <= y * y / ONE
  {
    SquareOrder(0, x);
    SquareOrder(x, y);
    DivMono(0, x * x, ONE);
    DivMono(x * x, y * y, ONE);
  }

  lemma CubicRisesAbove(x: nat, y: nat)
    requires x <= y
    ensures ONE <= Cubic(x) <= Cubic(y)
  {
    var p, q := x * x / ONE, y * y / ONE;
    SquareRounded(x, y);
    ProductOrder(0, p, 0, x);
    ProductOrder(p, q, x, y);
    DivMono(0, p * x, ONE);
    DivMono(p * x, q * y, ONE);
  }

  lemma CubicRisesBelow(x: int, y: int)
    requires 0 <= x <= y
    ensures Cubic(-y) <= Cubic(-x) <= ONE
  {
    var p, q := x * x / ONE, y * y / ONE;
    SquareRounded(x, y);
    assert -x * -x == x * x && -y * -y == y * y;
    NegatedProduct(p, x);
    NegatedProduct(q, y);
    ProductOrder(0, p, 0, x);
    ProductOrder(p, q, x, y);
    DivMono(-(p * x), 0, ONE);
    DivMono(-(q * y), -(p * x), ONE);
  }

  /** Rounding the square down and then the product down keeps the order, on both sides of zero. */
  lemma CubicRises(x: int, y: int)
    requires x <= y
    ensures Cubic(x) <= Cubic(y)
  {
    if x >= 0 {
      CubicRisesAbove(x, y);
    } else if y <= 0 {
      CubicRisesBelow(-y, -x);
    } else {
      CubicRisesBelow(0, -x);
      CubicRisesAbove(0, y);
    }
  }

  /** The line never rises with the dirty pages, from freerun on, over the limit and beyond. */
  lemma LineFalls(thresh: nat, background: nat, globalLimit: nat, low: nat, high: nat)
    requires Scope(thresh, background, globalLimit) && Freerun(thresh, background) <= low <= high
    ensures GlobalRatio(thresh, background, globalLimit, high) <= GlobalRatio(thresh, background, globalLimit, low)
  {
    var freerun, limit := Freerun(thresh, background), Max(thresh, globalLimit);
    SetpointBetween(thresh, background, globalLimit);
    if high < limit {
      DistanceFalls(Setpoint(freerun, limit), limit, freerun, low, high);
      CubicRises(Distance(Setpoint(freerun, limit), limit, high), Distance(Setpoint(freerun, limit), limit, low));
    } else if low < limit {
      LineBounded(thresh, background, globalLimit, low);
    }
  }

  /** Inside the control scope the line keeps off both ends: it is 2 at least and 2045 at most, not 2.0 at freerun. */
  lemma LineBounded(thresh: nat, background: nat, globalLimit: nat, dirty: nat)
    requires Scope(thresh, background, globalLimit) && Freerun(thresh, background) <= dirty < Max(thresh, globalLimit)
    ensures 2 <= GlobalRatio(thresh, background, globalLimit, dirty) <= 2045
  {
    var freerun, limit := Freerun(thresh, background), Max(thresh, globalLimit);
    SetpointBetween(thresh, background, globalLimit);
    DistanceFalls(Setpoint(freerun, limit), limit, freerun, dirty, dirty);
    CubicRises(-1023, Distance(Setpoint(freerun, limit), limit, dirty));
    CubicRises(Distance(Setpoint(freerun, limit), limit, dirty), 1023);
    assert Cubic(-1023) == 2 && Cubic(1023) == 2045;
  }

  /** Exactly 1.0 at the setpoint, no less below it and no more above it. */
  lemma BalancedAtSetpoint(thresh: nat, background: nat, globalLimit: nat, dirty: nat)
    requires Scope(thresh, background, globalLimit) && Freerun(thresh, background) <= dirty
    ensures var setpoint := Setpoint(Freerun(thresh, background), Max(thresh, globalLimit));
      && GlobalRatio(thresh, background, globalLimit, setpoint) == ONE
      && (dirty <= setpoint ==> GlobalRatio(thresh, background, globalLimit, dirty) >= ONE)
      && (dirty >= setpoint ==> GlobalRatio(thresh, background, globalLimit, dirty) <= ONE)
  {
    var setpoint := Setpoint(Freerun(thresh, background), Max(thresh, globalLimit));
    SetpointBetween(thresh, background, globalLimit);
    assert Cubic(0) == ONE;
    if dirty <= setpoint {
      LineFalls(thresh, background, globalLimit, dirty, setpoint);
    } else {
      LineFalls(thresh, background, globalLimit, setpoint, dirty);
    }
  }

  // --- the devices --------------------------------------------------------------------------------------

  datatype Bdi = Bdi(minRatio: nat, maxRatio: nat, maxPropFrac: nat)

  function Sum(s: seq<int>): int
  {
    if s == [] then 0 else s[0] + Sum(s[1..])
  }

  function MinRatios(bdis: seq<Bdi>): (s: seq<int>)
    ensures |s| == |bdis| && forall i :: 0 <= i < |s| ==> s[i] == bdis[i].minRatio
  {
    if bdis == [] then [] else [bdis[0].minRatio] + MinRatios(bdis[1..])
  }

  lemma {:induction false} SumUpdate(s: seq<int>, i: nat, v: int)
    requires i < |s|
    ensures Sum(s[i := v]) == Sum(s) - s[i] + v
  {
    if i > 0 {
      SumUpdate(s[1..], i - 1, v);
      assert s[i := v][1..] == s[1..][i - 1 := v];
    } else {
      assert s[i := v][1..] == s[1..];
    }
  }

  lemma {:induction false} PartOfSum(s: seq<int>, i: nat)
    requires i < |s| && forall j :: 0 <= j < |s| ==> s[j] >= 0
    ensures 0 <= s[i] <= Sum(s) && Sum(s) >= 0
  {
    if i > 0 {
      PartOfSum(s[1..], i - 1);
    } else if |s| > 1 {
      PartOfSum(s[1..], 0);
    }
  }

  /** Shares in order: no device promised more than its cap, and the promises below the whole. */
  predicate Shares(bdis: seq<Bdi>)
  {
    && (forall i :: 0 <= i < |bdis| ==> bdis[i].minRatio <= bdis[i].maxRatio <= 100)
    && Sum(MinRatios(bdis)) < 100
  }

  lemma Reshared(bdis: seq<Bdi>, i: nat, minRatio: nat)
    requires i < |bdis|
    ensures Sum(MinRatios(bdis[i := bdis[i].(minRatio := minRatio)])) ==
        Sum(MinRatios(bdis)) - bdis[i].minRatio + minRatio
    ensures 0 <= bdis[i].minRatio <= Sum(MinRatios(bdis))
  {
    var changed := bdis[i := bdis[i].(minRatio := minRatio)];
    assert MinRatios(changed) == MinRatios(bdis)[i := minRatio];
    SumUpdate(MinRatios(bdis), i, minRatio);
    PartOfSum(MinRatios(bdis), i);
  }

  lemma SharesKept(bdis: seq<Bdi>, i: nat, bdi: Bdi)
    requires Shares(bdis) && i < |bdis| && bdi == bdis[i].(minRatio := bdi.minRatio) && bdi.minRatio <= bdi.maxRatio
    requires Sum(MinRatios(bdis)) - bdis[i].minRatio + bdi.minRatio < 100
    ensures Shares(bdis[i := bdi])
  {
    Reshared(bdis, i, bdi.minRatio);
  }

  /** Adding an unsigned difference is adding the difference, even a negative one. */
  method AddDifference(to: nat, was: nat, now: nat) returns (sum: nat)
    requires was <= to < 100 && now <= 100
    ensures sum == to - was + now
  {
    var more := Wrap(now - was);
    sum := Wrap(to + more);
  }

  lemma FractionOfBase(base: nat, ratio: nat)
    requires base * 100 < WORD && ratio <= 100
    ensures var f := Wrap(base * ratio) / 100; 0 <= f && f * 100 <= base * ratio < (f + 1) * 100
  {
    ProductOrder(base, base, ratio, 100);
  }

  class Control {
    var globalDirtyLimit: nat
    var bdiMinRatio: nat
    var bdis: seq<Bdi>

    predicate Valid()
      reads this
    {
      Shares(bdis) && bdiMinRatio == Sum(MinRatios(bdis))
    }

    /** Any devices whose shares are in order; none is promised anything before bdi_set_min_ratio. */
    constructor (bdis: seq<Bdi>)
      requires Shares(bdis)
      ensures Valid() && this.bdis == bdis
    {
      globalDirtyLimit, bdiMinRatio, this.bdis := 0, NonNegative(MinRatios(bdis)), bdis;
    }

    /** bdi_set_min_ratio: the share is taken exactly when it is within the cap and all shares together stay below the
        whole. The difference may be negative; unsigned arithmetic brings it back. */
    method SetMinRatio(i: nat, minRatio: nat) returns (ok: bool)
      requires Valid() && i < |bdis| && minRatio < WORD
      modifies `bdiMinRatio, `bdis
      ensures Valid()
      ensures ok <==>
        && minRatio <= old(bdis[i].maxRatio)
        && Sum(MinRatios(old(bdis))) - old(bdis[i].minRatio) + minRatio < 100
      ensures bdis == if ok then old(bdis)[i := old(bdis[i]).(minRatio := minRatio)] else old(bdis)
    {
      if minRatio > bdis[i].maxRatio {
        return false;
      }
      Reshared(bdis, i, minRatio);
      var total := AddDifference(bdiMinRatio, bdis[i].minRatio, minRatio);
      if total >= 100 {
        return false;
      }
      var share := AddDifference(bdis[i].minRatio, bdis[i].minRatio, minRatio);
      var bdi := bdis[i].(minRatio := share);
      SharesKept(bdis, i, bdi);
      bdiMinRatio := total;
      bdis := bdis[i := bdi];
      ok := true;
    }

    /** bdi_set_max_ratio: refused above the whole, and below what the device was promised. */
    method SetMaxRatio(i: nat, maxRatio: nat, fractionBase: nat) returns (ok: bool)
      requires Valid() && i < |bdis| && maxRatio < WORD && fractionBase * 100 < WORD
      modifies `bdis
      ensures Valid() && |bdis| == |old(bdis)|
      ensures ok <==> old(bdis[i].minRatio) <= maxRatio <= 100
      ensures ok ==> bdis[i].maxPropFrac * 100 <= fractionBase * maxRatio < (bdis[i].maxPropFrac + 1) * 100
      ensures ok ==> bdis == old(bdis)[i := Bdi(old(bdis[i].minRatio), maxRatio, bdis[i].maxPropFrac)]
      ensures !ok ==> bdis == old(bdis)
    {
      if maxRatio > 100 || bdis[i].minRatio > maxRatio {
        return false;
      }
      FractionOfBase(fractionBase, maxRatio);
      var bdi := bdis[i].(maxRatio := maxRatio, maxPropFrac := Wrap(fractionBase * maxRatio) / 100);
      assert MinRatios(bdis[i := bdi]) == MinRatios(bdis);
      bdis := bdis[i := bdi];
      ok := true;
    }

    /** update_dirty_limit: the limit follows up at once and down by a 32nd of the way, but never below the threshold,
        nor below the dirty pages it was above. It comes to rest within 31 pages of its target. */
    method UpdateDirtyLimit(thresh: nat, dirty: nat)
      modifies `globalDirtyLimit
      ensures globalDirtyLimit >= thresh
      ensures old(globalDirtyLimit) >= dirty ==> globalDirtyLimit >= dirty
      ensures old(globalDirtyLimit) < thresh ==> globalDirtyLimit == thresh
      ensures old(globalDirtyLimit) >= thresh ==>
        && globalDirtyLimit <= old(globalDirtyLimit)
        && (globalDirtyLimit < old(globalDirtyLimit) <==> old(globalDirtyLimit) - Max(thresh, dirty) >= 32)
    {
      var limit := globalDirtyLimit;
      if limit < thresh {
        globalDirtyLimit := thresh;
        return;
      }
      var target := Max(thresh, dirty);
      if limit > target {
        globalDirtyLimit := limit - (limit - target) / 32;
      }
    }
  }

  // --- the shares of the dirty threshold ------------------------------------------------------------------

  /** bdi_dirty_limit: what the promises leave, by the fraction of the writing done, then the promise, then the cap. */
  function BdiDirtyLimit(bdi: Bdi, minRatios: nat, dirty: nat, numerator: nat, denominator: nat): nat
    requires minRatios <= 100 && denominator > 0
  {
    var left := Wrap(dirty * (100 - minRatios)) / 100;
    DivNonNegative(left * numerator, denominator);
    var share := left * numerator / denominator + Wrap(dirty * bdi.minRatio) / 100;
    var cap := Wrap(dirty * bdi.maxRatio) / 100;
    if share > cap then cap else share
  }

  lemma WrapBelow(x: nat)
    ensures Wrap(x) / 100 <= x / 100
    ensures x >= WORD ==> Wrap(x) / 100 < x / 100
  {
  }

  /** No device gets more than its cap, whatever the fraction, even where the products wrap. */
  lemma CapHolds(bdi: Bdi, minRatios: nat, dirty: nat, numerator: nat, denominator: nat)
    requires minRatios <= 100 && denominator > 0
    ensures BdiDirtyLimit(bdi, minRatios, dirty, numerator, denominator) <= dirty * bdi.maxRatio / 100
  {
    ProductOrder(0, dirty, 0, bdi.maxRatio);
    WrapBelow(dirty * bdi.maxRatio);
  }

  /** The pages that a ratio of the threshold stands for. */
  function Pages(dirty: nat, ratio: nat): (r: nat)
    ensures r == dirty * ratio
  {
    ProductOrder(0, dirty, 0, ratio);
    dirty * ratio
  }

  /** The promise holds for every fraction of the writing exactly when its product does not wrap and the cap, after any
      wrapping, still covers it. */
  lemma PromiseHolds(bdi: Bdi, minRatios: nat, dirty: nat, denominator: nat)
    requires minRatios <= 100 && denominator > 0
    ensures
      (forall n: nat {:trigger BdiDirtyLimit(bdi, minRatios, dirty, n, denominator)} ::
         Pages(dirty, bdi.minRatio) / 100 <= BdiDirtyLimit(bdi, minRatios, dirty, n, denominator)) <==>
      (&& Pages(dirty, bdi.minRatio) < WORD
       && Pages(dirty, bdi.minRatio) / 100 <= Wrap(Pages(dirty, bdi.maxRatio)) / 100)
  {
    WrapBelow(Pages(dirty, bdi.minRatio));
    NothingWritten(bdi, minRatios, dirty, denominator);
    forall n: nat {:trigger BdiDirtyLimit(bdi, minRatios, dirty, n, denominator)}
      ensures BdiDirtyLimit(bdi, minRatios, dirty, n, denominator) >= BdiDirtyLimit(bdi, minRatios, dirty, 0,
          denominator)
    {
      MoreWritten(bdi, minRatios, dirty, n, denominator);
    }
  }

  /** A device that writes nothing gets its promise, as the products leave it, under its cap. */
  lemma NothingWritten(bdi: Bdi, minRatios: nat, dirty: nat, denominator: nat)
    requires minRatios <= 100 && denominator > 0
    ensures var least, cap := Wrap(Pages(dirty, bdi.minRatio)) / 100, Wrap(Pages(dirty, bdi.maxRatio)) / 100;
      BdiDirtyLimit(bdi, minRatios, dirty, 0, denominator) == if least > cap then cap else least
  {
    var left := Wrap(dirty * (100 - minRatios)) / 100;
    assert left * 0 == 0;
    SmallMod(0, denominator);
    DivUnique(0, denominator, 0);
  }

  lemma MoreWritten(bdi: Bdi, minRatios: nat, dirty: nat, n: nat, denominator: nat)
    requires minRatios <= 100 && denominator > 0
    ensures BdiDirtyLimit(bdi, minRatios, dirty, n, denominator) >= BdiDirtyLimit(bdi, minRatios, dirty, 0, denominator)
  {
    var left := Wrap(dirty * (100 - minRatios)) / 100;
    ProductOrder(left, left, 0, n);
    DivMono(left * 0, left * n, denominator);
  }

  /** A threshold and a promise that the cap breaks: 100 percent of it wraps to less than 50 percent. */
  lemma PromiseBroken(minRatios: nat, n: nat, denominator: nat)
    requires minRatios <= 100 && denominator > 0
    ensures BdiDirtyLimit(Bdi(50, 100, 1024), minRatios, 50000000, n, denominator) < 50000000 * 50 / 100
  {
  }

  lemma FloorSum(a: int, b: int, d: int)
    requires d > 0
    ensures a / d + b / d <= (a + b) / d
  {
    DivMono(d * (a / d) + d * (b / d), a + b, d);
    assert d * (a / d) + d * (b / d) == d * (a / d + b / d);
    MulDiv(a / d + b / d, d);
  }

  lemma MulDiv(q: int, d: int)
    requires d > 0
    ensures d * q / d == q
  {
    DivUnique(d * q, d, q);
  }

  /** What devices get, the cap aside. */
  ghost function Limits(bdis: seq<Bdi>, minRatios: nat, dirty: nat, numerators: seq<nat>,
      denominator: nat): (s: seq<int>)
    requires |numerators| == |bdis| && minRatios <= 100 && denominator > 0
    ensures |s| == |bdis|
    ensures forall i :: 0 <= i < |s| ==> s[i] == BdiDirtyLimit(bdis[i], minRatios, dirty, numerators[i], denominator)
  {
    if bdis == [] then []
    else [BdiDirtyLimit(bdis[0], minRatios, dirty, numerators[0], denominator)]
         + Limits(bdis[1..], minRatios, dirty, numerators[1..], denominator)
  }

  lemma {:induction false} LimitsBelow(bdis: seq<Bdi>, minRatios: nat, dirty: nat, numerators: seq<nat>,
      denominator: nat, left: nat)
    requires |numerators| == |bdis| && minRatios <= 100 && denominator > 0
    requires left == Wrap(dirty * (100 - minRatios)) / 100
    ensures Sum(Limits(bdis, minRatios, dirty, numerators, denominator))
         <= left * Sum(numerators) / denominator + dirty * Sum(MinRatios(bdis)) / 100
  {
    if bdis == [] {
      assert left * 0 == 0;
    } else {
      LimitsBelow(bdis[1..], minRatios, dirty, numerators[1..], denominator, left);
      OneLimit(bdis[0], minRatios, dirty, numerators[0], denominator, left);
      LimitsCons(bdis, minRatios, dirty, numerators, denominator);
      OneMore(left, numerators[0], Sum(numerators[1..]), denominator);
      OneMore(dirty, bdis[0].minRatio, Sum(MinRatios(bdis[1..])), 100);
    }
  }

  lemma LimitsCons(bdis: seq<Bdi>, minRatios: nat, dirty: nat, numerators: seq<nat>, denominator: nat)
    requires bdis != [] && |numerators| == |bdis| && minRatios <= 100 && denominator > 0
    ensures Sum(Limits(bdis, minRatios, dirty, numerators, denominator))
         == BdiDirtyLimit(bdis[0], minRatios, dirty, numerators[0], denominator)
          + Sum(Limits(bdis[1..], minRatios, dirty, numerators[1..], denominator))
    ensures Sum(numerators) == numerators[0] + Sum(numerators[1..])
    ensures Sum(MinRatios(bdis)) == bdis[0].minRatio + Sum(MinRatios(bdis[1..]))
  {
    assert MinRatios(bdis)[1..] == MinRatios(bdis[1..]);
    assert Limits(bdis, minRatios, dirty, numerators, denominator)[1..]
        == Limits(bdis[1..], minRatios, dirty, numerators[1..], denominator);
  }

  lemma OneLimit(bdi: Bdi, minRatios: nat, dirty: nat, numerator: nat, denominator: nat, left: nat)
    requires minRatios <= 100 && denominator > 0
    requires left == Wrap(dirty * (100 - minRatios)) / 100
    ensures BdiDirtyLimit(bdi, minRatios, dirty, numerator,
        denominator) <= left * numerator / denominator + dirty * bdi.minRatio / 100
  {
    ProductOrder(0, dirty, 0, bdi.minRatio);
    WrapBelow(dirty * bdi.minRatio);
  }

  lemma OneMore(k: int, a: int, b: int, d: int)
    requires d > 0
    ensures k * a / d + k * b / d <= k * (a + b) / d
  {
    FloorSum(k * a, k * b, d);
    assert k * (a + b) == k * a + k * b;
  }

  /** All devices together never get more than the threshold: wrapping only takes away. */
  lemma SharesFit(bdis: seq<Bdi>, dirty: nat, numerators: seq<nat>, denominator: nat)
    requires Shares(bdis) && |numerators| == |bdis| && denominator > 0 && Sum(numerators) <= denominator
    ensures 0 <= Sum(MinRatios(bdis)) < 100
    ensures Sum(Limits(bdis, Sum(MinRatios(bdis)), dirty, numerators, denominator)) <= dirty
  {
    if bdis == [] {
      return;
    }
    PartOfSum(MinRatios(bdis), 0);
    var m := Sum(MinRatios(bdis));
    ProductOrder(0, dirty, 0, 100 - m);
    WrapBelow(dirty * (100 - m));
    var left := Wrap(dirty * (100 - m)) / 100;
    LimitsBelow(bdis, m, dirty, numerators, denominator, left);
    FractionOf(left, NonNegative(numerators), denominator);
    WholeSplit(dirty, m);
  }

  lemma FractionOf(left: nat, n: nat, d: nat)
    requires n <= d && d > 0
    ensures left * n / d <= left
  {
    ProductOrder(left, left, n, d);
    DivMono(left * n, d * left, d);
    MulDiv(left, d);
  }

  lemma WholeSplit(dirty: nat, m: nat)
    requires m <= 100
    ensures dirty * (100 - m) / 100 + dirty * m / 100 <= dirty
  {
    FloorSum(dirty * (100 - m), dirty * m, 100);
    assert dirty * (100 - m) + dirty * m == 100 * dirty;
  }

  function NonNegative(s: seq<nat>): (r: nat)
    ensures r == Sum(s)
  {
    if s == [] then 0 else s[0] + NonNegative(s[1..])
  }
}
