/**
 * Price arithmetic: the platform's rounded official cut, the capped ordinary price
 * and the in-place correction of a custom price. Amounts are cents, a rate is an
 * exact fraction below one, and a platform cap may be finer than a cent.
 */
module Prices {
  import opened CampaignTypes

  datatype Fraction = Fraction(num: nat, den: nat)

  /** An official discount rate: at least zero and below one. */
  type Rate = r: Fraction | r.num < r.den witness Fraction(0, 1)

  const HUNDRED_YUAN: Cents := 10000
  const TWO_YUAN: Cents := 200
  const TEN_PERCENT: Rate := Fraction(1, 10)

  function Min(a: int, b: int): int { if a <= b then a else b }

  function Max(a: int, b: int): int { if a >= b then a else b }

  function Abs(a: int): nat { if a < 0 then -a else a }

  /** Half-up to the cent below 100 yuan, up to the whole yuan from there on. */
  function OfficialCut(daily: nat, rate: Rate): nat {
    if daily < HUNDRED_YUAN
    then (2 * (daily * rate.num) + rate.den) / (2 * rate.den)
    else 100 * ((daily * rate.num + 100 * rate.den - 1) / (100 * rate.den))
  }

  /** What the buyer pays after the official cut alone. */
  function Net(price: nat, rate: Rate): int {
    price - OfficialCut(price, rate)
  }

  lemma DivMod(a: int, b: int)
    requires b > 0
    ensures b * (a / b) <= a < b * (a / b) + b
  {
  }

  lemma DivUnique(a: int, b: int, q: int)
    requires b > 0
    requires b * q <= a < b * q + b
    ensures a / b == q
  {
    DivMod(a, b);
    var d := a / b;
    if d < q {
      MulLe(d + 1, q, b);
    } else if q < d {
      MulLe(q + 1, d, b);
    }
  }

  lemma MulLe(x: int, y: int, k: int)
    requires x <= y && k >= 0
    ensures k * x <= k * y
    ensures x * k <= y * k
  {
  }

  /** The amount c is the official cut of a price below 100 yuan. */
  predicate NearestCent(exactNum: int, den: nat, c: int) {
    2 * (c * den) - den <= 2 * exactNum < 2 * (c * den) + den
  }

  /** The amount c is the least whole number of yuan not below the exact cut. */
  predicate LeastWholeYuan(exactNum: int, den: nat, c: int) {
    c % 100 == 0 && c * den - 100 * den < exactNum <= c * den
  }

  /** The cut is fixed, in both ranges, by where the exact cut daily*rate lies. */
  lemma CutCharacterised(daily: nat, rate: Rate, c: int)
    ensures daily < HUNDRED_YUAN ==>
              (c == OfficialCut(daily, rate) <==> NearestCent(daily * rate.num, rate.den, c))
    ensures daily >= HUNDRED_YUAN ==>
              (c == OfficialCut(daily, rate) <==> LeastWholeYuan(daily * rate.num, rate.den, c))
  {
    var e, d := daily * rate.num, rate.den;
    if daily < HUNDRED_YUAN {
      DivMod(2 * e + d, 2 * d);
      assert forall q: int :: (2 * d) * q == 2 * (q * d);
      if NearestCent(e, d, c) {
        DivUnique(2 * e + d, 2 * d, c);
      }
    } else {
      var q := (e + 100 * d - 1) / (100 * d);
      DivMod(e + 100 * d - 1, 100 * d);
      assert (100 * d) * q == (100 * q) * d;
      if LeastWholeYuan(e, d, c) {
        var k := c / 100;
        assert c == 100 * k;
        assert (100 * d) * k == c * d;
        DivUnique(e + 100 * d - 1, 100 * d, k);
      }
    }
  }

  lemma CutIsRounded(daily: nat, rate: Rate)
    ensures daily < HUNDRED_YUAN ==> NearestCent(daily * rate.num, rate.den, OfficialCut(daily, rate))
    ensures daily >= HUNDRED_YUAN ==> LeastWholeYuan(daily * rate.num, rate.den, OfficialCut(daily, rate))
  {
  }

  /** The official cut never falls when the price rises, also across 100 yuan. */
  lemma CutMonotone(low: nat, high: nat, rate: Rate)
    requires low <= high
    ensures OfficialCut(low, rate) <= OfficialCut(high, rate)
  {
    var d, a, b := rate.den, OfficialCut(low, rate), OfficialCut(high, rate);
    CutIsRounded(low, rate);
    CutIsRounded(high, rate);
    MulLe(low, high, rate.num);
    if b < a {
      if low >= HUNDRED_YUAN {
        SmallerProduct(b, a, 100, d);
      } else {
        SmallerProduct(b, a, 1, d);
      }
    }
  }

  lemma SmallerProduct(b: int, a: int, step: nat, d: nat)
    requires b <= a - step
    ensures b * d <= a * d - step * d
  {
  }

  /** The cap divided by one minus the rate, rounded down to the cent. */
  function FloorQuotient(cap: int, rate: Rate): int {
    (cap * rate.den) / (rate.den - rate.num)
  }

  /** It is the greatest price whose exact, unrounded net price respects the cap. */
  lemma FloorQuotientGreatest(p: int, cap: int, rate: Rate)
    ensures p <= FloorQuotient(cap, rate) <==> p * (rate.den - rate.num) <= cap * rate.den
  {
    var k, q := rate.den - rate.num, FloorQuotient(cap, rate);
    DivMod(cap * rate.den, k);
    if p <= q {
      MulLe(p, q, k);
    } else {
      MulLe(q + 1, p, k);
    }
  }

  /** Rounding never breaks a cap that the exact net price respects. */
  lemma RoundingKeepsCap(p: nat, cap: int, rate: Rate)
    requires p <= FloorQuotient(cap, rate)
    ensures Net(p, rate) <= cap
  {
    var d, c := rate.den, OfficialCut(p, rate);
    FloorQuotientGreatest(p, cap, rate);
    CutIsRounded(p, rate);
    Distribute(p, c, d);
    DistributeLeft(p, d, rate.num);
    if p - c > cap {
      SmallerProduct(cap, p - c, 1, d);
    }
  }

  lemma Distribute(a: int, b: int, k: int)
    ensures (a - b) * k == a * k - b * k
  {
  }

  lemma DistributeLeft(k: int, a: int, b: int)
    ensures k * (a - b) == k * a - k * b
  {
  }

  // ---------- where the net price falls ----------

  /** Below 100 yuan the net price never falls when the price rises. */
  lemma NetMonotoneBelow(low: nat, high: nat, rate: Rate)
    requires low <= high < HUNDRED_YUAN
    ensures Net(low, rate) <= Net(high, rate)
  {
    var d, a, b, k := rate.den, OfficialCut(low, rate), OfficialCut(high, rate), high - low;
    CutIsRounded(low, rate);
    CutIsRounded(high, rate);
    Distribute(high, low, rate.num);
    MulLe(rate.num, d, k);
    Distribute(b, a, d);
    if b - a > k {
      SmallerProduct(k, b - a, 1, d);
    }
  }

  /** The step from 99.99 to 100 yuan, where the kind of rounding changes. */
  lemma NetAtHundred(rate: Rate)
    ensures Net(HUNDRED_YUAN, rate) < Net(HUNDRED_YUAN - 1, rate)
            <==> 2 * ((HUNDRED_YUAN - 1) * rate.num) < (2 * OfficialCut(HUNDRED_YUAN, rate) - 3) * rate.den
  {
    var d: int, c: int, top: int := rate.den, OfficialCut(HUNDRED_YUAN - 1, rate), OfficialCut(HUNDRED_YUAN, rate);
    CutIsRounded(HUNDRED_YUAN - 1, rate);
    var e := (HUNDRED_YUAN - 1) * rate.num;
    assert (2 * top - 3) * d == 2 * (top * d) - 3 * d;
    if c + 1 < top {
      SmallerProduct(c, top, 2, d);
    } else {
      MulLe(top - 1, c, d);
      Distribute(top, 1, d);
    }
  }

  /**
   * From 100 yuan on one cent more lowers the net price exactly when the cut of the lower price
   * no longer covers the exact cut of the higher one; then it falls by 99 cents.
   */
  lemma NetFallsExactly(p: nat, rate: Rate)
    requires p >= HUNDRED_YUAN
    ensures Net(p + 1, rate) < Net(p, rate) <==> OfficialCut(p, rate) * rate.den < (p + 1) * rate.num
    ensures Net(p + 1, rate) == Net(p, rate) + if Net(p + 1, rate) < Net(p, rate) then -99 else 1
  {
    var d, c := rate.den, OfficialCut(p, rate);
    CutIsRounded(p, rate);
    assert (p + 1) * rate.num == p * rate.num + rate.num;
    Distribute(c, -100, d);
    if c * d < (p + 1) * rate.num {
      CutCharacterised(p + 1, rate, c + 100);
    } else {
      CutCharacterised(p + 1, rate, c);
    }
  }

  /** The first p with p * num above c * den. */
  function FirstAbove(c: nat, den: nat, num: nat): nat
    requires num > 0
  {
    c * den / num + 1
  }

  /** The first price whose exact cut the cut of s does not cover. */
  function NextJump(s: nat, rate: Rate): nat
    requires rate.num > 0
  {
    FirstAbove(OfficialCut(s, rate), rate.den, rate.num)
  }

  lemma AboveQuotient(p: nat, a: nat, b: nat)
    requires b > 0
    ensures p < a / b + 1 <==> p * b <= a
  {
    DivMod(a, b);
    if p <= a / b {
      MulLe(p, a / b, b);
    } else {
      MulLe(a / b + 1, p, b);
    }
  }

  lemma JumpIsFirst(s: nat, rate: Rate, p: nat)
    requires s >= HUNDRED_YUAN && rate.num > 0
    ensures p < NextJump(s, rate) <==> p * rate.num <= OfficialCut(s, rate) * rate.den
    ensures s < NextJump(s, rate)
  {
    CutIsRounded(s, rate);
    hide OfficialCut;
    AboveQuotient(p, OfficialCut(s, rate) * rate.den, rate.num);
    AboveQuotient(s, OfficialCut(s, rate) * rate.den, rate.num);
  }

  /** Up to the next jump the cut stays and the net price only rises. */
  lemma NetBeforeJump(s: nat, p: nat, rate: Rate)
    requires HUNDRED_YUAN <= s <= p && (rate.num > 0 ==> p < NextJump(s, rate))
    ensures Net(p, rate) == Net(s, rate) + (p - s)
  {
    if rate.num > 0 {
      JumpIsFirst(s, rate, p);
    }
    CutIsRounded(s, rate);
    MulLe(s, p, rate.num);
    CutCharacterised(p, rate, OfficialCut(s, rate));
  }

  /** Jumps are at least 100 cents apart, so no later net price is below that of the first one. */
  lemma NetAfterJump(s: nat, p: nat, rate: Rate)
    requires s >= HUNDRED_YUAN && rate.num > 0 && p >= NextJump(s, rate)
    ensures Net(NextJump(s, rate), rate) <= Net(p, rate)
  {
    var j, d, r, c := NextJump(s, rate), rate.den, rate.num, OfficialCut(s, rate);
    JumpIsFirst(s, rate, j);
    JumpIsFirst(s, rate, j - 1);
    CutAtJump(s, rate);
    var top := OfficialCut(p, rate);
    CutIsRounded(p, rate);
    CutMonotone(j, p, rate);
    if top > c + 100 {
      Distribute(top, 100, d);
      Distribute(top - 100, c, d);
      Distribute(p, j - 1, r);
      assert (top - 100 - c) * d < (p - (j - 1)) * r;
      MulLe(r, d, p - (j - 1));
      if p - (j - 1) <= top - 100 - c {
        MulLe(p - (j - 1), top - 100 - c, d);
      }
    }
  }

  lemma CutAtJump(s: nat, rate: Rate)
    requires s >= HUNDRED_YUAN && rate.num > 0
    ensures OfficialCut(NextJump(s, rate), rate) == OfficialCut(s, rate) + 100
  {
    hide NextJump, OfficialCut;
    var j, c := NextJump(s, rate), OfficialCut(s, rate);
    JumpIsFirst(s, rate, j);
    JumpIsFirst(s, rate, j - 1);
    CutIsRounded(s, rate);
    assert j * rate.num == (j - 1) * rate.num + rate.num;
    Distribute(c, -100, rate.den);
    CutCharacterised(j, rate, c + 100);
  }

  /** From s on, only s itself and the next jump need to be looked at. */
  predicate KeptFrom(s: nat, cap: int, rate: Rate) {
    Net(s, rate) <= cap || (rate.num > 0 && Net(NextJump(s, rate), rate) <= cap)
  }

  lemma KeptFromExactly(s: nat, cap: int, rate: Rate)
    requires s >= HUNDRED_YUAN
    ensures (exists p: nat :: p >= s && Net(p, rate) <= cap) <==> KeptFrom(s, cap, rate)
  {
    if rate.num > 0 {
      JumpIsFirst(s, rate, s);
    }
    if p: nat :| p >= s && Net(p, rate) <= cap {
      if rate.num > 0 && p >= NextJump(s, rate) {
        NetAfterJump(s, p, rate);
      } else {
        NetBeforeJump(s, p, rate);
      }
    }
  }

  /** Whether a price above q keeps the cap, decided by at most three prices. */
  predicate HigherKept(q: int, cap: int, rate: Rate)
    requires q >= -1
  {
    if q + 1 < HUNDRED_YUAN then Net(q + 1, rate) <= cap || KeptFrom(HUNDRED_YUAN, cap, rate)
    else KeptFrom(q + 1, cap, rate)
  }

  /**
   * The floor quotient, though the greatest price by its exact net, is not the greatest price
   * that keeps the cap if and only if the next price keeps it, or the first price of a later
   * range of rounding does.
   */
  lemma FloorQuotientIsConservative(cap: nat, rate: Rate)
    ensures FloorQuotient(cap, rate) >= 0
    ensures var q := FloorQuotient(cap, rate);
            (exists p: nat :: p > q && Net(p, rate) <= cap) <==> HigherKept(q, cap, rate)
  {
    var q := FloorQuotient(cap, rate);
    FloorQuotientGreatest(0, cap, rate);
    var s := if q + 1 < HUNDRED_YUAN then HUNDRED_YUAN else q + 1;
    KeptFromExactly(s, cap, rate);
    if p: nat :| p > q && Net(p, rate) <= cap {
      if p < HUNDRED_YUAN {
        NetMonotoneBelow(q + 1, p, rate);
      } else {
        assert p >= s;
      }
    }
  }

  /** Both happen at ten percent: one cent more costs 99 cents, and a cap of 89.99 is wasted. */
  lemma NetFallsAtTenPercent()
    ensures Net(10001, TEN_PERCENT) == Net(10000, TEN_PERCENT) - 99
    ensures FloorQuotient(8999, TEN_PERCENT) == 9998 && Net(10099, TEN_PERCENT) == 8999
    ensures HigherKept(9998, 8999, TEN_PERCENT)
  {
    assert Net(10000, TEN_PERCENT) == 9000 && Net(10001, TEN_PERCENT) == 8901;
    assert OfficialCut(10000, TEN_PERCENT) == 1000 && FirstAbove(1000, 10, 1) == 10001;
    assert Net(10099, TEN_PERCENT) == 8999;
  }

  /** A price that breaks the cap after rounding lies above the floor quotient. */
  lemma BreachLiesAbove(p: nat, cap: int, rate: Rate)
    requires Net(p, rate) > cap
    ensures FloorQuotient(cap, rate) < p
  {
    if p <= FloorQuotient(cap, rate) {
      RoundingKeepsCap(p, cap, rate);
    }
  }

  // ---------- campaign_cap_price.py ----------

  datatype Capped = Capped(cut: Cents, deduct: Cents, final: Cents)

  function Ceil(x: real): int { -((-x).Floor) }

  /** Platform caps are reals in cents: only the price and the target are whole cents. */
  function OrdinaryPrice(daily: Cents, target: Cents, rate: Rate, cap: real, limit: real): Result<Capped> {
    if daily <= 0 || target <= 0 || cap <= 0.0 || rate.num == 0 || !(0.0 <= limit <= TWO_YUAN as real) then
      Err("invalid_cap_price_input")
    else
      var cut := OfficialCut(daily, rate);
      var desired := if target as real <= cap then target as real else cap;
      var deduct := Ceil((daily - cut) as real - desired);
      var final := daily - cut - deduct;
      if deduct < 0 || final <= 0 then Err("price_formula_cannot_meet_frozen_target")
      else if final as real > cap then Err("final_exceeds_current_platform_cap")
      else if Abs(final - target) as real > limit then
        Err("platform_cap_exceeds_frozen_target_tolerance_requires_rotation")
      else Ok(Capped(cut, deduct, final))
  }

  /** f is the greatest cent amount that exceeds neither the target nor the cap. */
  predicate GreatestWithin(f: Cents, target: Cents, cap: real) {
    f <= target && f as real <= cap && (f + 1 > target || (f + 1) as real > cap)
  }

  /**
   * The capped price succeeds exactly when the greatest cent amount within target and
   * cap is positive, reachable by a deduction and within the tolerance; it is then that
   * amount. The guard against a final above the cap never fires.
   */
  lemma OrdinaryPriceExact(daily: Cents, target: Cents, rate: Rate, cap: real, limit: real, f: Cents)
    requires daily > 0 && target > 0 && cap > 0.0 && rate.num > 0 && 0.0 <= limit <= TWO_YUAN as real
    requires GreatestWithin(f, target, cap)
    ensures var r := OrdinaryPrice(daily, target, rate, cap, limit);
            && (r.Ok? <==> 0 < f <= Net(daily, rate) && (target - f) as real <= limit)
            && (r.Ok? ==> r.value == Capped(OfficialCut(daily, rate), Net(daily, rate) - f, f))
            && (r.Err? ==> r.error != "final_exceeds_current_platform_cap")
  {
    var cut := OfficialCut(daily, rate);
    var desired := if target as real <= cap then target as real else cap;
    assert f as real <= desired < (f + 1) as real;
    assert Ceil((daily - cut) as real - desired) == daily - cut - f;
  }

  /** For a sound price: it succeeds exactly when that amount, the target cut down to the cap, is possible. */
  lemma OrdinaryPriceFollows(daily: Cents, target: Cents, rate: Rate, cap: real)
    requires daily > 0
    ensures var r, f := OrdinaryPrice(daily, target, rate, cap, TWO_YUAN as real), Min(target, cap.Floor);
            && (r.Ok? <==> target > 0 && rate.num > 0 && 0 < f <= Net(daily, rate) && target - f <= TWO_YUAN)
            && (r.Ok? ==> r.value == Capped(OfficialCut(daily, rate), Net(daily, rate) - f, f))
  {
    var f := Min(target, cap.Floor);
    if target > 0 && cap > 0.0 && rate.num > 0 {
      OrdinaryPriceExact(daily, target, rate, cap, TWO_YUAN as real, f);
    }
  }

  // ---------- campaign_cap_prepare.py, custom_price ----------

  /** The fixed original price and its exact 20% floor, with evidence flags. */
  datatype Basis = Basis(original: Cents, floor: real, uncertain: bool, sourced: bool)

  /** None keeps the current price; Some(p) corrects it in place to p. */
  function CustomPrice(current: Cents, cap: Cents, basis: Option<Basis>): Result<Option<Cents>> {
    if current <= 0 || cap <= 0 then Err("custom_current_price_or_cap_missing")
    else if Net(current, TEN_PERCENT) <= cap then Ok(None)
    else if basis.None? || basis.value.uncertain || !basis.value.sourced then
      Err("fixed_custom_original_basis_missing")
    else if basis.value.original <= 0 || basis.value.floor != basis.value.original as real * 0.2 then
      Err("fixed_custom_floor_changed")
    else
      var price := (cap * 10) / 9;
      if price as real < basis.value.floor then Err("custom_below_first_original_twenty_percent_requires_rotation")
      else if price > current || Net(price, TEN_PERCENT) > cap then
        Err("custom_correction_formula_invalid")
      else Ok(Some(price))
  }

  /**
   * A correction strictly lowers a price that breaks the cap to one that keeps it, is the
   * greatest whose exact net price does, and stays on or above the fixed floor. Both guards
   * of custom_correction_formula_invalid are unreachable.
   */
  lemma CustomPriceCorrect(current: Cents, cap: Cents, basis: Option<Basis>)
    ensures var r := CustomPrice(current, cap, basis);
            && (r.Err? ==> r.error != "custom_correction_formula_invalid")
            && (r == Ok(None) <==> current > 0 && cap > 0 && Net(current, TEN_PERCENT) <= cap)
            && (r.Ok? && r.value.Some? ==>
                  var p := r.value.value;
                  && 0 < p < current && Net(p, TEN_PERCENT) <= cap < Net(current, TEN_PERCENT)
                  && (forall q :: q * 9 <= cap * 10 ==> q <= p)
                  && basis.Some? && p as real >= basis.value.original as real * 0.2)
  {
    if current > 0 && cap > 0 && Net(current, TEN_PERCENT) > cap {
      var price := (cap * 10) / 9;
      assert price == FloorQuotient(cap, TEN_PERCENT);
      BreachLiesAbove(current, cap, TEN_PERCENT);
      RoundingKeepsCap(price, cap, TEN_PERCENT);
    }
  }

  /** When a breaching custom price has a valid sourced basis, only the floor can refuse it. */
  lemma CustomPriceRefusedOnlyByFloor(current: Cents, cap: Cents, basis: Basis)
    requires current > 0 && cap > 0 && Net(current, TEN_PERCENT) > cap
    requires !basis.uncertain && basis.sourced
    requires basis.original > 0 && basis.floor == basis.original as real * 0.2
    ensures CustomPrice(current, cap, Some(basis)).Ok? <==>
            5 * FloorQuotient(cap, TEN_PERCENT) >= basis.original
  {
    var price := (cap * 10) / 9;
    assert price == FloorQuotient(cap, TEN_PERCENT);
    CustomPriceCorrect(current, cap, Some(basis));
  }
}
