/**
 * What the official failures of one SKU lead to, exactly, in terms of the report, the submitted file,
 * the one ERP row and the saved discount: which repair is decided, and which facts it rests on.
 */
module NormalizationLaws {
  import opened CampaignTypes
  import opened Prices
  import opened Policy
  import opened Normalization

  // ---------- the one ERP row and the one saved discount ----------

  /** Exactly one row of s satisfies p, and it is x. */
  ghost predicate OnlyOne<T(!new)>(s: seq<T>, p: T -> bool, x: T) {
    exists i :: 0 <= i < |s| && s[i] == x && p(x) && forall j :: 0 <= j < |s| && j != i ==> !p(s[j])
  }

  lemma {:induction false} FilterNone<T(!new)>(s: seq<T>, p: T -> bool)
    ensures Filter(s, p) == [] <==> forall j :: 0 <= j < |s| ==> !p(s[j])
  {
    if s != [] {
      FilterNone(s[1..], p);
      assert forall j :: 1 <= j < |s| ==> s[j] == s[1..][j - 1];
      assert p(s[0]) ==> Filter(s, p) == [s[0]] + Filter(s[1..], p);
    }
  }

  lemma OnlyFirst<T(!new)>(s: seq<T>, p: T -> bool, x: T)
    requires s != [] && p(s[0])
    ensures OnlyOne(s, p, x) <==> s[0] == x && forall j :: 0 <= j < |s[1..]| ==> !p(s[1..][j])
  {
    assert forall j :: 1 <= j < |s| ==> s[j] == s[1..][j - 1];
    if s[0] == x && forall j :: 0 <= j < |s[1..]| ==> !p(s[1..][j]) {
      assert forall j :: 0 <= j < |s| && j != 0 ==> !p(s[j]);
    }
    if OnlyOne(s, p, x) {
      assert forall j :: 0 <= j < |s[1..]| ==> s[1..][j] == s[j + 1];
    }
  }

  lemma OnlyLater<T(!new)>(s: seq<T>, p: T -> bool, x: T)
    requires s != [] && !p(s[0])
    ensures OnlyOne(s, p, x) <==> OnlyOne(s[1..], p, x)
  {
    var t := s[1..];
    assert forall j :: 1 <= j < |s| ==> s[j] == t[j - 1];
    if i :| 0 <= i < |t| && t[i] == x && p(x) && forall j :: 0 <= j < |t| && j != i ==> !p(t[j]) {
      assert s[i + 1] == x && forall j :: 0 <= j < |s| && j != i + 1 ==> !p(s[j]);
    }
    if i :| 0 <= i < |s| && s[i] == x && p(x) && forall j :: 0 <= j < |s| && j != i ==> !p(s[j]) {
      forall j | 0 <= j < |t| && j != i - 1 ensures !p(t[j]) {
        assert t[j] == s[j + 1];
      }
      assert t[i - 1] == x;
    }
  }

  lemma {:induction false} FilterOne<T(!new)>(s: seq<T>, p: T -> bool, x: T)
    ensures Filter(s, p) == [x] <==> OnlyOne(s, p, x)
  {
    hide OnlyOne;
    if s == [] {
      NoneOfNothing(p, x);
    } else if p(s[0]) {
      OnlyFirst(s, p, x);
      FilterNone(s[1..], p);
      assert Filter(s, p) == [s[0]] + Filter(s[1..], p);
    } else {
      OnlyLater(s, p, x);
      FilterOne(s[1..], p, x);
      assert Filter(s, p) == [] + Filter(s[1..], p) == Filter(s[1..], p);
    }
  }

  lemma NoneOfNothing<T(!new)>(p: T -> bool, x: T)
    ensures !OnlyOne([], p, x)
  {
  }

  /** The only ERP row with the code that the submitted file used for this SKU. */
  ghost predicate OneErpRow(ctx: Context, pair: Pair, facts: ErpRow) {
    && pair in ctx.submitted && facts.code == ctx.submitted[pair].erpCode
    && exists i :: 0 <= i < |ctx.erp| && ctx.erp[i] == facts
                   && forall j :: 0 <= j < |ctx.erp| && j != i ==> ctx.erp[j].code != facts.code
  }

  /** The only saved discount of this SKU. */
  ghost predicate OneSaved(ctx: Context, pair: Pair, saved: SavedDiscount) {
    && saved.pair == pair
    && exists i :: 0 <= i < |ctx.discounts| && ctx.discounts[i] == saved
                   && forall j :: 0 <= j < |ctx.discounts| && j != i ==> ctx.discounts[j].pair != pair
  }

  lemma ErpExactly(ctx: Context, pair: Pair, facts: ErpRow)
    requires pair in ctx.submitted
    ensures MatchesOf(ctx, pair) == [facts] <==> OneErpRow(ctx, pair, facts)
  {
    var code := ctx.submitted[pair].erpCode;
    var p := (r: ErpRow) => r.code == code;
    FilterOne(ctx.erp, p, facts);
    assert MatchesOf(ctx, pair) == Filter(ctx.erp, p) by {
      SameFilter(ctx.erp, p, (r: ErpRow) => r.code == ctx.submitted[pair].erpCode);
    }
    if i :| 0 <= i < |ctx.erp| && ctx.erp[i] == facts && p(facts)
            && forall j :: 0 <= j < |ctx.erp| && j != i ==> !p(ctx.erp[j]) {
      assert OneErpRow(ctx, pair, facts);
    }
    if OneErpRow(ctx, pair, facts) {
      var i :| 0 <= i < |ctx.erp| && ctx.erp[i] == facts
               && forall j :: 0 <= j < |ctx.erp| && j != i ==> ctx.erp[j].code != facts.code;
      assert p(facts) && forall j :: 0 <= j < |ctx.erp| && j != i ==> !p(ctx.erp[j]);
    }
  }

  lemma {:induction false} SameFilter<T(!new)>(s: seq<T>, p: T -> bool, q: T -> bool)
    requires forall x :: p(x) == q(x)
    ensures Filter(s, p) == Filter(s, q)
  {
    if s != [] {
      SameFilter(s[1..], p, q);
    }
  }

  lemma SavedExactly(ctx: Context, pair: Pair, saved: SavedDiscount)
    ensures DiscountsOf(ctx, pair) == [saved] <==> OneSaved(ctx, pair, saved)
  {
    var p := (r: SavedDiscount) => r.pair == pair;
    FilterOne(ctx.discounts, p, saved);
    SameFilter(ctx.discounts, p, (r: SavedDiscount) => r.pair == pair);
    if i :| 0 <= i < |ctx.discounts| && ctx.discounts[i] == saved && p(saved)
            && forall j :: 0 <= j < |ctx.discounts| && j != i ==> !p(ctx.discounts[j]) {
      assert OneSaved(ctx, pair, saved);
    }
    if OneSaved(ctx, pair, saved) {
      var i :| 0 <= i < |ctx.discounts| && ctx.discounts[i] == saved
               && forall j :: 0 <= j < |ctx.discounts| && j != i ==> ctx.discounts[j].pair != pair;
      assert p(saved) && forall j :: 0 <= j < |ctx.discounts| && j != i ==> !p(ctx.discounts[j]);
    }
  }

  // ---------- the group of one SKU ----------

  predicate CapsKnown(errors: seq<Failure>) {
    forall e :: e in errors && (e.kind == ListPrice || e.kind == ApprovedPrice || e.kind == CouponPrice) ==>
      e.proof.cap.Some? && e.proof.cap.value > 0
  }

  /** A known SKU with some constraint on its price and no unexplained failure. */
  predicate Priced(pair: Pair, errors: seq<Failure>) {
    && pair.sku != "" && (exists e :: e in errors && e.kind != NoSales && e.kind != Mapping)
    && forall e :: e in errors ==> e.kind != UnknownKind
  }

  /** Every failure was reported against the price that was submitted, and the ERP row has a daily price. */
  ghost predicate Joined(pair: Pair, errors: seq<Failure>, ctx: Context, facts: ErpRow, daily: nat, price: nat) {
    && Priced(pair, errors) && OneErpRow(ctx, pair, facts) && facts.custom.Some?
    && facts.daily == Some(daily) && daily > 0 && ctx.submitted[pair].activityPrice == Some(price) && price > 0
    && (forall e :: e in errors ==> e.price.submitted == Some(price)) && CapsKnown(errors)
  }

  /** A group without a price constraint, or of an unknown SKU or with an unexplained failure, keeps its first row. */
  lemma UnpricedGroup(pair: Pair, errors: seq<Failure>, ctx: Context)
    requires errors != []
    ensures (forall e :: e in errors ==> e.kind == NoSales || e.kind == Mapping) ==>
              NormalizeGroup(pair, errors, ctx) == errors[0]
    ensures (exists e :: e in errors && e.kind != NoSales && e.kind != Mapping) && !Priced(pair, errors) ==>
              NormalizeGroup(pair, errors, ctx) == errors[0].(kind := UnknownKind)
  {
  }

  /** A joined group is decided by its findings. */
  lemma JoinedGroup(pair: Pair, errors: seq<Failure>, ctx: Context, facts: ErpRow, daily: nat, price: nat)
    requires errors != [] && Joined(pair, errors, ctx, facts, daily, price)
    ensures NormalizeGroup(pair, errors, ctx) ==
            Finish(PricedRow(errors[0], facts, Some(price)), Find(pair, errors, ctx, facts))
    ensures CapsPresent(errors)
  {
    hide Find, Finish;
    ErpExactly(ctx, pair, facts);
    assert CheckSubmitted(errors, facts, Some(price)).Found?;
    assert !NoPriceConstraint(errors) && !HasUnknown(errors);
  }

  /** Only a joined group has findings. */
  lemma FoundIsJoined(pair: Pair, errors: seq<Failure>, ctx: Context)
    requires errors != [] && Raw(errors[0]) && HasFinding(pair, errors, ctx)
    ensures var facts, price := MatchesOf(ctx, pair)[0], ctx.submitted[pair].activityPrice;
            Joined(pair, errors, ctx, facts, facts.daily.value, price.value) || !Priced(pair, errors)
  {
    hide OneErpRow;
    var facts := MatchesOf(ctx, pair)[0];
    assert MatchesOf(ctx, pair) == [facts];
    ErpExactly(ctx, pair, facts);
  }

  // ---------- ordinary SKUs ----------

  /** The ERP row's own target of this mode: the big one, or for any other mode the medium one. */
  predicate TargetIs(facts: ErpRow, mode: Mode, target: Cents) {
    && target > 0
    && match mode
       case Big => facts.bigTarget == Some(target)
       case _ => facts.mediumTarget == Some(target)
  }

  /** A deduction that is not below the current one and answers every list cap, coupon cap and observed gap. */
  predicate Answers(d: Cents, current: Cents, daily: nat, errors: seq<Failure>, rate: Rate) {
    && d >= current
    && (forall e :: e in errors && e.kind == ListPrice && e.proof.cap.Some? ==> daily - d <= e.proof.cap.value)
    && (forall e :: e in errors && e.kind == CouponPrice && e.proof.cap.Some? ==>
          && Net(daily, rate) - d <= e.proof.cap.value
          && (e.proof.observed.Some? ==> e.proof.observed.value - (d - current) <= e.proof.cap.value))
  }

  /** The least such deduction. */
  ghost predicate LeastAnswer(d: Cents, current: Cents, daily: nat, errors: seq<Failure>, rate: Rate) {
    Answers(d, current, daily, errors, rate) && forall x :: Answers(x, current, daily, errors, rate) ==> d <= x
  }

  predicate ObservedKnown(errors: seq<Failure>) {
    forall e :: e in errors && e.kind == CouponPrice ==> e.proof.observed.Some? && e.proof.observed.value > 0
  }

  /** Every observed price is the calculated one. */
  predicate Explained(errors: seq<Failure>, calculated: int) {
    forall e :: e in errors && e.kind == CouponPrice ==> e.proof.observed == Some(calculated)
  }

  predicate Near(v: int, target: Cents) {
    0 < v && -TWO_YUAN <= v - target <= TWO_YUAN
  }

  /** Calculated and observed prices are near the target, before and after the change. */
  predicate Bounded(errors: seq<Failure>, calculated: int, more: int, target: Cents) {
    && Near(calculated, target) && Near(calculated - more, target)
    && forall e :: e in errors && e.kind == CouponPrice && e.proof.observed.Some? ==>
         Near(e.proof.observed.value, target) && Near(e.proof.observed.value - more, target)
  }

  /** The mode the request names, or else the one of the saved discount. */
  function ModeFor(ctx: Context, saved: SavedDiscount): Mode {
    match ctx.targetMode
    case Some(mode) => mode
    case None => saved.target
  }

  /** The single saved discount is verified, and its deduction can be raised to d against its own target. */
  ghost predicate Adjustable(errors: seq<Failure>, ctx: Context, facts: ErpRow, daily: nat, saved: SavedDiscount,
                             target: Cents, d: Cents)
  {
    && ModeFor(ctx, saved) != OtherMode
    && (exists goal :: TargetIs(facts, ModeFor(ctx, saved), goal)
                       && forall e :: e in errors && e.kind == CouponPrice && e.proof.cap.Some? ==>
                            goal - TWO_YUAN <= e.proof.cap.value)
    && saved.verified && saved.evidence && saved.deduct >= 0 && TargetIs(facts, saved.target, target)
    && ObservedKnown(errors) && LeastAnswer(d, saved.deduct, daily, errors, ctx.rate)
    && (Explained(errors, Net(daily, ctx.rate) - saved.deduct)
        || Bounded(errors, Net(daily, ctx.rate) - saved.deduct, d - saved.deduct, target))
  }

  lemma AnswersExactly(d: Cents, current: Cents, daily: nat, errors: seq<Failure>, rate: Rate)
    requires CapsKnown(errors) && ObservedKnown(errors)
    ensures Answers(d, current, daily, errors, rate) <==> MeetsAll(d, current, daily, errors, rate)
  {
  }

  lemma LeastExactly(d: Cents, current: Cents, daily: nat, errors: seq<Failure>, rate: Rate)
    requires CapsKnown(errors) && ObservedKnown(errors)
    ensures LeastAnswer(d, current, daily, errors, rate) <==> d == NeededDeduct(current, daily, errors, rate)
  {
    hide Answers, MeetsAll;
    var needed := NeededDeduct(current, daily, errors, rate);
    forall x ensures Answers(x, current, daily, errors, rate) <==> needed <= x {
      AnswersExactly(x, current, daily, errors, rate);
      NeededIsLeast(current, daily, errors, rate, x);
    }
    assert Answers(needed, current, daily, errors, rate);
  }

  lemma LowestCap(errors: seq<Failure>, bound: int)
    requires CapsKnown(errors) && OfKind(errors, CouponPrice) != []
    ensures var coupons := OfKind(errors, CouponPrice);
            MinOver(CapOf(coupons[0]), coupons, CapOf) >= bound
            <==> forall e :: e in errors && e.kind == CouponPrice && e.proof.cap.Some? ==> bound <= e.proof.cap.value
  {
    var coupons := OfKind(errors, CouponPrice);
    assert coupons[0] in coupons;
  }

  /** The deduction is raised exactly so. */
  lemma AdjustedExactly(errors: seq<Failure>, net: int, current: Cents, target: Cents, needed: Cents)
    requires CapsKnown(errors) && ObservedKnown(errors)
    ensures var coupons, r := OfKind(errors, CouponPrice), AdjustBy(errors, net, current, target, needed);
            && (r.Found?
               <==> Explained(errors, net - current) || Bounded(errors, net - current, needed - current, target))
            && (r.Found? ==>
                  r.value == Adjusted(coupons != [], Adjustment(target, net - needed, current, needed,
                    if Explained(errors, net - current) then None
                    else Some(Observation(ObservedFinals(coupons), net - current)))))
  {
    var coupons := OfKind(errors, CouponPrice);
    assert forall e :: e in coupons <==> e in errors && e.kind == CouponPrice;
    assert Explained(errors, net - current) <==> forall e :: e in coupons ==> ObservedOf(e) == net - current;
  }

  lemma TargetExactly(facts: ErpRow, mode: Mode, target: Cents)
    ensures TargetIs(facts, mode, target) <==> IsMoney(TargetOf(facts, mode)) && TargetOf(facts, mode).value == target
  {
  }

  lemma ModeExactly(ctx: Context, saved: SavedDiscount)
    ensures ModeOf(ctx, [saved]) == ModeFor(ctx, saved)
  {
    assert forall r :: r in [saved] <==> r == saved;
  }

  /** The change that raises the saved discount's deduction to d. */
  function ChangeTo(errors: seq<Failure>, net: int, saved: SavedDiscount, target: Cents, d: Cents): Adjustment {
    Adjustment(target, net - d, saved.deduct, d,
               if Explained(errors, net - saved.deduct) then None
               else Some(Observation(ObservedFinals(OfKind(errors, CouponPrice)), net - saved.deduct)))
  }

  /** One saved discount: the findings adjust it exactly when it is adjustable. */
  lemma OneDiscountExactly(errors: seq<Failure>, ctx: Context, facts: ErpRow, daily: nat, saved: SavedDiscount,
                           target: Cents, d: Cents)
    requires CapsKnown(errors)
    requires Adjustable(errors, ctx, facts, daily, saved, target, d)
    ensures FindOrdinary(errors, ctx, facts, daily, [saved]) ==
            Found(Adjusted(OfKind(errors, CouponPrice) != [], ChangeTo(errors, Net(daily, ctx.rate), saved, target, d)))
  {
    hide AdjustBy, NeededDeduct, TargetIs, Explained, Bounded, LeastAnswer, ModeOf, MinOver, Net, ModeFor;
    var goal :| TargetIs(facts, ModeFor(ctx, saved), goal)
                && forall e :: e in errors && e.kind == CouponPrice && e.proof.cap.Some? ==>
                                 goal - TWO_YUAN <= e.proof.cap.value;
    ModeExactly(ctx, saved);
    TargetExactly(facts, ModeFor(ctx, saved), goal);
    TargetExactly(facts, saved.target, target);
    LeastExactly(d, saved.deduct, daily, errors, ctx.rate);
    if OfKind(errors, CouponPrice) != [] {
      LowestCap(errors, goal - TWO_YUAN);
    }
    AdjustedExactly(errors, Net(daily, ctx.rate), saved.deduct, target, d);
  }

  lemma AdjustedIsAdjustable(errors: seq<Failure>, ctx: Context, facts: ErpRow, daily: nat, rows: seq<SavedDiscount>)
    returns (target: Cents, d: Cents)
    requires CapsKnown(errors) && FindOrdinary(errors, ctx, facts, daily, rows).Found?
    requires FindOrdinary(errors, ctx, facts, daily, rows).value.Adjusted?
    ensures |rows| == 1 && Adjustable(errors, ctx, facts, daily, rows[0], target, d)
  {
    hide AdjustBy, NeededDeduct, Explained, Bounded, LeastAnswer, ModeOf, MinOver;
    var saved, mode := rows[0], ModeOf(ctx, rows);
    assert rows == [saved];
    ModeExactly(ctx, saved);
    var goal := TargetOf(facts, mode).value;
    target, d := TargetOf(facts, saved.target).value, NeededDeduct(saved.deduct, daily, errors, ctx.rate);
    TargetExactly(facts, mode, goal);
    TargetExactly(facts, saved.target, target);
    LeastExactly(d, saved.deduct, daily, errors, ctx.rate);
    if OfKind(errors, CouponPrice) != [] {
      LowestCap(errors, goal - TWO_YUAN);
    } else {
      NoCoupon(errors);
    }
    AdjustedExactly(errors, Net(daily, ctx.rate), saved.deduct, target, d);
  }

  lemma NoCoupon(errors: seq<Failure>)
    requires OfKind(errors, CouponPrice) == []
    ensures forall e :: e in errors ==> e.kind != CouponPrice
  {
    assert forall e :: e in errors && e.kind == CouponPrice ==> e in OfKind(errors, CouponPrice);
  }

  /**
   * The ordinary repair that is due: the failures of the SKU are official, all reported against its
   * daily price, none is about an approved price, and its single verified discount can be raised to d
   * so that the final price is near the discount's own target in the one ERP row.
   */
  ghost predicate RepairDue(pair: Pair, errors: seq<Failure>, ctx: Context, facts: ErpRow, saved: SavedDiscount,
                            daily: nat, target: Cents, d: Cents)
    requires errors != []
  {
    && Official(errors[0]) && Joined(pair, errors, ctx, facts, daily, daily) && facts.custom == Some(false)
    && (forall e :: e in errors ==> e.kind != ApprovedPrice)
    && OneSaved(ctx, pair, saved) && Adjustable(errors, ctx, facts, daily, saved, target, d)
    && Near(Net(daily, ctx.rate) - d, target)
  }

  lemma NothingApproved(errors: seq<Failure>)
    ensures OfKind(errors, ApprovedPrice) == [] <==> forall e :: e in errors ==> e.kind != ApprovedPrice
  {
    if OfKind(errors, ApprovedPrice) != [] {
      assert OfKind(errors, ApprovedPrice)[0] in errors;
    } else {
      assert forall e :: e in errors && e.kind == ApprovedPrice ==> e in OfKind(errors, ApprovedPrice);
    }
  }

  /** What is due is decided, and the row records the saved discount's own deduction and target. */
  lemma DueIsDecided(pair: Pair, errors: seq<Failure>, ctx: Context, facts: ErpRow, saved: SavedDiscount, daily: nat,
                     target: Cents, d: Cents)
    requires errors != [] && Raw(errors[0]) && PairOf(errors[0]) == pair
    requires RepairDue(pair, errors, ctx, facts, saved, daily, target, d)
    ensures var n := NormalizeGroup(pair, errors, ctx);
            && Classify(n).repair == Some(OrdinaryDiscount(Net(daily, ctx.rate) - d, target, daily))
            && ChangeOf(n) == Some(ChangeTo(errors, Net(daily, ctx.rate), saved, target, d))
  {
    hide FindOrdinary, Adjustable, OneSaved, OneErpRow, NormalizeGroup, Classify;
    JoinedGroup(pair, errors, ctx, facts, daily, daily);
    SavedExactly(ctx, pair, saved);
    NothingApproved(errors);
    OneDiscountExactly(errors, ctx, facts, daily, saved, target, d);
    InSubmitted(pair, errors, ctx, facts, daily, daily);
    var finding := Adjusted(OfKind(errors, CouponPrice) != [],
                           ChangeTo(errors, Net(daily, ctx.rate), saved, target, d));
    assert Find(pair, errors, ctx, facts) == Found(finding);
    var n := NormalizeGroup(pair, errors, ctx);
    assert n == Apply(PricedRow(errors[0], facts, Some(daily)), finding);
    AdjustableTarget(errors, ctx, facts, daily, saved, target, d);
    RepairsExactly(n, OrdinaryDiscount(Net(daily, ctx.rate) - d, target, daily));
  }

  lemma InSubmitted(pair: Pair, errors: seq<Failure>, ctx: Context, facts: ErpRow, daily: nat, price: nat)
    requires Joined(pair, errors, ctx, facts, daily, price)
    ensures pair in ctx.submitted
  {
  }

  lemma AdjustableTarget(errors: seq<Failure>, ctx: Context, facts: ErpRow, daily: nat, saved: SavedDiscount,
                         target: Cents, d: Cents)
    requires Adjustable(errors, ctx, facts, daily, saved, target, d)
    ensures target > 0
  {
  }

  /** What is decided was due. */
  lemma DecidedIsDue(pair: Pair, errors: seq<Failure>, ctx: Context, r: Repair)
    returns (facts: ErpRow, saved: SavedDiscount, target: Cents, d: Cents)
    requires errors != [] && Raw(errors[0]) && PairOf(errors[0]) == pair
    requires Classify(NormalizeGroup(pair, errors, ctx)).repair == Some(r) && r.OrdinaryDiscount?
    ensures facts.daily.Some? && facts.daily.value > 0
            && RepairDue(pair, errors, ctx, facts, saved, facts.daily.value, target, d)
  {
    hide FindOrdinary, Adjustable, OneSaved, NormalizeGroup, Classify, HasFinding;
    PriceRepairHasFinding(pair, errors, ctx);
    FoundIsJoined(pair, errors, ctx);
    facts := MatchesOf(ctx, pair)[0];
    OrdinaryFinding(pair, errors, ctx, r);
    var rows := DiscountsOf(ctx, pair);
    target, d := AdjustedIsAdjustable(errors, ctx, facts, facts.daily.value, rows);
    saved := rows[0];
    assert rows == [saved];
    SavedExactly(ctx, pair, saved);
    NothingApproved(errors);
    OneDiscountExactly(errors, ctx, facts, facts.daily.value, saved, target, d);
  }

  /** The finding behind an ordinary repair. */
  lemma OrdinaryFinding(pair: Pair, errors: seq<Failure>, ctx: Context, r: Repair)
    requires errors != [] && Raw(errors[0]) && HasFinding(pair, errors, ctx)
    requires Classify(NormalizeGroup(pair, errors, ctx)).repair == Some(r) && r.OrdinaryDiscount?
    ensures var facts, price := MatchesOf(ctx, pair)[0], ctx.submitted[pair].activityPrice;
            && Priced(pair, errors) && Official(errors[0]) && facts.custom == Some(false) && price == facts.daily
            && OfKind(errors, ApprovedPrice) == [] && CapsPresent(errors) && IsMoney(facts.daily)
            && var found := FindOrdinary(errors, ctx, facts, facts.daily.value, DiscountsOf(ctx, pair));
            && found.Found? && found.value.Adjusted? && Near(found.value.change.final, found.value.change.target)
  {
    hide FindOrdinary;
    var facts, price := MatchesOf(ctx, pair)[0], ctx.submitted[pair].activityPrice;
    var priced := PricedRow(errors[0], facts, price);
    var finding := Find(pair, errors, ctx, facts).value;
    FindIsConsistent(pair, errors, ctx, facts);
    RepairOfFinding(priced, finding, r);
    UnpricedGroup(pair, errors, ctx);
  }

  /**
   * An ordinary repair of a SKU is decided if and only if it is due, with the final price of the least
   * deduction that answers everything, the target that the one ERP row has for the mode of the one saved
   * discount, and the daily price; the row records that discount's own deduction.
   */
  lemma OrdinaryRepairExactly(pair: Pair, errors: seq<Failure>, ctx: Context, final: Cents, target: Cents,
                             signup: Cents)
    requires errors != [] && Raw(errors[0]) && PairOf(errors[0]) == pair
    ensures Classify(NormalizeGroup(pair, errors, ctx)).repair == Some(OrdinaryDiscount(final, target, signup))
            <==> signup >= 0 && exists facts, saved, d ::
                   RepairDue(pair, errors, ctx, facts, saved, signup, target, d) && final == Net(signup, ctx.rate) - d
  {
    hide RepairDue, NormalizeGroup, Classify, Raw;
    var r := OrdinaryDiscount(final, target, signup);
    if Classify(NormalizeGroup(pair, errors, ctx)).repair == Some(r) {
      var facts, saved, t, d := DecidedIsDue(pair, errors, ctx, r);
      DueIsDecided(pair, errors, ctx, facts, saved, facts.daily.value, t, d);
    }
    if signup >= 0 {
      forall facts, saved, d | RepairDue(pair, errors, ctx, facts, saved, signup, target, d)
        ensures Classify(NormalizeGroup(pair, errors, ctx)).repair ==
                Some(OrdinaryDiscount(Net(signup, ctx.rate) - d, target, signup))
      {
        DueIsDecided(pair, errors, ctx, facts, saved, signup, target, d);
      }
    }
  }

  // ---------- custom SKUs and wrong prices ----------

  /** The price exceeds neither the submitted nor the daily price nor any cap, even before rounding. */
  predicate UnderCaps(q: int, price: nat, daily: nat, errors: seq<Failure>, rate: Rate) {
    && q <= price && q <= daily
    && forall e :: e in errors && e.proof.cap.Some? ==>
         && (e.kind == ListPrice ==> q <= e.proof.cap.value)
         && (e.kind == ApprovedPrice ==> q < e.proof.cap.value)
         && (e.kind == CouponPrice ==> KeepsCoupon(q, e.proof.cap.value, rate))
  }

  /** What is left of the price by the exact official rate is at most the cap. */
  predicate KeepsCoupon(q: int, cap: Cents, rate: Rate) {
    q * (rate.den - rate.num) <= cap * rate.den
  }

  lemma UnderCapsExactly(q: int, price: nat, daily: nat, errors: seq<Failure>, rate: Rate)
    requires CapsKnown(errors)
    ensures UnderCaps(q, price, daily, errors, rate) <==> q <= FeasibleCustom(price, daily, errors, rate)
  {
    hide KeepsCoupon, FloorQuotient, FeasibleCustom;
    forall e | e in errors && e.kind == CouponPrice
      ensures q <= FloorQuotient(CapOf(e), rate) <==> KeepsCoupon(q, CapOf(e), rate)
    {
      KeepsExactly(q, CapOf(e), rate);
    }
    FeasibleExactly(q, price, daily, errors, rate);
  }

  lemma KeepsExactly(q: int, cap: Cents, rate: Rate)
    ensures q <= FloorQuotient(cap, rate) <==> KeepsCoupon(q, cap, rate)
  {
    FloorQuotientGreatest(q, cap, rate);
  }

  lemma FeasibleExactly(q: int, price: nat, daily: nat, errors: seq<Failure>, rate: Rate)
    ensures q <= FeasibleCustom(price, daily, errors, rate)
            <==> && q <= price && q <= daily
                 && (forall e :: e in errors && e.kind == ListPrice ==> q <= CapOf(e))
                 && (forall e :: e in errors && e.kind == ApprovedPrice ==> q < CapOf(e))
                 && (forall e :: e in errors && e.kind == CouponPrice ==> q <= FloorQuotient(CapOf(e), rate))
  {
    hide FloorQuotient, CapOf;
    assert forall e, kind :: e in OfKind(errors, kind) <==> e in errors && e.kind == kind;
  }

  /** The greatest price under all caps. */
  ghost predicate GreatestUnderCaps(p: int, price: nat, daily: nat, errors: seq<Failure>, rate: Rate) {
    UnderCaps(p, price, daily, errors, rate) && forall q :: UnderCaps(q, price, daily, errors, rate) ==> q <= p
  }

  lemma GreatestExactly(p: int, price: nat, daily: nat, errors: seq<Failure>, rate: Rate)
    requires CapsKnown(errors)
    ensures GreatestUnderCaps(p, price, daily, errors, rate) <==> p == FeasibleCustom(price, daily, errors, rate)
  {
    hide UnderCaps, FeasibleCustom;
    var feasible := FeasibleCustom(price, daily, errors, rate);
    forall q ensures UnderCaps(q, price, daily, errors, rate) <==> q <= feasible {
      UnderCapsExactly(q, price, daily, errors, rate);
    }
    assert UnderCaps(feasible, price, daily, errors, rate);
  }

  /** A fixed original price with its source, and no doubt about it. */
  predicate FixedOriginal(ctx: Context, pair: Pair, original: Cents) {
    && pair in ctx.bases && ctx.bases[pair].sourced && !ctx.bases[pair].uncertain
    && ctx.bases[pair].original == Some(original)
    && original > 0
  }

  lemma CustomFinding(pair: Pair, errors: seq<Failure>, ctx: Context, facts: ErpRow, daily: nat, price: nat,
                      original: Cents, p: Cents)
    requires errors != [] && Joined(pair, errors, ctx, facts, daily, price) && facts.custom == Some(true)
    ensures CapsPresent(errors) && pair in ctx.submitted && IsMoney(ctx.submitted[pair].activityPrice)
    ensures Find(pair, errors, ctx, facts) == Found(Custom(original, p))
            <==> FixedOriginal(ctx, pair, original) && GreatestUnderCaps(p, price, daily, errors, ctx.rate)
  {
    hide GreatestUnderCaps, FeasibleCustom, FindOrdinary;
    GreatestExactly(p, price, daily, errors, ctx.rate);
  }

  /** What a joined group of a custom or an ordinary SKU is decided to be. */
  ghost predicate CustomRepairDue(pair: Pair, errors: seq<Failure>, ctx: Context, facts: ErpRow, daily: nat, price: nat,
                                  original: Cents, p: Cents)
    requires errors != []
  {
    && Official(errors[0]) && Joined(pair, errors, ctx, facts, daily, price) && facts.custom == Some(true)
    && FixedOriginal(ctx, pair, original) && GreatestUnderCaps(p, price, daily, errors, ctx.rate)
    && 0 < p && 5 * p >= original
  }

  lemma CustomDueIsDecided(pair: Pair, errors: seq<Failure>, ctx: Context, facts: ErpRow, daily: nat, price: nat,
                           original: Cents, p: Cents)
    requires errors != [] && PairOf(errors[0]) == pair
    requires CustomRepairDue(pair, errors, ctx, facts, daily, price, original, p)
    ensures Classify(NormalizeGroup(pair, errors, ctx)).repair == Some(CustomRepair(p, original as real * 0.2))
  {
    hide NormalizeGroup, Classify, FindOrdinary, OneErpRow, Find, FixedOriginal;
    JoinedGroup(pair, errors, ctx, facts, daily, price);
    CustomFinding(pair, errors, ctx, facts, daily, price, original, p);
    var n := NormalizeGroup(pair, errors, ctx);
    assert n == Apply(PricedRow(errors[0], facts, Some(price)), Custom(original, p));
    OriginalPositive(ctx, pair, original);
    assert CustomCase(n, p, original);
    RepairsExactly(n, CustomRepair(p, original as real * 0.2));
  }

  lemma OriginalPositive(ctx: Context, pair: Pair, original: Cents)
    requires FixedOriginal(ctx, pair, original)
    ensures original > 0
  {
  }

  lemma CustomDecidedIsDue(pair: Pair, errors: seq<Failure>, ctx: Context, p: Cents, floor: real)
    returns (facts: ErpRow, daily: nat, price: nat, original: Cents)
    requires errors != [] && Raw(errors[0]) && PairOf(errors[0]) == pair
    requires Classify(NormalizeGroup(pair, errors, ctx)).repair == Some(CustomRepair(p, floor))
    ensures CustomRepairDue(pair, errors, ctx, facts, daily, price, original, p) && floor == original as real * 0.2
  {
    hide NormalizeGroup, Classify, FindOrdinary, OneErpRow, FixedOriginal, GreatestUnderCaps, HasFinding;
    PriceRepairHasFinding(pair, errors, ctx);
    FoundIsJoined(pair, errors, ctx);
    facts := MatchesOf(ctx, pair)[0];
    CustomFindingOf(pair, errors, ctx, p, floor);
    daily, price := facts.daily.value, ctx.submitted[pair].activityPrice.value;
    original := Find(pair, errors, ctx, facts).value.original;
    CustomFinding(pair, errors, ctx, facts, daily, price, original, p);
  }

  lemma CustomFindingOf(pair: Pair, errors: seq<Failure>, ctx: Context, p: Cents, floor: real)
    requires errors != [] && Raw(errors[0]) && HasFinding(pair, errors, ctx)
    requires Classify(NormalizeGroup(pair, errors, ctx)).repair == Some(CustomRepair(p, floor))
    ensures var facts := MatchesOf(ctx, pair)[0];
            && Priced(pair, errors) && Official(errors[0]) && facts.custom == Some(true) && IsMoney(facts.daily)
            && IsMoney(ctx.submitted[pair].activityPrice)
            && Find(pair, errors, ctx, facts).value.Custom?
            && var original := Find(pair, errors, ctx, facts).value.original;
            && Find(pair, errors, ctx, facts) == Found(Custom(original, p)) && p > 0 && 5 * p >= original
            && floor == original as real * 0.2
  {
    hide FindOrdinary, FeasibleCustom, SoundAdjustment, OfKind, NormalizePriced;
    var facts, price := MatchesOf(ctx, pair)[0], ctx.submitted[pair].activityPrice;
    var n := NormalizeGroup(pair, errors, ctx);
    FindIsConsistent(pair, errors, ctx, facts);
    RepairOfFinding(PricedRow(errors[0], facts, price), Find(pair, errors, ctx, facts).value, CustomRepair(p, floor));
    UnpricedGroup(pair, errors, ctx);
    FloorOfRepair(n, p, floor);
  }

  lemma FloorOfRepair(n: Failure, p: Cents, floor: real)
    requires Classify(n).repair == Some(CustomRepair(p, floor))
    ensures Official(n) && n.kind != UnknownKind && n.price.fixedOriginal.Some?
    ensures floor == n.price.fixedOriginal.value as real * 0.2
  {
  }

  /**
   * A custom repair is decided if and only if the failures are official, the fixed original is certain,
   * and the price is the greatest one under all caps and not below a fifth of the original.
   */
  lemma CustomRepairExactly(pair: Pair, errors: seq<Failure>, ctx: Context, p: Cents, floor: real)
    requires errors != [] && Raw(errors[0]) && PairOf(errors[0]) == pair
    ensures Classify(NormalizeGroup(pair, errors, ctx)).repair == Some(CustomRepair(p, floor))
            <==> exists facts, daily, price, original ::
                   CustomRepairDue(pair, errors, ctx, facts, daily, price, original, p)
                   && floor == original as real * 0.2
  {
    hide CustomRepairDue, NormalizeGroup, Classify, Raw;
    if Classify(NormalizeGroup(pair, errors, ctx)).repair == Some(CustomRepair(p, floor)) {
      var facts, daily, price, original := CustomDecidedIsDue(pair, errors, ctx, p, floor);
    }
    forall facts, daily, price, original | CustomRepairDue(pair, errors, ctx, facts, daily, price, original, p)
      ensures Classify(NormalizeGroup(pair, errors, ctx)).repair == Some(CustomRepair(p, original as real * 0.2))
    {
      CustomDueIsDecided(pair, errors, ctx, facts, daily, price, original, p);
    }
  }

  /** An ordinary SKU that was not submitted at its daily price gets it back in the file; nothing else is guessed. */
  lemma WrongPriceIsCorrected(pair: Pair, errors: seq<Failure>, ctx: Context, facts: ErpRow, daily: nat, price: nat)
    requires errors != [] && PairOf(errors[0]) == pair && Official(errors[0])
    requires Joined(pair, errors, ctx, facts, daily, price) && facts.custom == Some(false)
    ensures price != daily ==> Classify(NormalizeGroup(pair, errors, ctx)).repair == Some(FilePrice(daily))
    ensures price == daily && (exists e :: e in errors && e.kind == ApprovedPrice) ==>
              Classify(NormalizeGroup(pair, errors, ctx))
              == Decision(pair.item, pair.sku, NonDailySignupPrice, Manual, None)
  {
    hide FindOrdinary;
    JoinedGroup(pair, errors, ctx, facts, daily, price);
    NothingApproved(errors);
  }

  /** Without exactly one verified saved discount an ordinary SKU waits for its readback, unless no repair can fit. */
  lemma WaitsForReadback(pair: Pair, errors: seq<Failure>, ctx: Context, facts: ErpRow, daily: nat, goal: Cents)
    requires errors != [] && PairOf(errors[0]) == pair && Official(errors[0])
    requires Joined(pair, errors, ctx, facts, daily, daily) && facts.custom == Some(false)
    requires forall e :: e in errors ==> e.kind != ApprovedPrice
    requires ctx.targetMode.Some? && ctx.targetMode.value != OtherMode && TargetIs(facts, ctx.targetMode.value, goal)
    ensures var d, fits := Classify(NormalizeGroup(pair, errors, ctx)), CouponsFit(errors, goal);
            && (!fits ==> d.action == RotationApproval)
            && (fits && !(exists saved :: OneSaved(ctx, pair, saved) && saved.verified && saved.evidence) ==>
                  d == Decision(pair.item, pair.sku, ReadbackMissing, Manual, None))
  {
    hide OneSaved, FindOrdinary, NormalizeGroup, Classify, CouponsFit;
    JoinedGroup(pair, errors, ctx, facts, daily, daily);
    NothingApproved(errors);
    InSubmitted(pair, errors, ctx, facts, daily, daily);
    UnsavedFinding(pair, errors, ctx, facts, daily, goal);
    var n, found := NormalizeGroup(pair, errors, ctx), FindOrdinary(errors, ctx, facts, daily, DiscountsOf(ctx, pair));
    assert n == Finish(PricedRow(errors[0], facts, Some(daily)), found);
    ActionsExactly(n);
    if !CouponsFit(errors, goal) {
      assert OrdinaryCase(n, found.value.final, goal);
    }
  }

  /** No coupon cap lies more than two yuan below the target. */
  predicate CouponsFit(errors: seq<Failure>, goal: Cents) {
    forall e :: e in errors && e.kind == CouponPrice && e.proof.cap.Some? ==> goal - TWO_YUAN <= e.proof.cap.value
  }

  lemma UnsavedFinding(pair: Pair, errors: seq<Failure>, ctx: Context, facts: ErpRow, daily: nat, goal: Cents)
    requires CapsKnown(errors) && ctx.targetMode.Some? && ctx.targetMode.value != OtherMode
    requires TargetIs(facts, ctx.targetMode.value, goal)
    ensures var found := FindOrdinary(errors, ctx, facts, daily, DiscountsOf(ctx, pair));
            && (!CouponsFit(errors, goal) ==>
                  found.Found? && found.value.CannotFit? && found.value.target == goal
                  && 0 < found.value.final < goal - TWO_YUAN)
            && (CouponsFit(errors, goal)
                && !(exists saved :: OneSaved(ctx, pair, saved) && saved.verified && saved.evidence) ==>
                  found == Refused(ReadbackMissing))
  {
    hide OneSaved, Adjust, TargetIs;
    TargetExactly(facts, ctx.targetMode.value, goal);
    var coupons := OfKind(errors, CouponPrice);
    if coupons != [] {
      LowestCap(errors, goal - TWO_YUAN);
      LowestCap(errors, 1);
      CapsPositive(errors);
    } else {
      NoCoupon(errors);
    }
    var rows := DiscountsOf(ctx, pair);
    if |rows| == 1 {
      SavedExactly(ctx, pair, rows[0]);
      assert rows == [rows[0]];
    }
  }

  lemma CapsPositive(errors: seq<Failure>)
    requires CapsKnown(errors)
    ensures forall e :: e in errors && e.kind == CouponPrice && e.proof.cap.Some? ==> 1 <= e.proof.cap.value
  {
  }

  // ---------- from the report to the groups ----------

  /** The exact free-shipping requirement of a whole product, in its present or its older form. */
  predicate ShippingNotice(e: Failure) {
    && e.kind == UnknownKind && e.sku == "" && e.proof.shippingMessage
    && (e.parseIssue == FreeShippingRequired || e.parseIssue == UnparsedFailure)
  }

  /** The notice as it reads for one submitted SKU, with the receipt for exactly this SKU and batch. */
  predicate NoticeFor(x: Failure, e: Failure, p: Pair, ctx: Context) {
    x == e.(sku := p.sku, parseIssue := FreeShippingRequired,
            proof := e.proof.(shippingApproved := (p, e.batch) in ctx.shipping))
  }

  /** A notice counts for each submitted SKU of its product, if there is one; every other failure as it is. */
  ghost predicate ComesTo(x: Failure, e: Failure, submitted: seq<Pair>, ctx: Context) {
    if ShippingNotice(e) && exists p :: p in submitted && p.item == e.item
    then exists p :: p in submitted && p.item == e.item && NoticeFor(x, e, p, ctx)
    else x == e
  }

  lemma CarriedExactly(x: Failure, e: Failure, pairs: seq<Pair>, ctx: Context)
    ensures x in CarriedTo(e, pairs, ctx) <==> exists p :: p in pairs && NoticeFor(x, e, p, ctx)
  {
    var carried := CarriedTo(e, pairs, ctx);
    if x in carried {
      var i :| 0 <= i < |carried| && carried[i] == x;
      assert pairs[i] in pairs;
    }
    if p :| p in pairs && NoticeFor(x, e, p, ctx) {
      var i :| 0 <= i < |pairs| && pairs[i] == p;
      assert carried[i] == x;
    }
  }

  lemma ExpandExactly(x: Failure, e: Failure, submitted: seq<Pair>, ctx: Context)
    ensures x in Expand(e, submitted, ctx) <==> ComesTo(x, e, submitted, ctx)
  {
    hide NoticeFor, CarriedTo;
    var pairs := SkusOf(submitted, e.item);
    CarriedExactly(x, e, pairs, ctx);
    if pairs == [] {
      assert forall p :: p in submitted && p.item == e.item ==> p in pairs;
    } else {
      assert pairs[0] in pairs;
    }
  }

  /** The failures that the groups are formed of. */
  lemma {:induction false} ExpansionExactly(errors: seq<Failure>, submitted: seq<Pair>, ctx: Context, x: Failure)
    ensures x in ExpandAll(errors, submitted, ctx) <==> exists e :: e in errors && ComesTo(x, e, submitted, ctx)
  {
    hide Expand, ComesTo;
    if errors != [] {
      var n := |errors| - 1;
      ExpansionExactly(errors[..n], submitted, ctx, x);
      ExpandExactly(x, errors[n], submitted, ctx);
      assert errors == errors[..n] + [errors[n]];
    }
  }

  lemma GroupExactly(errors: seq<Failure>, pair: Pair)
    ensures forall e :: e in GroupOf(errors, pair) <==> e in errors && e.item == pair.item && e.sku == pair.sku
  {
    GroupMembers(errors, pair);
  }

  /** The row of a SKU keeps its first failure in the report. */
  lemma {:induction false} FirstOfGroup(errors: seq<Failure>, pair: Pair) returns (i: nat)
    requires GroupOf(errors, pair) != []
    ensures i < |errors| && errors[i] == GroupOf(errors, pair)[0] && PairOf(errors[i]) == pair
    ensures forall j :: 0 <= j < i ==> PairOf(errors[j]) != pair
  {
    hide PairOf;
    var n := |errors| - 1;
    if GroupOf(errors[..n], pair) != [] {
      i := FirstOfGroup(errors[..n], pair);
      assert forall j :: 0 <= j < n ==> errors[..n][j] == errors[j];
    } else {
      i := n;
      GroupMembers(errors[..n], pair);
      forall j | 0 <= j < n ensures PairOf(errors[j]) != pair {
        assert errors[..n][j] in errors[..n];
      }
    }
  }
}
