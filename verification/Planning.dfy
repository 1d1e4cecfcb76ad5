/**
 * Planning the rows of one submission from current ERP prices: signup rows at the daily
 * price, one deduction per ordinary SKU, whole products set aside when any SKU has an issue.
 */
module Planning {
  import opened CampaignTypes
  import opened Prices

  /** ERP facts of one SKU; None is a missing or unreadable field. */
  datatype ErpRow = ErpRow(custom: Option<bool>, daily: Option<Cents>, goal: Option<Cents>, big: Option<Cents>)

  /** What is known about a template row: why it cannot be resolved, or its one ERP row. */
  datatype Resolved = Unresolved(reason: string) | Resolved(erp: ErpRow, lineageCurrent: bool)

  datatype Identity = Identity(pair: Pair, enrolled: bool, customOnly: bool, inExport: bool, resolved: Resolved)

  datatype Limits = Limits(price: Option<Cents>, final: Option<Cents>, suggested: Option<Cents>)

  datatype Bounds = Bounds(price: Cents, final: Cents, suggested: Option<Cents>)

  datatype Context = Context(rate: Rate, bases: map<Pair, Basis>, signup: Option<set<Item>>,
                             discount: Option<set<Item>>, excluded: set<Item>, caps: Option<map<Pair, real>>,
                             limits: Option<map<Pair, Limits>>)

  datatype Activity =
    | CustomSignup(pair: Pair, price: nat)
    | OrdinarySignup(pair: Pair, price: nat, goal: Cents, big: Cents, cap: Option<real>)

  datatype Discount = Discount(pair: Pair, daily: nat, goal: Cents, big: Cents, cap: Option<real>,
                               cut: Cents, deduct: Cents, final: Cents)

  datatype Planned = Skip | Issue(code: string) | Rows(activity: Option<Activity>, discount: Option<Discount>)

  datatype Plan = Plan(activity: seq<Activity>, discounts: seq<Discount>, issues: seq<(Pair, string)>)

  // ---------- one template row ----------

  function BoundsFor(pair: Pair, c: Context): Result<Option<Bounds>> {
    if c.limits.None? then Ok(None)
    else if pair !in c.limits.value || c.limits.value[pair].price.None? || c.limits.value[pair].final.None? then
      Err("current_official_price_limits_missing")
    else
      var l := c.limits.value[pair];
      if l.price.value <= 0 || l.final.value <= 0 then Err("current_official_price_limits_nonpositive")
      else Ok(Some(Bounds(l.price.value, l.final.value, l.suggested)))
  }

  predicate Exceeds(price: Cents, b: Bounds, rate: Rate)
    requires price > 0
  {
    price > b.price || Net(price, rate) > b.final
  }

  /** The signup price of a custom SKU: the daily price unless official limits force a lower one. */
  function CustomPlan(daily: Cents, basis: Option<Basis>, lineageCurrent: bool, bounds: Option<Bounds>, rate: Rate)
    : Result<Cents>
    requires daily > 0
  {
    if basis.Some? && !lineageCurrent then Err("lineage_erp_code_not_current_snapshot")
    else if basis.Some? && daily as real < basis.value.floor then
      Err("current_daily_below_fixed_custom_floor_requires_user_decision")
    else if bounds.None? || !Exceeds(daily, bounds.value, rate) then Ok(daily)
    else if bounds.value.suggested.None? then Err("custom_official_suggested_price_missing")
    else
      var candidate := Min(Min(daily, bounds.value.price), bounds.value.suggested.value);
      if candidate <= 0 || Net(candidate, rate) > bounds.value.final then
        Err("custom_official_suggestion_exceeds_final_cap")
      else if basis.None? || basis.value.uncertain then Err("custom_fixed_original_missing_or_uncertain")
      else if candidate < Ceil(basis.value.floor) then Err("custom_candidate_below_fixed_floor_requires_rotation")
      else Ok(candidate)
  }

  /** The cap an ordinary SKU is held to, when the run has caps at all. */
  function CapFor(pair: Pair, bounds: Option<Bounds>, c: Context): Result<Option<real>> {
    if bounds.Some? then Ok(Some(bounds.value.final as real))
    else if c.caps.None? then Ok(None)
    else if pair !in c.caps.value then Err("current_platform_cap_missing")
    else Ok(Some(c.caps.value[pair]))
  }

  function OrdinaryPlan(pair: Pair, daily: Cents, e: ErpRow, bounds: Option<Bounds>, c: Context): Result<Discount>
    requires daily > 0
  {
    if bounds.Some? && daily > bounds.value.price then Err("erp_daily_exceeds_official_price_cap_requires_rotation")
    else if e.goal.None? || e.big.None? then Err("price_missing")
    else
      var goal, big, cut := e.goal.value, e.big.value, OfficialCut(daily, c.rate);
      var deduct := daily - cut - goal;
      if goal <= 0 || big <= 0 || goal < big || deduct < 0 then Err("price_formula_cannot_meet_frozen_target")
      else
        match CapFor(pair, bounds, c)
        case Err(e) => Err(e)
        case Ok(None) => Ok(Discount(pair, daily, goal, big, None, cut, deduct, goal))
        case Ok(Some(cap)) =>
          match OrdinaryPrice(daily, goal, c.rate, cap, TWO_YUAN as real)
          case Err(e) => Err(e)
          case Ok(capped) => Ok(Discount(pair, daily, goal, big, Some(cap), cut, capped.deduct, capped.final))
  }

  /** Both rows of a resolved SKU with a known kind. */
  function PricedRows(pair: Pair, e: ErpRow, lineageCurrent: bool, c: Context, signup: bool, discount: bool): Planned
    requires e.custom.Some?
  {
    if e.daily.None? || e.daily.value <= 0 then Issue("daily_price_missing_or_nonpositive")
    else
      match BoundsFor(pair, c)
      case Err(code) => Issue(code)
      case Ok(bounds) =>
        if e.custom.value then
          var basis := if pair in c.bases then Some(c.bases[pair]) else None;
          match CustomPlan(e.daily.value, basis, lineageCurrent, bounds, c.rate)
          case Err(code) => Issue(code)
          case Ok(price) => Rows(Some(CustomSignup(pair, price)), None)
        else
          match OrdinaryPlan(pair, e.daily.value, e, bounds, c)
          case Err(code) => Issue(code)
          case Ok(d) =>
            Rows(if signup then Some(OrdinarySignup(pair, d.daily, d.goal, d.big, d.cap)) else None,
                 if discount && d.deduct > 0 then Some(d) else None)
  }

  predicate NeedsSignup(item: Item, enrolled: set<Item>, c: Context) {
    item !in enrolled && (c.signup.None? || item in c.signup.value)
  }

  predicate NeedsDiscount(item: Item, c: Context) {
    c.discount.None? || item in c.discount.value
  }

  function PlanRow(i: Identity, enrolled: set<Item>, c: Context): Planned {
    var signup, discount := NeedsSignup(i.pair.item, enrolled, c), NeedsDiscount(i.pair.item, c);
    if i.pair.item in c.excluded || (!signup && !discount) then Skip
    else if !i.inExport then Issue("sku_missing_from_current_complete_export")
    else if !signup && i.customOnly then Skip
    else
      match i.resolved
      case Unresolved(reason) => Issue(reason)
      case Resolved(e, lineageCurrent) =>
        if e.custom.None? then Issue("custom_classification_unknown")
        else if e.custom.value && !signup then Skip
        else PricedRows(i.pair, e, lineageCurrent, c, signup, discount)
  }

  // ---------- what the prices of one row promise ----------

  /**
   * A planned custom price never exceeds the daily price or the official limits, never falls
   * below a known fixed floor, and is lowered only when the daily price itself breaks a limit
   * and the fixed original is certain.
   */
  lemma CustomPlanKeepsRules(daily: Cents, basis: Option<Basis>, lineageCurrent: bool,
                             bounds: Option<Bounds>, rate: Rate)
    requires daily > 0 && CustomPlan(daily, basis, lineageCurrent, bounds, rate).Ok?
    ensures var p := CustomPlan(daily, basis, lineageCurrent, bounds, rate).value;
            && 0 < p <= daily
            && (bounds.Some? ==> !Exceeds(p, bounds.value, rate))
            && (basis.Some? ==> p as real >= basis.value.floor)
            && (p < daily <==> bounds.Some? && Exceeds(daily, bounds.value, rate))
            && (p < daily ==> basis.Some? && !basis.value.uncertain)
  {
  }

  /** The deduction is exact: what the buyer pays is the target, or the greatest amount under the cap. */
  predicate DiscountExact(d: Discount, rate: Rate) {
    && 0 < d.big <= d.goal && 0 < d.daily && d.cut == OfficialCut(d.daily, rate)
    && d.final == d.daily - d.cut - d.deduct && d.deduct >= 0 && d.final > 0
    && (d.cap.None? ==> d.final == d.goal)
    && (d.cap.Some? ==> OrdinaryPrice(d.daily, d.goal, rate, d.cap.value, TWO_YUAN as real)
                        == Ok(Capped(d.cut, d.deduct, d.final)))
  }

  lemma OrdinaryPlanIsExact(pair: Pair, daily: Cents, e: ErpRow, bounds: Option<Bounds>, c: Context)
    requires daily > 0 && OrdinaryPlan(pair, daily, e, bounds, c).Ok?
    ensures var d := OrdinaryPlan(pair, daily, e, bounds, c).value;
            DiscountExact(d, c.rate) && d.pair == pair && d.daily == daily
            && (bounds.Some? ==> daily <= bounds.value.price)
  {
  }

  /** With a cap the final is the greatest cent amount within target and cap, at most two yuan below the target. */
  lemma CappedFinalIsGreatest(d: Discount, rate: Rate)
    requires DiscountExact(d, rate) && d.cap.Some?
    ensures GreatestWithin(d.final, d.goal, d.cap.value) && d.goal - d.final <= TWO_YUAN
  {
  }

  // ---------- the whole template ----------

  function EnrolledItems(identities: seq<Identity>): set<Item> {
    set i | i in identities && i.enrolled :: i.pair.item
  }

  function PairsOf(identities: seq<Identity>): seq<Pair> {
    seq(|identities|, i requires 0 <= i < |identities| => identities[i].pair)
  }

  function Extended(p: Plan, pair: Pair, row: Planned): Plan {
    match row
    case Skip => p
    case Issue(code) => p.(issues := p.issues + [(pair, code)])
    case Rows(a, d) => Plan(if a.Some? then p.activity + [a.value] else p.activity,
                            if d.Some? then p.discounts + [d.value] else p.discounts, p.issues)
  }

  function PlanOf(identities: seq<Identity>, enrolled: set<Item>, c: Context): Plan {
    if identities == [] then Plan([], [], [])
    else
      var last := identities[|identities| - 1];
      Extended(PlanOf(identities[..|identities| - 1], enrolled, c), last.pair, PlanRow(last, enrolled, c))
  }

  predicate ScopePresent(selected: Option<set<Item>>, identities: seq<Identity>) {
    selected.Some? ==> forall i :: i in selected.value ==> exists k :: k in identities && k.pair.item == i
  }

  method BuildRows(identities: seq<Identity>, c: Context) returns (r: Result<Plan>)
    ensures r.Ok? <==> ScopePresent(c.signup, identities) && ScopePresent(c.discount, identities)
                       && NoDuplicates(PairsOf(identities))
    ensures r.Ok? ==> r.value == PlanOf(identities, EnrolledItems(identities), c)
  {
    var present := set i | i in identities :: i.pair.item;
    if (c.signup.Some? && !(c.signup.value <= present)) || (c.discount.Some? && !(c.discount.value <= present)) {
      return Err("explicit_scope_item_not_in_current_template");
    }
    var plan, seen: set<Pair>, enrolled := Plan([], [], []), {}, EnrolledItems(identities);
    for i := 0 to |identities|
      invariant NoDuplicates(PairsOf(identities[..i])) && seen == SetOf(PairsOf(identities[..i]))
      invariant plan == PlanOf(identities[..i], enrolled, c)
    {
      assert identities[..i + 1][..i] == identities[..i];
      assert PairsOf(identities[..i + 1]) == PairsOf(identities[..i]) + [identities[i].pair];
      if identities[i].pair in seen {
        Repeated(identities, i);
        return Err("duplicate_current_template_pair");
      }
      seen := seen + {identities[i].pair};
      plan := Extended(plan, identities[i].pair, PlanRow(identities[i], enrolled, c));
    }
    assert identities[..|identities|] == identities;
    r := Ok(plan);
  }

  lemma Repeated(identities: seq<Identity>, i: nat)
    requires i < |identities| && identities[i].pair in PairsOf(identities[..i])
    ensures !NoDuplicates(PairsOf(identities))
  {
    var j :| 0 <= j < i && PairsOf(identities[..i])[j] == identities[i].pair;
    assert PairsOf(identities)[j] == PairsOf(identities)[i];
  }

  // ---------- whole-product isolation ----------

  function IssueItems(issues: seq<(Pair, string)>): set<Item> {
    set i | i in issues :: i.0.item
  }

  function KeptActivity(rows: seq<Activity>, bad: set<Item>): seq<Activity> {
    Filter(rows, (r: Activity) => r.pair.item !in bad)
  }

  function KeptDiscounts(rows: seq<Discount>, bad: set<Item>): seq<Discount> {
    Filter(rows, (r: Discount) => r.pair.item !in bad)
  }

  /** Products with any issue leave both files whole; an issue outside the request stays fatal. */
  method IsolateItemIssues(p: Plan, requested: set<Item>) returns (r: Result<(set<Item>, Plan)>)
    ensures r.Ok? <==> IssueItems(p.issues) <= requested
    ensures r.Ok? ==> r.value.0 == IssueItems(p.issues)
                      && r.value.1 == p.(activity := KeptActivity(p.activity, r.value.0),
                                         discounts := KeptDiscounts(p.discounts, r.value.0))
  {
    var bad: set<Item> := {};
    for i := 0 to |p.issues|
      invariant bad == IssueItems(p.issues[..i]) && bad <= requested
    {
      assert p.issues[..i + 1] == p.issues[..i] + [p.issues[i]];
      if p.issues[i].0.item !in requested {
        assert p.issues[i].0.item in IssueItems(p.issues);
        return Err("unscoped_issue_cannot_be_isolated");
      }
      bad := bad + {p.issues[i].0.item};
    }
    assert p.issues[..|p.issues|] == p.issues;
    r := Ok((bad, p.(activity := KeptActivity(p.activity, bad), discounts := KeptDiscounts(p.discounts, bad))));
  }

  // ---------- a plan as a whole ----------

  predicate SameFacts(a: Activity, d: Discount) {
    a.OrdinarySignup? && a.price == d.daily && a.goal == d.goal && a.big == d.big && a.cap == d.cap
  }

  /** Exact, positive deductions; one row per SKU in each file; both files agree on each SKU. */
  ghost predicate Coherent(p: Plan, rate: Rate) {
    && (forall d :: d in p.discounts ==> DiscountExact(d, rate) && d.deduct > 0)
    && (forall i, j :: 0 <= i < j < |p.activity| ==> p.activity[i].pair != p.activity[j].pair)
    && (forall i, j :: 0 <= i < j < |p.discounts| ==> p.discounts[i].pair != p.discounts[j].pair)
    && (forall a, d :: a in p.activity && d in p.discounts && a.pair == d.pair ==> SameFacts(a, d))
  }

  /** What one template row may contribute to a plan. */
  ghost predicate RowFits(row: Planned, pair: Pair, rate: Rate) {
    row.Rows? ==>
      && (row.activity.Some? ==> row.activity.value.pair == pair)
      && (row.discount.Some? ==> row.discount.value.pair == pair && row.discount.value.deduct > 0
                                 && DiscountExact(row.discount.value, rate))
      && (row.activity.Some? && row.discount.Some? ==> SameFacts(row.activity.value, row.discount.value))
  }

  lemma PlannedRowFits(i: Identity, enrolled: set<Item>, c: Context)
    ensures RowFits(PlanRow(i, enrolled, c), i.pair, c.rate)
  {
  }

  predicate Mentions(p: Plan, pair: Pair) {
    (exists a :: a in p.activity && a.pair == pair) || (exists d :: d in p.discounts && d.pair == pair)
  }

  lemma ExtendedIsCoherent(p: Plan, pair: Pair, row: Planned, rate: Rate)
    requires Coherent(p, rate) && RowFits(row, pair, rate) && !Mentions(p, pair)
    ensures Coherent(Extended(p, pair, row), rate)
    ensures forall q :: Mentions(Extended(p, pair, row), q) ==> Mentions(p, q) || q == pair
  {
  }

  /** Every plan built from a template without repeated SKUs is coherent and stays within it. */
  lemma {:induction false} PlansAreCoherent(identities: seq<Identity>, enrolled: set<Item>, c: Context)
    requires NoDuplicates(PairsOf(identities))
    ensures Coherent(PlanOf(identities, enrolled, c), c.rate)
    ensures forall p :: Mentions(PlanOf(identities, enrolled, c), p) ==> p in PairsOf(identities)
  {
    if identities != [] {
      var n := |identities| - 1;
      assert PairsOf(identities) == PairsOf(identities[..n]) + [identities[n].pair];
      assert PairsOf(identities)[..n] == PairsOf(identities[..n]);
      PlansAreCoherent(identities[..n], enrolled, c);
      PlannedRowFits(identities[n], enrolled, c);
      if identities[n].pair in PairsOf(identities[..n]) {
        Repeated(identities, n);
      }
      ExtendedIsCoherent(PlanOf(identities[..n], enrolled, c), identities[n].pair,
                         PlanRow(identities[n], enrolled, c), c.rate);
    }
  }

  // ---------- which SKUs a plan covers ----------

  /**
   * A row is planned only inside its scope, never for an excluded product and never as a
   * discount of a custom SKU. No SKU in scope is dropped silently: it gets its row or an issue,
   * and an ordinary one lacks a deduction only when the official cut alone gives the target.
   */
  lemma PlanRowScope(i: Identity, enrolled: set<Item>, c: Context)
    ensures var r := PlanRow(i, enrolled, c);
            && (r.Rows? ==> i.pair.item !in c.excluded && i.inExport && i.resolved.Resolved?)
            && (r.Rows? && r.activity.Some? ==> NeedsSignup(i.pair.item, enrolled, c))
            && (r.Rows? && r.discount.Some? ==> NeedsDiscount(i.pair.item, c) && i.resolved.erp.custom == Some(false))
            && (i.pair.item !in c.excluded && NeedsSignup(i.pair.item, enrolled, c) ==>
                  r.Issue? || (r.Rows? && r.activity.Some?))
            && (r.Rows? && r.discount.None? && NeedsDiscount(i.pair.item, c) && i.resolved.erp.custom == Some(false) ==>
                  Some(Net(i.resolved.erp.daily.value, c.rate)) == i.resolved.erp.goal)
  {
  }

  /** The lists hold exactly what the template rows contribute. */
  lemma {:induction false} PlanHoldsExactly(identities: seq<Identity>, enrolled: set<Item>, c: Context)
    ensures var p := PlanOf(identities, enrolled, c);
            && (forall a :: a in p.activity <==>
                  exists k :: k in identities && PlanRow(k, enrolled, c).Rows?
                              && PlanRow(k, enrolled, c).activity == Some(a))
            && (forall d :: d in p.discounts <==>
                  exists k :: k in identities && PlanRow(k, enrolled, c).Rows?
                              && PlanRow(k, enrolled, c).discount == Some(d))
            && (forall x :: x in p.issues <==>
                  exists k :: k in identities && PlanRow(k, enrolled, c) == Issue(x.1) && k.pair == x.0)
  {
    if identities != [] {
      var n := |identities| - 1;
      PlanHoldsExactly(identities[..n], enrolled, c);
      assert forall k :: k in identities <==> k in identities[..n] || k == identities[n];
    }
  }

  // ---------- what every row follows from: the ERP row and the run's limits alone ----------

  /** No official limits are given, or positive ones for this SKU. */
  predicate LimitsKnown(pair: Pair, c: Context) {
    c.limits.Some? ==>
      && pair in c.limits.value && c.limits.value[pair].price.Some? && c.limits.value[pair].final.Some?
      && c.limits.value[pair].price.value > 0 && c.limits.value[pair].final.value > 0
  }

  /** The price is at most the official price limit, and after the official cut at most the final limit. */
  predicate WithinLimits(pair: Pair, price: nat, c: Context)
    requires LimitsKnown(pair, c)
  {
    c.limits.Some? ==> && price <= c.limits.value[pair].price.value
                       && Net(price, c.rate) <= c.limits.value[pair].final.value
  }

  /** An ordinary SKU is held to the official final limit; without limits to its cap; else to none. */
  predicate HeldTo(pair: Pair, c: Context, cap: Option<real>)
    requires LimitsKnown(pair, c)
  {
    if c.limits.Some? then cap == Some(c.limits.value[pair].final.value as real)
    else if c.caps.Some? then pair in c.caps.value && cap == Some(c.caps.value[pair])
    else cap == None
  }

  /** The final price: the target, or under a cap the greatest cent amount within both, at most two yuan less. */
  predicate FinalFits(final: Cents, goal: Cents, cap: Option<real>, rate: Rate) {
    if cap.None? then final == goal
    else rate.num > 0 && 0 < final && GreatestWithin(final, goal, cap.value) && goal - final <= TWO_YUAN
  }

  /** These are the ERP row's own price and targets, and this cap and final price follow from them. */
  predicate OrdinaryPriced(e: ErpRow, pair: Pair, c: Context, daily: nat, goal: Cents, big: Cents, cap: Option<real>,
                           final: Cents)
  {
    && e.daily == Some(daily) && daily > 0 && e.goal == Some(goal) && e.big == Some(big) && 0 < big <= goal
    && goal <= Net(daily, c.rate) && LimitsKnown(pair, c)
    && (c.limits.Some? ==> daily <= c.limits.value[pair].price.value)
    && HeldTo(pair, c, cap) && FinalFits(final, goal, cap, c.rate)
  }

  lemma FinalOfCap(goal: Cents, cap: real, rate: Rate, final: Cents)
    requires goal > 0
    ensures FinalFits(final, goal, Some(cap), rate)
            <==> rate.num > 0 && final == Min(goal, cap.Floor) && 0 < final && goal - final <= TWO_YUAN
  {
  }

  lemma OrdinaryPlanFollows(pair: Pair, daily: nat, e: ErpRow, bounds: Option<Bounds>, c: Context, d: Discount)
    requires daily > 0 && e.daily == Some(daily) && BoundsFor(pair, c) == Ok(bounds)
    ensures OrdinaryPlan(pair, daily, e, bounds, c) == Ok(d)
            <==> && d.pair == pair && d.daily == daily
                 && OrdinaryPriced(e, pair, c, daily, d.goal, d.big, d.cap, d.final)
                 && d.cut == OfficialCut(daily, c.rate) && d.deduct == Net(daily, c.rate) - d.final
  {
    hide OfficialCut, GreatestWithin, FinalFits, OrdinaryPrice;
    if e.goal.Some? && e.goal.value > 0 {
      if CapFor(pair, bounds, c).Ok? && CapFor(pair, bounds, c).value.Some? {
        var cap := CapFor(pair, bounds, c).value.value;
        OrdinaryPriceFollows(daily, e.goal.value, c.rate, cap);
        FinalOfCap(e.goal.value, cap, c.rate, d.final);
      } else {
        UncappedFinal(e.goal.value, c.rate, d.final);
      }
    }
  }

  lemma UncappedFinal(goal: Cents, rate: Rate, final: Cents)
    ensures FinalFits(final, goal, None, rate) <==> final == goal
  {
  }

  /** A known fixed original is of the current business code and not above the daily price. */
  predicate BasisHolds(pair: Pair, daily: nat, lineageCurrent: bool, c: Context) {
    pair in c.bases ==> lineageCurrent && daily as real >= c.bases[pair].floor
  }

  /**
   * A custom SKU is signed up at its daily price if that keeps the limits; otherwise at the least of
   * daily price, price limit and official suggestion, if that keeps them and a certain fixed floor.
   */
  predicate CustomPriced(e: ErpRow, pair: Pair, lineageCurrent: bool, c: Context, price: nat) {
    && e.daily.Some? && e.daily.value > 0 && LimitsKnown(pair, c)
    && BasisHolds(pair, e.daily.value, lineageCurrent, c)
    && if WithinLimits(pair, e.daily.value, c) then price == e.daily.value
       else
         var l := c.limits.value[pair];
         && l.suggested.Some? && price == Min(Min(e.daily.value, l.price.value), l.suggested.value)
         && price > 0 && Net(price, c.rate) <= l.final.value
         && pair in c.bases && !c.bases[pair].uncertain && price as real >= c.bases[pair].floor
  }

  lemma CeilBounds(price: int, floor: real)
    ensures price < Ceil(floor) <==> (price as real) < floor
  {
  }

  lemma CustomPlanFollows(e: ErpRow, pair: Pair, lineageCurrent: bool, bounds: Option<Bounds>, c: Context, price: Cents)
    requires e.daily.Some? && e.daily.value > 0 && BoundsFor(pair, c) == Ok(bounds)
    ensures CustomPlan(e.daily.value, if pair in c.bases then Some(c.bases[pair]) else None, lineageCurrent, bounds,
                      c.rate)
            == Ok(price)
            <==> price >= 0 && CustomPriced(e, pair, lineageCurrent, c, price)
  {
    hide Net, Ceil;
    if pair in c.bases {
      CeilBounds(price, c.bases[pair].floor);
    }
  }

  /** The row is looked at: for a signup in scope, or for the discount in scope of a SKU that may be ordinary. */
  predicate SignedUp(i: Identity, enrolled: bool, c: Context) {
    i.pair.item !in c.excluded && !enrolled && (c.signup.Some? ==> i.pair.item in c.signup.value)
  }

  predicate Discounted(i: Identity, c: Context) {
    i.pair.item !in c.excluded && (c.discount.Some? ==> i.pair.item in c.discount.value)
  }

  predicate Resolves(i: Identity, custom: bool) {
    i.inExport && i.resolved.Resolved? && i.resolved.erp.custom == Some(custom)
  }

  /** This template row, of a product that is or is not enrolled, is signed up so. */
  ghost predicate SignupFollows(a: Activity, i: Identity, enrolled: bool, c: Context) {
    && a.pair == i.pair && SignedUp(i, enrolled, c)
    && match a
       case CustomSignup(pair, price) =>
         Resolves(i, true) && CustomPriced(i.resolved.erp, pair, i.resolved.lineageCurrent, c, price)
       case OrdinarySignup(pair, price, goal, big, cap) =>
         Resolves(i, false) && exists final :: OrdinaryPriced(i.resolved.erp, pair, c, price, goal, big, cap, final)
  }

  /** It is discounted so: by what the official cut leaves above the final price, if anything. */
  predicate DiscountFollows(d: Discount, i: Identity, enrolled: bool, c: Context) {
    && d.pair == i.pair && Discounted(i, c) && (SignedUp(i, enrolled, c) || !i.customOnly) && Resolves(i, false)
    && OrdinaryPriced(i.resolved.erp, d.pair, c, d.daily, d.goal, d.big, d.cap, d.final)
    && d.cut == OfficialCut(d.daily, c.rate) && d.deduct == Net(d.daily, c.rate) - d.final > 0
  }

  /**
   * The row is an issue: it is missing from the export, cannot be resolved, has no known kind, or
   * no price follows for it. A custom SKU counts only when its product is signed up.
   */
  ghost predicate IsIssue(i: Identity, enrolled: bool, c: Context) {
    && (SignedUp(i, enrolled, c) || Discounted(i, c))
    && (!i.inExport
        || ((SignedUp(i, enrolled, c) || !i.customOnly)
            && (i.resolved.Unresolved? || i.resolved.erp.custom.None?
                || (Resolves(i, true) && SignedUp(i, enrolled, c)
                    && !exists price :: CustomPriced(i.resolved.erp, i.pair, i.resolved.lineageCurrent, c, price))
                || (Resolves(i, false)
                    && !exists daily, goal, big, cap, final ::
                          OrdinaryPriced(i.resolved.erp, i.pair, c, daily, goal, big, cap, final)))))
  }

  lemma BoundsAreLimits(pair: Pair, c: Context)
    ensures BoundsFor(pair, c).Ok? <==> LimitsKnown(pair, c)
  {
  }

  /** The discount of a SKU that can be priced; the deduction may be zero. */
  predicate PricedAs(d: Discount, e: ErpRow, pair: Pair, c: Context) {
    && d.pair == pair && OrdinaryPriced(e, pair, c, d.daily, d.goal, d.big, d.cap, d.final)
    && d.cut == OfficialCut(d.daily, c.rate) && d.deduct == Net(d.daily, c.rate) - d.final
  }

  lemma OrdinaryRowPriced(pair: Pair, e: ErpRow, lineageCurrent: bool, c: Context, signup: bool, discount: bool)
    requires e.custom == Some(false)
    ensures var r := PricedRows(pair, e, lineageCurrent, c, signup, discount);
            && !r.Skip?
            && (forall d :: PricedAs(d, e, pair, c) ==>
                  r == Rows(if signup then Some(OrdinarySignup(pair, d.daily, d.goal, d.big, d.cap)) else None,
                            if discount && d.deduct > 0 then Some(d) else None))
            && (r.Rows? <==> exists d :: PricedAs(d, e, pair, c))
  {
    hide OrdinaryPlan, BoundsFor, OrdinaryPriced, OfficialCut;
    BoundsAreLimits(pair, c);
    if e.daily.Some? && e.daily.value > 0 && BoundsFor(pair, c).Ok? {
      var bounds := BoundsFor(pair, c).value;
      forall d ensures OrdinaryPlan(pair, e.daily.value, e, bounds, c) == Ok(d) <==> PricedAs(d, e, pair, c) {
        OrdinaryPlanFollows(pair, e.daily.value, e, bounds, c, d);
        PricedDaily(e, pair, c, d);
      }
      if r: Discount :| OrdinaryPlan(pair, e.daily.value, e, bounds, c) == Ok(r) {
        assert PricedAs(r, e, pair, c);
      }
    } else {
      forall d ensures !PricedAs(d, e, pair, c) {
        PricedDaily(e, pair, c, d);
      }
    }
  }

  lemma PricedDaily(e: ErpRow, pair: Pair, c: Context, d: Discount)
    ensures PricedAs(d, e, pair, c) ==> e.daily == Some(d.daily) && d.daily > 0 && LimitsKnown(pair, c)
  {
  }

  lemma CustomRowPriced(pair: Pair, e: ErpRow, lineageCurrent: bool, c: Context, signup: bool, discount: bool)
    requires e.custom == Some(true)
    ensures var r := PricedRows(pair, e, lineageCurrent, c, signup, discount);
            && !r.Skip?
            && (forall price :: CustomPriced(e, pair, lineageCurrent, c, price) ==>
                  r == Rows(Some(CustomSignup(pair, price)), None))
            && (r.Rows? <==> exists price :: CustomPriced(e, pair, lineageCurrent, c, price))
  {
    hide CustomPlan, BoundsFor;
    BoundsAreLimits(pair, c);
    if e.daily.Some? && e.daily.value > 0 && BoundsFor(pair, c).Ok? {
      var bounds := BoundsFor(pair, c).value;
      var plan := CustomPlan(e.daily.value, if pair in c.bases then Some(c.bases[pair]) else None, lineageCurrent,
                            bounds,
                             c.rate);
      forall price: Cents ensures plan == Ok(price) <==> price >= 0 && CustomPriced(e, pair, lineageCurrent, c, price) {
        CustomPlanFollows(e, pair, lineageCurrent, bounds, c, price);
      }
      if plan.Ok? {
        assert CustomPriced(e, pair, lineageCurrent, c, plan.value);
      }
    }
  }

  /** What one template row contributes, exactly. */
  ghost predicate Contributes(r: Planned, i: Identity, enrolled: bool, c: Context) {
    && (r.Issue? <==> IsIssue(i, enrolled, c))
    && (forall a :: r.Rows? && r.activity == Some(a) <==> SignupFollows(a, i, enrolled, c))
    && (forall d :: r.Rows? && r.discount == Some(d) <==> DiscountFollows(d, i, enrolled, c))
  }

  lemma OrdinaryContributes(i: Identity, enrolled: set<Item>, c: Context)
    requires Resolves(i, false)
    ensures Contributes(PlanRow(i, enrolled, c), i, i.pair.item in enrolled, c)
  {
    hide PricedRows, OrdinaryPriced, CustomPriced, OfficialCut;
    var e, on := i.resolved.erp, i.pair.item in enrolled;
    var signup, discount := NeedsSignup(i.pair.item, enrolled, c), NeedsDiscount(i.pair.item, c);
    OrdinaryRowPriced(i.pair, e, i.resolved.lineageCurrent, c, signup, discount);
    var r := PricedRows(i.pair, e, i.resolved.lineageCurrent, c, signup, discount);
    PriceableOrdinary(e, i.pair, c);
    forall a: Activity
      ensures a.OrdinarySignup? && a.pair == i.pair ==>
                ((exists final :: OrdinaryPriced(e, i.pair, c, a.price, a.goal, a.big, a.cap, final))
                 <==> exists d :: PricedAs(d, e, i.pair, c)
                                 && a == OrdinarySignup(i.pair, d.daily, d.goal, d.big, d.cap))
    {
      if a.OrdinarySignup? && a.pair == i.pair {
        PricedAsPlanned(a, e, i.pair, c);
      }
    }
  }

  lemma PricedAsPlanned(a: Activity, e: ErpRow, pair: Pair, c: Context)
    requires a.OrdinarySignup? && a.pair == pair
    ensures (exists final :: OrdinaryPriced(e, pair, c, a.price, a.goal, a.big, a.cap, final))
            <==> exists d :: PricedAs(d, e, pair, c) && a == OrdinarySignup(pair, d.daily, d.goal, d.big, d.cap)
  {
    hide OrdinaryPriced, OfficialCut;
    if final :| OrdinaryPriced(e, pair, c, a.price, a.goal, a.big, a.cap, final) {
      var d := Discount(pair, a.price, a.goal, a.big, a.cap, OfficialCut(a.price, c.rate), Net(a.price, c.rate) - final,
                        final);
      assert PricedAs(d, e, pair, c);
    }
  }

  lemma PriceableOrdinary(e: ErpRow, pair: Pair, c: Context)
    ensures (exists d :: PricedAs(d, e, pair, c))
            <==> exists daily, goal, big, cap, final :: OrdinaryPriced(e, pair, c, daily, goal, big, cap, final)
  {
    hide OrdinaryPriced, OfficialCut;
    if daily, goal, big, cap, final :| OrdinaryPriced(e, pair, c, daily, goal, big, cap, final) {
      var d := Discount(pair, daily, goal, big, cap, OfficialCut(daily, c.rate), Net(daily, c.rate) - final, final);
      assert PricedAs(d, e, pair, c);
    }
  }

  lemma CustomContributes(i: Identity, enrolled: set<Item>, c: Context)
    requires Resolves(i, true)
    ensures Contributes(PlanRow(i, enrolled, c), i, i.pair.item in enrolled, c)
  {
    hide PricedRows, OrdinaryPriced, CustomPriced;
    var signup, discount := NeedsSignup(i.pair.item, enrolled, c), NeedsDiscount(i.pair.item, c);
    CustomRowPriced(i.pair, i.resolved.erp, i.resolved.lineageCurrent, c, signup, discount);
  }

  lemma RowContributes(i: Identity, enrolled: set<Item>, c: Context)
    ensures Contributes(PlanRow(i, enrolled, c), i, i.pair.item in enrolled, c)
  {
    if Resolves(i, false) {
      OrdinaryContributes(i, enrolled, c);
    } else if Resolves(i, true) {
      CustomContributes(i, enrolled, c);
    } else {
      hide PricedRows, OrdinaryPriced, CustomPriced;
    }
  }

  ghost predicate HasIssue(p: Plan, pair: Pair) {
    exists code :: (pair, code) in p.issues
  }

  /** The template shows some SKU of this product as enrolled. */
  ghost predicate Enrolled(identities: seq<Identity>, item: Item) {
    exists k :: k in identities && k.enrolled && k.pair.item == item
  }

  /**
   * The plan of a template, exactly: the rows and issues that follow from the ERP row of each SKU,
   * the scopes of the request, the fixed originals and the official limits or caps.
   */
  lemma PlanFollowsExactly(identities: seq<Identity>, c: Context)
    ensures var p := PlanOf(identities, EnrolledItems(identities), c);
            && (forall a :: a in p.activity <==>
                  exists k :: k in identities && SignupFollows(a, k, Enrolled(identities, k.pair.item), c))
            && (forall d :: d in p.discounts <==>
                  exists k :: k in identities && DiscountFollows(d, k, Enrolled(identities, k.pair.item), c))
            && (forall pair :: HasIssue(p, pair) <==>
                  exists k :: k in identities && k.pair == pair && IsIssue(k, Enrolled(identities, k.pair.item), c))
  {
    hide PlanRow, SignupFollows, DiscountFollows, IsIssue;
    var enrolled := EnrolledItems(identities);
    var p := PlanOf(identities, enrolled, c);
    PlanHoldsExactly(identities, enrolled, c);
    forall k | k in identities ensures Contributes(PlanRow(k, enrolled, c), k, Enrolled(identities, k.pair.item), c) {
      RowContributes(k, enrolled, c);
    }
    forall pair
      ensures HasIssue(p, pair) <==>
              exists k :: k in identities && k.pair == pair && IsIssue(k, Enrolled(identities, k.pair.item), c)
    {
      if code :| (pair, code) in p.issues {
        var k :| k in identities && PlanRow(k, enrolled, c) == Issue(code) && k.pair == pair;
      }
      if k :| k in identities && k.pair == pair && IsIssue(k, Enrolled(identities, k.pair.item), c) {
        assert PlanRow(k, enrolled, c) == Issue(PlanRow(k, enrolled, c).code);
        assert (pair, PlanRow(k, enrolled, c).code) in p.issues;
      }
    }
  }

  function ActivityPairs(rows: seq<Activity>): seq<Pair> {
    seq(|rows|, i requires 0 <= i < |rows| => rows[i].pair)
  }

  function DiscountPairs(rows: seq<Discount>): seq<Pair> {
    seq(|rows|, i requires 0 <= i < |rows| => rows[i].pair)
  }

  function IssuePairs(issues: seq<(Pair, string)>): seq<Pair> {
    seq(|issues|, i requires 0 <= i < |issues| => issues[i].0)
  }

  /** Rows and issues keep the order of the template, in which each SKU stands once. */
  lemma {:induction false} PlanKeepsOrder(identities: seq<Identity>, enrolled: set<Item>, c: Context)
    requires NoDuplicates(PairsOf(identities))
    ensures var p, all := PlanOf(identities, enrolled, c), PairsOf(identities);
            InOrder(ActivityPairs(p.activity), all) && InOrder(DiscountPairs(p.discounts), all)
            && InOrder(IssuePairs(p.issues), all)
  {
    hide PlanRow, InOrder;
    var all := PairsOf(identities);
    if identities != [] {
      var n := |identities| - 1;
      assert all[..n] == PairsOf(identities[..n]) && all[n] == identities[n].pair;
      PlanKeepsOrder(identities[..n], enrolled, c);
      var before, p := PlanOf(identities[..n], enrolled, c), PlanOf(identities, enrolled, c);
      var row, pair := PlanRow(identities[n], enrolled, c), identities[n].pair;
      PlannedRowFits(identities[n], enrolled, c);
      var a := if row.Rows? && row.activity.Some? then [pair] else [];
      var d := if row.Rows? && row.discount.Some? then [pair] else [];
      var x := if row.Issue? then [pair] else [];
      assert ActivityPairs(p.activity) == ActivityPairs(before.activity) + a;
      assert DiscountPairs(p.discounts) == DiscountPairs(before.discounts) + d;
      assert IssuePairs(p.issues) == IssuePairs(before.issues) + x;
      OrderGrows(ActivityPairs(before.activity), all, a);
      OrderGrows(DiscountPairs(before.discounts), all, d);
      OrderGrows(IssuePairs(before.issues), all, x);
    } else {
      NothingInOrder(all);
      var p := PlanOf(identities, enrolled, c);
      assert ActivityPairs(p.activity) == [] && DiscountPairs(p.discounts) == [] && IssuePairs(p.issues) == [];
    }
  }
}
