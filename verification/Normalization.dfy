/**
 * One combined decision input per failed SKU: every official constraint on the SKU is
 * joined with the price version that was actually submitted.
 */
module Normalization {
  import opened CampaignTypes
  import opened Prices
  import opened Policy
  import Feedback

  datatype Mode = Big | Medium | OtherMode

  datatype Submitted = Submitted(erpCode: string, activityPrice: Option<Cents>)

  datatype ErpRow = ErpRow(code: string, custom: Option<bool>, daily: Option<Cents>,
                           bigTarget: Option<Cents>, mediumTarget: Option<Cents>)

  datatype SavedDiscount = SavedDiscount(pair: Pair, verified: bool, evidence: bool, deduct: Cents, target: Mode)

  datatype FixedBasis = FixedBasis(original: Option<Cents>, sourced: bool, uncertain: bool)

  /** Everything the normalization reads besides the errors. */
  datatype Context = Context(submitted: map<Pair, Submitted>, erp: seq<ErpRow>, bases: map<Pair, FixedBasis>,
                             discounts: seq<SavedDiscount>, rate: Rate, targetMode: Option<Mode>,
                             shipping: set<(Pair, string)>)

  // ---------- constraints of one SKU ----------

  function OfKind(errors: seq<Failure>, kind: Kind): (r: seq<Failure>)
    ensures |r| <= |errors| && forall e :: e in r <==> e in errors && e.kind == kind
  {
    FilterMembers(errors, (e: Failure) => e.kind == kind);
    Filter(errors, (e: Failure) => e.kind == kind)
  }

  predicate CapsPresent(errors: seq<Failure>) {
    forall e :: e in errors && (e.kind == ListPrice || e.kind == ApprovedPrice || e.kind == CouponPrice) ==>
                  IsMoney(e.proof.cap)
  }

  predicate ObservedPresent(errors: seq<Failure>) {
    forall e :: e in errors && e.kind == CouponPrice ==> IsMoney(e.proof.observed)
  }

  /** The greatest of base and the cap-derived bounds f(e) over the errors. */
  function MaxOver(base: int, errors: seq<Failure>, f: Failure -> int): (m: int)
    ensures m >= base && forall e :: e in errors ==> m >= f(e)
    ensures m == base || exists e :: e in errors && m == f(e)
  {
    if errors == [] then base else Max(f(errors[0]), MaxOver(base, errors[1..], f))
  }

  function MinOver(base: int, errors: seq<Failure>, f: Failure -> int): (m: int)
    ensures m <= base && forall e :: e in errors ==> m <= f(e)
    ensures m == base || exists e :: e in errors && m == f(e)
  {
    if errors == [] then base else Min(f(errors[0]), MinOver(base, errors[1..], f))
  }

  /** An amount of the cap column; the callers have checked its presence. */
  function CapOf(e: Failure): Cents {
    if e.proof.cap.Some? then e.proof.cap.value else 0
  }

  function ObservedOf(e: Failure): Cents {
    if e.proof.observed.Some? then e.proof.observed.value else 0
  }

  /** The conservative custom price: below every cap even after the rounded cut. */
  function FeasibleCustom(price: Cents, daily: Cents, errors: seq<Failure>, rate: Rate): Cents {
    var listed := MinOver(Min(price, daily), OfKind(errors, ListPrice), CapOf);
    var approved := MinOver(listed, OfKind(errors, ApprovedPrice), (e: Failure) => CapOf(e) - 1);
    MinOver(approved, OfKind(errors, CouponPrice), (e: Failure) => FloorQuotient(CapOf(e), rate))
  }

  /** The deduction that answers all list caps, coupon caps and observed gaps at once. */
  function NeededDeduct(current: Cents, daily: nat, errors: seq<Failure>, rate: Rate): Cents {
    var listed := MaxOver(current, OfKind(errors, ListPrice), (e: Failure) => daily - CapOf(e));
    var capped := MaxOver(listed, OfKind(errors, CouponPrice), (e: Failure) => Net(daily, rate) - CapOf(e));
    MaxOver(capped, OfKind(errors, CouponPrice), (e: Failure) => current + ObservedOf(e) - CapOf(e))
  }

  /** What a deduction d has to meet for every constraint together. */
  ghost predicate MeetsAll(d: Cents, current: Cents, daily: nat, errors: seq<Failure>, rate: Rate) {
    && d >= current
    && (forall e :: e in errors && e.kind == ListPrice ==> daily - d <= CapOf(e))
    && (forall e :: e in errors && e.kind == CouponPrice ==>
                      Net(daily, rate) - d <= CapOf(e) && ObservedOf(e) - (d - current) <= CapOf(e))
  }

  /** The needed deduction meets every constraint and is the least that does. */
  lemma NeededIsLeast(current: Cents, daily: nat, errors: seq<Failure>, rate: Rate, d: Cents)
    ensures MeetsAll(d, current, daily, errors, rate) <==> d >= NeededDeduct(current, daily, errors, rate)
  {
  }

  /**
   * The feasible custom price respects the submitted price, the daily price, every list cap,
   * stays strictly under every approved value and, after the actually rounded cut, keeps
   * every coupon cap.
   */
  lemma FeasibleCustomKeepsCaps(price: Cents, daily: Cents, errors: seq<Failure>, rate: Rate)
    requires FeasibleCustom(price, daily, errors, rate) >= 0
    ensures var p := FeasibleCustom(price, daily, errors, rate);
            && p <= price && p <= daily
            && (forall e :: e in errors && e.kind == ListPrice ==> p <= CapOf(e))
            && (forall e :: e in errors && e.kind == ApprovedPrice ==> p < CapOf(e))
            && (forall e :: e in errors && e.kind == CouponPrice ==> Net(p, rate) <= CapOf(e))
  {
    var p := FeasibleCustom(price, daily, errors, rate);
    forall e | e in errors
      ensures e.kind == ListPrice ==> p <= CapOf(e)
      ensures e.kind == ApprovedPrice ==> p < CapOf(e)
      ensures e.kind == CouponPrice ==> Net(p, rate) <= CapOf(e)
    {
      if e.kind == CouponPrice {
        assert e in OfKind(errors, CouponPrice);
        RoundingKeepsCap(p, CapOf(e), rate);
      } else if e.kind == ListPrice {
        assert e in OfKind(errors, ListPrice);
      } else if e.kind == ApprovedPrice {
        assert e in OfKind(errors, ApprovedPrice);
      }
    }
  }

  // ---------- one SKU ----------

  function MatchesOf(ctx: Context, pair: Pair): seq<ErpRow> {
    if pair !in ctx.submitted then []
    else Filter(ctx.erp, (r: ErpRow) => r.code == ctx.submitted[pair].erpCode)
  }

  function DiscountsOf(ctx: Context, pair: Pair): seq<SavedDiscount> {
    Filter(ctx.discounts, (r: SavedDiscount) => r.pair == pair)
  }

  /** The explicit target mode, else the only one among the saved discounts. */
  function ModeOf(ctx: Context, rows: seq<SavedDiscount>): Mode {
    if ctx.targetMode.Some? then ctx.targetMode.value
    else if |rows| > 0 && forall r :: r in rows ==> r.target == rows[0].target then rows[0].target
    else OtherMode
  }

  function TargetOf(facts: ErpRow, mode: Mode): Option<Cents> {
    if mode == Big then facts.bigTarget else facts.mediumTarget
  }

  /** A positive price within two yuan of the ERP target. */
  predicate WithinTwo(v: Cents, target: Cents) {
    Abs(v - target) <= TWO_YUAN && v > 0
  }

  /** The combined change of one existing single discount; observation is set when bounded. */
  datatype Adjustment = Adjustment(target: Cents, final: Cents, current: Cents, proposed: Cents,
                                   observation: Option<Observation>)

  /** What the price facts say about one SKU. */
  datatype Finding =
    | NotDaily
    | Custom(original: Cents, feasible: Cents)
    | CannotFit(target: Cents, final: Cents)
    | Adjusted(hasCoupon: bool, change: Adjustment)

  predicate NoPriceConstraint(errors: seq<Failure>) {
    forall e :: e in errors ==> e.kind == NoSales || e.kind == Mapping
  }

  predicate HasUnknown(errors: seq<Failure>) {
    exists e :: e in errors && e.kind == UnknownKind
  }

  function NormalizeGroup(pair: Pair, errors: seq<Failure>, ctx: Context): Failure
    requires errors != []
  {
    var base := errors[0];
    if NoPriceConstraint(errors) then base
    else if pair.sku == "" || HasUnknown(errors) then base.(kind := UnknownKind)
    else NormalizePriced(base, pair, errors, ctx)
  }

  function NormalizePriced(base: Failure, pair: Pair, errors: seq<Failure>, ctx: Context): Failure {
    var matches := MatchesOf(ctx, pair);
    if |matches| != 1 || matches[0].custom.None? then base.(kind := UnknownKind, parseIssue := ErpMappingAmbiguous)
    else
      var facts, price := matches[0], ctx.submitted[pair].activityPrice;
      match CheckSubmitted(errors, facts, price)
      case Refused(issue) => base.(kind := UnknownKind, parseIssue := issue)
      case Found(_) => Finish(PricedRow(base, facts, price), Find(pair, errors, ctx, facts))
  }

  /** The row as it goes into the price findings. */
  function PricedRow(base: Failure, facts: ErpRow, price: Option<Cents>): Failure {
    base.(price := base.price.(custom := facts.custom, daily := facts.daily, submitted := price))
  }

  function Finish(priced: Failure, found: Checked<Finding>): Failure {
    match found
    case Refused(issue) => priced.(kind := UnknownKind, parseIssue := issue)
    case Found(finding) => Apply(priced, finding)
  }

  /** A value, or the parse issue that the raised error leaves on the row. */
  datatype Checked<+T> = Found(value: T) | Refused(issue: Code)

  /** The daily price and the price every error was reported against are the submitted ones. */
  function CheckSubmitted(errors: seq<Failure>, facts: ErpRow, price: Option<Cents>): (r: Checked<()>)
    ensures r.Found? <==> && IsMoney(facts.daily) && IsMoney(price)
                          && forall e :: e in errors ==> e.price.submitted == price
    ensures r.Refused? ==> r.issue != Blank
  {
    if !IsMoney(facts.daily) || !IsMoney(price) || !(forall e :: e in errors ==> IsMoney(e.price.submitted)) then
      Refused(MoneyInvalid)
    else if !(forall e :: e in errors ==> e.price.submitted == price) then Refused(SubmittedPriceMismatch)
    else Found(())
  }

  function Apply(priced: Failure, finding: Finding): Failure {
    match finding
    case NotDaily => priced.(kind := SignupNotDaily)
    case Custom(original, feasible) =>
      priced.(kind := CustomPriceKind,
              price := priced.price.(fixedOriginal := Some(original), fixedEvidence := true,
                                     feasibleSignup := Some(feasible)))
    case CannotFit(target, final) =>
      priced.(kind := CouponPrice, price := priced.price.(target := Some(target), feasibleFinal := Some(final)))
    case Adjusted(hasCoupon, c) =>
      priced.(kind := if hasCoupon then CouponPrice else ListPrice,
              price := priced.price.(target := Some(c.target), feasibleFinal := Some(c.final),
                                     currentDeduct := Some(c.current), proposedDeduct := Some(c.proposed),
                                     bounded := c.observation))
  }

  function Find(pair: Pair, errors: seq<Failure>, ctx: Context, facts: ErpRow): (r: Checked<Finding>)
    requires pair in ctx.submitted && facts.custom.Some?
    requires IsMoney(facts.daily) && IsMoney(ctx.submitted[pair].activityPrice)
    ensures r.Refused? ==> r.issue != Blank
  {
    var daily, price := facts.daily.value, ctx.submitted[pair].activityPrice.value;
    if !CapsPresent(errors) then Refused(MoneyInvalid)
    else if facts.custom.value then
      if pair !in ctx.bases || !ctx.bases[pair].sourced || ctx.bases[pair].uncertain then Refused(FixedOriginalMissing)
      else if !IsMoney(ctx.bases[pair].original) then Refused(MoneyInvalid)
      else Found(Custom(ctx.bases[pair].original.value, FeasibleCustom(price, daily, errors, ctx.rate)))
    else if price != daily || OfKind(errors, ApprovedPrice) != [] then Found(NotDaily)
    else FindOrdinary(errors, ctx, facts, daily, DiscountsOf(ctx, pair))
  }

  function FindOrdinary(errors: seq<Failure>, ctx: Context, facts: ErpRow, daily: nat, rows: seq<SavedDiscount>)
    : Checked<Finding>
  {
    var coupons := OfKind(errors, CouponPrice);
    var mode := ModeOf(ctx, rows);
    if mode == OtherMode then Refused(TargetModeUnknown)
    else if !IsMoney(TargetOf(facts, mode)) then Refused(MoneyInvalid)
    else
      var goal := TargetOf(facts, mode).value;
      if coupons != [] && MinOver(CapOf(coupons[0]), coupons, CapOf) < goal - TWO_YUAN then
        // A ceiling below target minus two cannot fit: the decision rules reject it.
        Found(CannotFit(goal, MinOver(CapOf(coupons[0]), coupons, CapOf)))
      else if |rows| != 1 || !rows[0].verified || !rows[0].evidence then Refused(ReadbackMissing)
      else if rows[0].deduct < 0 then Refused(InvalidDiscount)
      else if !IsMoney(TargetOf(facts, rows[0].target)) || !ObservedPresent(errors) then Refused(MoneyInvalid)
      else Adjust(errors, ctx.rate, daily, rows[0].deduct, TargetOf(facts, rows[0].target).value)
  }

  /** The combined adjustment of one existing, verified single discount. */
  function Adjust(errors: seq<Failure>, rate: Rate, daily: nat, current: Cents, target: Cents): Checked<Finding> {
    AdjustBy(errors, Net(daily, rate), current, target, NeededDeduct(current, daily, errors, rate))
  }

  /** Raising the deduction to needed is allowed when every observed price is explained or bounded. */
  function AdjustBy(errors: seq<Failure>, net: int, current: Cents, target: Cents, needed: Cents): Checked<Finding> {
    var coupons := OfKind(errors, CouponPrice);
    var explained := forall e :: e in coupons ==> ObservedOf(e) == net - current;
    if !explained && !(WithinTwo(net - current, target) && WithinTwo(net - needed, target)
                       && forall e :: e in coupons ==> WithinTwo(ObservedOf(e), target)
                                                       && WithinTwo(ObservedOf(e) - (needed - current), target)) then
      Refused(UnexplainedStacking)
    else
      Found(Adjusted(coupons != [], Adjustment(target, net - needed, current, needed,
                     if explained then None else Some(Observation(ObservedFinals(coupons), net - current)))))
  }

  function ObservedFinals(coupons: seq<Failure>): (r: seq<Cents>)
    ensures |r| == |coupons| && forall i :: 0 <= i < |coupons| ==> r[i] == ObservedOf(coupons[i])
  {
    seq(|coupons|, i requires 0 <= i < |coupons| => ObservedOf(coupons[i]))
  }

  /** Everything an ordinary repair that survives the rules rests on. */
  ghost predicate SoundAdjustment(c: Adjustment, daily: nat, errors: seq<Failure>, rate: Rate) {
    // the least deduction that meets all caps and gaps together, never below the current one
    && c.current >= 0
    && MeetsAll(c.proposed, c.current, daily, errors, rate)
    && (forall d :: MeetsAll(d, c.current, daily, errors, rate) ==> c.proposed <= d)
    && c.final == Net(daily, rate) - c.proposed && WithinTwo(c.final, c.target)
    // either every observation is the calculated price, or all of them stay bounded
    && (c.observation.None? ==> forall e :: e in errors && e.kind == CouponPrice ==>
                                            ObservedOf(e) == Net(daily, rate) - c.current)
    && (c.observation.Some? ==>
          && c.observation.value == Observation(ObservedFinals(OfKind(errors, CouponPrice)),
                                           Net(daily, rate) - c.current)
          && c.observation.value.finals != []
          && WithinTwo(Net(daily, rate) - c.current, c.target)
          && forall e :: e in errors && e.kind == CouponPrice ==>
                         && WithinTwo(ObservedOf(e), c.target)
                         && WithinTwo(ObservedOf(e) - (c.proposed - c.current), c.target))
  }

  lemma AdjustByIsSound(errors: seq<Failure>, rate: Rate, daily: nat, current: Cents, target: Cents, needed: Cents)
    requires current >= 0 && MeetsAll(needed, current, daily, errors, rate)
    requires forall d :: MeetsAll(d, current, daily, errors, rate) ==> needed <= d
    requires AdjustBy(errors, Net(daily, rate), current, target, needed).Found?
    requires WithinTwo(Net(daily, rate) - needed, target)
    ensures SoundAdjustment(AdjustBy(errors, Net(daily, rate), current, target, needed).value.change,
                            daily, errors, rate)
  {
  }

  lemma LeastDeduct(errors: seq<Failure>, rate: Rate, daily: nat, current: Cents) returns (needed: Cents)
    ensures needed == NeededDeduct(current, daily, errors, rate)
    ensures MeetsAll(needed, current, daily, errors, rate)
    ensures forall d :: MeetsAll(d, current, daily, errors, rate) ==> needed <= d
  {
    needed := NeededDeduct(current, daily, errors, rate);
    NeededIsLeast(current, daily, errors, rate, needed);
    forall d | MeetsAll(d, current, daily, errors, rate) ensures needed <= d {
      NeededIsLeast(current, daily, errors, rate, d);
    }
  }

  lemma AdjustIsSound(errors: seq<Failure>, rate: Rate, daily: nat, current: Cents, target: Cents)
    requires current >= 0 && Adjust(errors, rate, daily, current, target).Found?
    requires WithinTwo(Adjust(errors, rate, daily, current, target).value.change.final, target)
    ensures SoundAdjustment(Adjust(errors, rate, daily, current, target).value.change, daily, errors, rate)
  {
    var needed := LeastDeduct(errors, rate, daily, current);
    AdjustByIsSound(errors, rate, daily, current, target, needed);
  }

  /** A row as the report parser leaves it: the fields the normalization adds are empty. */
  predicate Raw(e: Failure) {
    && e.kind !in {CustomPriceKind, SignupNotDaily}
    && e.price.custom.None? && e.price.daily.None? && e.price.target.None? && e.price.feasibleFinal.None?
    && e.price.feasibleSignup.None?
  }

  predicate PriceRepair(n: Failure) {
    var r := Classify(n).repair;
    r.Some? && (r.value.OrdinaryDiscount? || r.value.CustomRepair?)
  }

  /** A row whose facts are missing or ambiguous, or that carries no price constraint. */
  predicate Held(n: Failure) {
    n.kind == NoSales || n.kind == Mapping || (n.kind == UnknownKind && (n.parseIssue != Blank || n.price.custom.None?))
  }

  lemma HeldIsNoPriceRepair(n: Failure)
    requires Held(n)
    ensures !PriceRepair(n)
  {
  }

  /** The findings of the one ERP row that the submitted file used for this SKU. */
  ghost predicate HasFinding(pair: Pair, errors: seq<Failure>, ctx: Context)
    requires errors != []
  {
    && pair in ctx.submitted && |MatchesOf(ctx, pair)| == 1
    && var facts, price := MatchesOf(ctx, pair)[0], ctx.submitted[pair].activityPrice;
    && facts.custom.Some? && CheckSubmitted(errors, facts, price).Found?
    && Find(pair, errors, ctx, facts).Found?
    && NormalizeGroup(pair, errors, ctx) ==
       Apply(PricedRow(errors[0], facts, price), Find(pair, errors, ctx, facts).value)
  }

  /** Normalization either holds the row or joins it with exactly one ERP row's findings. */
  lemma HeldOrFound(pair: Pair, errors: seq<Failure>, ctx: Context)
    requires errors != [] && Raw(errors[0])
    ensures Held(NormalizeGroup(pair, errors, ctx)) || HasFinding(pair, errors, ctx)
  {
  }

  lemma PriceRepairHasFinding(pair: Pair, errors: seq<Failure>, ctx: Context)
    requires errors != [] && Raw(errors[0])
    requires PriceRepair(NormalizeGroup(pair, errors, ctx))
    ensures HasFinding(pair, errors, ctx)
  {
    HeldOrFound(pair, errors, ctx);
    if Held(NormalizeGroup(pair, errors, ctx)) {
      HeldIsNoPriceRepair(NormalizeGroup(pair, errors, ctx));
    }
  }

  /** Reading off the repair that the rules take from a finding. */
  lemma RepairOfFinding(priced: Failure, finding: Finding, r: Repair)
    requires Classify(Apply(priced, finding)).repair == Some(r)
    requires IsMoney(priced.price.daily) && IsMoney(priced.price.submitted) && priced.price.custom.Some?
    requires finding.Custom? <==> priced.price.custom.value
    requires finding.CannotFit? ==> finding.final < finding.target - TWO_YUAN
    ensures r.OrdinaryDiscount? ==> finding.Adjusted? && WithinTwo(finding.change.final, finding.change.target)
                                    && r == OrdinaryDiscount(finding.change.final, finding.change.target,
                                                             priced.price.daily.value)
    ensures r.CustomRepair? ==> finding.Custom? && r.customPrice == finding.feasible > 0
                                && 5 * r.customPrice >= finding.original
  {
  }

  lemma FindIsConsistent(pair: Pair, errors: seq<Failure>, ctx: Context, facts: ErpRow)
    requires pair in ctx.submitted && facts.custom.Some?
    requires IsMoney(facts.daily) && IsMoney(ctx.submitted[pair].activityPrice)
    requires Find(pair, errors, ctx, facts).Found?
    ensures var f := Find(pair, errors, ctx, facts).value;
            && (f.Custom? <==> facts.custom.value)
            && (f.CannotFit? ==> f.final < f.target - TWO_YUAN)
            && (f.Adjusted? ==>
                  && OfKind(errors, ApprovedPrice) == []
                  && (WithinTwo(f.change.final, f.change.target) ==>
                        SoundAdjustment(f.change, facts.daily.value, errors, ctx.rate)))
  {
    var f, rows := Find(pair, errors, ctx, facts).value, DiscountsOf(ctx, pair);
    if f.Adjusted? {
      var target := TargetOf(facts, rows[0].target).value;
      assert f == Adjust(errors, ctx.rate, facts.daily.value, rows[0].deduct, target).value;
      if WithinTwo(f.change.final, f.change.target) {
        AdjustIsSound(errors, ctx.rate, facts.daily.value, rows[0].deduct, target);
      }
    }
  }

  /** The adjustment recorded on a normalized row. */
  function ChangeOf(n: Failure): Option<Adjustment> {
    var p := n.price;
    if p.target.Some? && p.feasibleFinal.Some? && p.currentDeduct.Some? && p.proposedDeduct.Some?
    then Some(Adjustment(p.target.value, p.feasibleFinal.value, p.currentDeduct.value, p.proposedDeduct.value,
                         n.price.bounded))
    else None
  }

  /** Such a repair exists: a ten-yuan SKU over a list cap of nine yuan gets a deduction of one yuan. */
  lemma SomeRepairSurvives(pair: Pair, error: Failure) returns (ctx: Context)
    requires pair.item != "" && pair.sku != "" && PairOf(error) == pair && OverListCap(error)
    requires error.proof.failed && error.proof.evidence && error.batch != ""
    ensures Classify(NormalizeGroup(pair, [error], ctx)).repair == Some(OrdinaryDiscount(900, 1000, 1000))
  {
    var row := ErpRow("", Some(false), Some(1000), Some(1000), None);
    var saved := SavedDiscount(pair, true, true, 0, Big);
    ctx := Context(map[pair := Submitted("", Some(1000))], [row], map[], [saved], Fraction(0, 1), None, {});
    OneLookup(ctx, pair, row, saved);
    OneAdjustment(error, ctx, row, saved);
    OneDecision(error, row);
    OneFinding(ctx, pair, row, error);
    OnlyPriced(pair, error, ctx);
  }

  lemma OneFinding(ctx: Context, pair: Pair, row: ErpRow, error: Failure)
    requires OverListCap(error) && row == ErpRow("", Some(false), Some(1000), Some(1000), None)
    requires pair in ctx.submitted && ctx.submitted[pair].activityPrice == Some(1000) && MatchesOf(ctx, pair) == [row]
    requires OfKind([error], ApprovedPrice) == []
    ensures NormalizePriced(error, pair, [error], ctx) ==
            Finish(PricedRow(error, row, Some(1000)), FindOrdinary([error], ctx, row, 1000, DiscountsOf(ctx, pair)))
  {
    assert CheckSubmitted([error], row, Some(1000)).Found?;
  }

  lemma OnlyPriced(pair: Pair, error: Failure, ctx: Context)
    requires pair.sku != "" && error.kind == ListPrice
    ensures NormalizeGroup(pair, [error], ctx) == NormalizePriced(error, pair, [error], ctx)
  {
    assert error in [error] && !NoPriceConstraint([error]);
  }

  lemma OneLookup(ctx: Context, pair: Pair, row: ErpRow, saved: SavedDiscount)
    requires ctx.submitted == map[pair := Submitted(row.code, Some(1000))] && ctx.erp == [row]
    requires ctx.discounts == [saved] && saved.pair == pair
    ensures MatchesOf(ctx, pair) == [row] && DiscountsOf(ctx, pair) == [saved]
  {
    assert ctx.erp[1..] == [] && ctx.discounts[1..] == [];
  }

  lemma OneDecision(error: Failure, row: ErpRow)
    requires error.item != "" && error.sku != "" && OverListCap(error)
    requires error.proof.failed && error.proof.evidence && error.batch != ""
    requires row == ErpRow("", Some(false), Some(1000), Some(1000), None)
    ensures var change := Adjusted(false, Adjustment(1000, 900, 0, 100, None));
            Classify(Apply(PricedRow(error, row, Some(1000)), change)).repair == Some(OrdinaryDiscount(900, 1000, 1000))
  {
  }

  predicate OverListCap(error: Failure) {
    Raw(error) && error.kind == ListPrice && error.proof.cap == Some(900) && error.price.submitted == Some(1000)
  }

  lemma OneAdjustment(error: Failure, ctx: Context, row: ErpRow, saved: SavedDiscount)
    requires OverListCap(error) && row == ErpRow("", Some(false), Some(1000), Some(1000), None)
    requires saved == SavedDiscount(saved.pair, true, true, 0, Big) && ctx.targetMode.None?
             && ctx.rate == Fraction(0, 1)
    ensures FindOrdinary([error], ctx, row, 1000, [saved])
            == Found(Adjusted(false, Adjustment(1000, 900, 0, 100, None)))
    ensures OfKind([error], ApprovedPrice) == []
  {
    OneListCap(error);
    assert ModeOf(ctx, [saved]) == Big;
    hide ModeOf, OfKind, NeededDeduct, Net;
    assert AdjustBy([error], 1000, 0, 1000, 100) == Found(Adjusted(false, Adjustment(1000, 900, 0, 100, None)));
  }

  lemma OneListCap(error: Failure)
    requires error.kind == ListPrice && error.proof.cap == Some(900)
    ensures OfKind([error], ListPrice) == [error] && OfKind([error], CouponPrice) == []
    ensures OfKind([error], ApprovedPrice) == []
    ensures NeededDeduct(0, 1000, [error], Fraction(0, 1)) == 100 && Net(1000, Fraction(0, 1)) == 1000
  {
    assert error in [error];
    OnlyMember(OfKind([error], ListPrice), error);
  }

  lemma OnlyMember<T>(s: seq<T>, x: T)
    requires |s| <= 1 && x in s
    ensures s == [x]
  {
  }

  /**
   * Every ordinary-discount repair that survives normalization and classification uses the
   * least deduction meeting all constraints of the SKU together, and its final price stays
   * positive and within two yuan of the ERP target.
   */
  lemma SurvivingRepairIsLeast(pair: Pair, errors: seq<Failure>, ctx: Context, r: Repair)
    requires errors != [] && Raw(errors[0])
    requires Classify(NormalizeGroup(pair, errors, ctx)).repair == Some(r) && r.OrdinaryDiscount?
    ensures var n := NormalizeGroup(pair, errors, ctx);
            && ChangeOf(n).Some? && IsMoney(n.price.daily)
            && SoundAdjustment(ChangeOf(n).value, n.price.daily.value, errors, ctx.rate)
            && r == OrdinaryDiscount(ChangeOf(n).value.final, ChangeOf(n).value.target, n.price.daily.value)
  {
    PriceRepairHasFinding(pair, errors, ctx);
    var facts := MatchesOf(ctx, pair)[0];
    var priced := PricedRow(errors[0], facts, ctx.submitted[pair].activityPrice);
    var finding := Find(pair, errors, ctx, facts).value;
    FindIsConsistent(pair, errors, ctx, facts);
    RepairOfFinding(priced, finding, r);
    assert ChangeOf(Apply(priced, finding)) == Some(finding.change);
  }

  /**
   * Every custom repair that survives keeps every cap of the SKU after the rounded cut,
   * never raises the submitted price and stays on or above the fixed floor.
   */
  lemma SurvivingCustomKeepsCaps(pair: Pair, errors: seq<Failure>, ctx: Context, r: Repair)
    requires errors != [] && Raw(errors[0])
    requires Classify(NormalizeGroup(pair, errors, ctx)).repair == Some(r) && r.CustomRepair?
    ensures r.customPrice > 0 && pair in ctx.submitted && pair in ctx.bases
    ensures var basis, price := ctx.bases[pair], ctx.submitted[pair].activityPrice;
            && basis.original.Some? && !basis.uncertain && 5 * r.customPrice >= basis.original.value
            && price.Some? && r.customPrice <= price.value
    ensures forall e :: e in errors && e.kind == ListPrice ==> r.customPrice <= CapOf(e)
    ensures forall e :: e in errors && e.kind == ApprovedPrice ==> r.customPrice < CapOf(e)
    ensures forall e :: e in errors && e.kind == CouponPrice ==> Net(r.customPrice, ctx.rate) <= CapOf(e)
  {
    PriceRepairHasFinding(pair, errors, ctx);
    var facts, price := MatchesOf(ctx, pair)[0], ctx.submitted[pair].activityPrice;
    var priced := PricedRow(errors[0], facts, price);
    var finding := Find(pair, errors, ctx, facts).value;
    FindIsConsistent(pair, errors, ctx, facts);
    RepairOfFinding(priced, finding, r);
    FeasibleCustomKeepsCaps(price.value, facts.daily.value, errors, ctx.rate);
  }

  // ---------- what a repair claim re-checks before it edits a discount ----------

  /** The old and new deduction of an ordinary repair; None when nothing would change. */
  function OrdinaryChange(n: Failure): Result<Option<(Cents, Cents)>> {
    if n.price.currentDeduct.None? || n.price.proposedDeduct.None? then Err("missing_deduction")
    else
      var before, after := n.price.currentDeduct.value, n.price.proposedDeduct.value;
      if before < 0 || after < before then Err("ordinary_repair_must_not_reduce_or_invent_deduction")
      else if before == after then Ok(None)
      else Ok(Some((before, after)))
  }

  /** The amount checks on a claimed row, made again when the claim is dispatched. */
  predicate AmountGuards(n: Failure, change: (Cents, Cents)) {
    && n.price.currentDeduct == Some(change.0) && n.price.proposedDeduct == Some(change.1)
    && n.price.target.Some? && n.price.feasibleFinal.Some?
    && var target := n.price.target.value;
    && Abs(n.price.feasibleFinal.value - target) <= TWO_YUAN
    && (n.price.bounded.Some? ==>
          var seen := n.price.bounded.value;
          && seen.finals != []
          && WithinTwo(seen.calculatedBefore, target) && WithinTwo(n.price.feasibleFinal.value, target)
          && forall v :: v in seen.finals ==> WithinTwo(v, target) && WithinTwo(v - (change.1 - change.0), target))
  }

  lemma SoundChangePasses(n: Failure, errors: seq<Failure>, rate: Rate)
    requires ChangeOf(n).Some? && IsMoney(n.price.daily)
    requires SoundAdjustment(ChangeOf(n).value, n.price.daily.value, errors, rate)
    ensures OrdinaryChange(n).Ok?
    ensures OrdinaryChange(n).value.Some? ==>
              OrdinaryChange(n).value.value.0 < OrdinaryChange(n).value.value.1
              && AmountGuards(n, OrdinaryChange(n).value.value)
    ensures OrdinaryChange(n).value.None? <==>
            MeetsAll(ChangeOf(n).value.current, ChangeOf(n).value.current, n.price.daily.value, errors, rate)
  {
    if ChangeOf(n).value.observation.Some? {
      var coupons := OfKind(errors, CouponPrice);
      assert forall i :: 0 <= i < |coupons| ==> coupons[i] in coupons;
    }
  }

  /**
   * On a decided ordinary repair no amount guard can fire, and the change is empty exactly
   * when the current deduction already meets every constraint.
   */
  lemma RepairGuardsCannotFire(pair: Pair, errors: seq<Failure>, ctx: Context, r: Repair)
    requires errors != [] && Raw(errors[0])
    requires Classify(NormalizeGroup(pair, errors, ctx)).repair == Some(r) && r.OrdinaryDiscount?
    ensures var n := NormalizeGroup(pair, errors, ctx);
            && OrdinaryChange(n).Ok?
            && (OrdinaryChange(n).value.Some? ==>
                  var change := OrdinaryChange(n).value.value;
                  change.0 < change.1 && AmountGuards(n, change))
            && (OrdinaryChange(n).value.None? <==>
                  MeetsAll(ChangeOf(n).value.current, ChangeOf(n).value.current, n.price.daily.value, errors, ctx.rate))
  {
    SurvivingRepairIsLeast(pair, errors, ctx, r);
    hide NormalizeGroup, Classify, OrdinaryChange, AmountGuards, SoundAdjustment, MeetsAll;
    SoundChangePasses(NormalizeGroup(pair, errors, ctx), errors, ctx.rate);
  }

  // ---------- the whole report ----------

  function PairOf(e: Failure): Pair { Pair(e.item, e.sku) }

  /** An older, unexplained form of the product-wide free-shipping requirement. */
  predicate ProductLevelShipping(e: Failure) {
    && e.kind == UnknownKind && e.sku == "" && e.proof.shippingMessage
    && (e.parseIssue == FreeShippingRequired || e.parseIssue == UnparsedFailure)
  }

  function Carried(e: Failure, pair: Pair, ctx: Context): Failure {
    e.(sku := pair.sku, parseIssue := FreeShippingRequired,
       proof := e.proof.(shippingApproved := (pair, e.batch) in ctx.shipping))
  }

  function CarriedTo(e: Failure, pairs: seq<Pair>, ctx: Context): (r: seq<Failure>)
    ensures |r| == |pairs|
    ensures forall i :: 0 <= i < |r| ==> r[i] == Carried(e, pairs[i], ctx)
  {
    seq(|pairs|, i requires 0 <= i < |pairs| => Carried(e, pairs[i], ctx))
  }

  /** The submitted SKUs of a product, in file order. */
  function SkusOf(order: seq<Pair>, item: Item): (r: seq<Pair>)
    ensures forall p :: p in r <==> p in order && p.item == item
  {
    FilterMembers(order, (p: Pair) => p.item == item);
    Filter(order, (p: Pair) => p.item == item)
  }

  /** A product-level requirement is carried to every submitted SKU; anything else stays. */
  function Expand(e: Failure, order: seq<Pair>, ctx: Context): (r: seq<Failure>)
    ensures r != [] && forall x :: x in r ==> x.item == e.item
    ensures !ProductLevelShipping(e) ==> r == [e]
  {
    var pairs := SkusOf(order, e.item);
    if ProductLevelShipping(e) && pairs != [] then CarriedTo(e, pairs, ctx) else [e]
  }

  function ExpandAll(errors: seq<Failure>, order: seq<Pair>, ctx: Context): seq<Failure> {
    if errors == [] then []
    else ExpandAll(errors[..|errors| - 1], order, ctx) + Expand(errors[|errors| - 1], order, ctx)
  }

  lemma ItemsAppend(a: seq<Failure>, b: seq<Failure>)
    ensures ItemsOf(a + b) == ItemsOf(a) + ItemsOf(b)
  {
  }

  lemma ExpandKeepsItem(e: Failure, order: seq<Pair>, ctx: Context)
    ensures ItemsOf(Expand(e, order, ctx)) == {e.item}
  {
    var r := Expand(e, order, ctx);
    assert r[0] in r;
  }

  lemma {:induction false} ExpansionKeepsItems(errors: seq<Failure>, order: seq<Pair>, ctx: Context)
    ensures ItemsOf(ExpandAll(errors, order, ctx)) == ItemsOf(errors)
  {
    if errors != [] {
      var n := |errors| - 1;
      ExpansionKeepsItems(errors[..n], order, ctx);
      ExpandKeepsItem(errors[n], order, ctx);
      ItemsAppend(ExpandAll(errors[..n], order, ctx), Expand(errors[n], order, ctx));
      LastItem(errors);
    }
  }

  lemma LastItem(errors: seq<Failure>)
    requires errors != []
    ensures ItemsOf(errors) == ItemsOf(errors[..|errors| - 1]) + {errors[|errors| - 1].item}
  {
  }

  /** All constraints on one SKU, in report order. */
  function GroupOf(errors: seq<Failure>, pair: Pair): seq<Failure> {
    if errors == [] then []
    else GroupOf(errors[..|errors| - 1], pair)
         + if PairOf(errors[|errors| - 1]) == pair then [errors[|errors| - 1]] else []
  }

  lemma {:induction false} GroupMembers(errors: seq<Failure>, pair: Pair)
    ensures forall e :: e in GroupOf(errors, pair) <==> e in errors && PairOf(e) == pair
  {
    if errors != [] {
      var n := |errors| - 1;
      assert errors == errors[..n] + [errors[n]];
      GroupMembers(errors[..n], pair);
    }
  }

  lemma GroupAppend(a: seq<Failure>, e: Failure, pair: Pair)
    ensures GroupOf(a + [e], pair) == GroupOf(a, pair) + if PairOf(e) == pair then [e] else []
  {
  }

  /** groups and its insertion order hold exactly the groups of the errors read so far. */
  ghost predicate GroupsOf(groups: map<Pair, seq<Failure>>, order: seq<Pair>, errors: seq<Failure>) {
    && NoDuplicates(order) && SetOf(order) == groups.Keys
    && (forall p {:trigger groups[p]} :: p in groups ==> groups[p] != [] && groups[p] == GroupOf(errors, p))
    && (forall p {:trigger GroupOf(errors, p)} :: p !in groups ==> GroupOf(errors, p) == [])
  }

  method AddToGroup(groups: map<Pair, seq<Failure>>, order: seq<Pair>, e: Failure, ghost seen: seq<Failure>)
    returns (groups': map<Pair, seq<Failure>>, order': seq<Pair>)
    requires GroupsOf(groups, order, seen)
    ensures GroupsOf(groups', order', seen + [e])
  {
    var pair := PairOf(e);
    forall p { GroupAppend(seen, e, p); }
    if pair in groups {
      groups', order' := groups[pair := groups[pair] + [e]], order;
    } else {
      groups', order' := groups[pair := [e]], order + [pair];
    }
  }

  method AddCarried(groups: map<Pair, seq<Failure>>, order: seq<Pair>, carried: seq<Failure>,
                    ghost seen: seq<Failure>)
    returns (groups': map<Pair, seq<Failure>>, order': seq<Pair>)
    requires GroupsOf(groups, order, seen)
    ensures GroupsOf(groups', order', seen + carried)
  {
    groups', order' := groups, order;
    assert seen + carried[..0] == seen;
    for j := 0 to |carried|
      invariant GroupsOf(groups', order', seen + carried[..j])
    {
      groups', order' := AddToGroup(groups', order', carried[j], seen + carried[..j]);
      assert seen + carried[..j] + [carried[j]] == seen + carried[..j + 1];
    }
    assert carried[..|carried|] == carried;
  }

  method GroupErrors(errors: seq<Failure>, fileOrder: seq<Pair>, ctx: Context)
    returns (groups: map<Pair, seq<Failure>>, order: seq<Pair>)
    ensures GroupsOf(groups, order, ExpandAll(errors, fileOrder, ctx))
  {
    groups, order := map[], [];
    for i := 0 to |errors|
      invariant GroupsOf(groups, order, ExpandAll(errors[..i], fileOrder, ctx))
    {
      groups, order := AddCarried(groups, order, Expand(errors[i], fileOrder, ctx),
                                  ExpandAll(errors[..i], fileOrder, ctx));
      assert errors[..i + 1][..i] == errors[..i];
    }
    assert errors[..|errors|] == errors;
  }

  lemma NormalizedIdentity(pair: Pair, errors: seq<Failure>, ctx: Context)
    requires errors != [] && PairOf(errors[0]) == pair
    ensures PairOf(NormalizeGroup(pair, errors, ctx)) == pair
  {
  }

  /** The normalized report: one combined row per reported SKU, none lost, none invented. */
  ghost predicate Normalizes(rows: seq<Failure>, order: seq<Pair>, expanded: seq<Failure>, ctx: Context) {
    && |rows| == |order| && NoDuplicates(order)
    && (forall p :: p in order <==> GroupOf(expanded, p) != [])
    && (forall i :: 0 <= i < |rows| ==> GroupOf(expanded, order[i]) != []
                                        && rows[i] == NormalizeGroup(order[i], GroupOf(expanded, order[i]), ctx))
  }

  method NormalizeErrors(errors: seq<Failure>, fileOrder: seq<Pair>, ctx: Context)
    returns (rows: seq<Failure>, order: seq<Pair>)
    ensures Normalizes(rows, order, ExpandAll(errors, fileOrder, ctx), ctx)
  {
    var groups, pairs := GroupErrors(errors, fileOrder, ctx);
    rows, order := [], pairs;
    for i := 0 to |pairs|
      invariant |rows| == i
      invariant forall k :: 0 <= k < i ==> pairs[k] in groups && groups[pairs[k]] != []
                                           && rows[k] == NormalizeGroup(pairs[k], groups[pairs[k]], ctx)
    {
      assert pairs[i] in SetOf(pairs);
      rows := rows + [NormalizeGroup(pairs[i], groups[pairs[i]], ctx)];
    }
    forall p ensures p in pairs <==> GroupOf(ExpandAll(errors, fileOrder, ctx), p) != [] {
      assert p in pairs <==> p in SetOf(pairs);
    }
  }

  lemma RowIdentity(rows: seq<Failure>, order: seq<Pair>, expanded: seq<Failure>, ctx: Context, i: nat)
    requires Normalizes(rows, order, expanded, ctx) && i < |rows|
    ensures PairOf(rows[i]) == order[i] && exists e :: e in expanded && PairOf(e) == order[i]
  {
    var group := GroupOf(expanded, order[i]);
    GroupMembers(expanded, order[i]);
    assert group[0] in group;
    NormalizedIdentity(order[i], group, ctx);
  }

  lemma RowsKeepItems(rows: seq<Failure>, order: seq<Pair>, expanded: seq<Failure>, ctx: Context)
    requires Normalizes(rows, order, expanded, ctx)
    ensures ItemsOf(rows) == ItemsOf(expanded)
  {
    forall e | e in expanded ensures e.item in ItemsOf(rows) {
      GroupMembers(expanded, PairOf(e));
      assert e in GroupOf(expanded, PairOf(e));
      var i :| 0 <= i < |order| && order[i] == PairOf(e);
      RowIdentity(rows, order, expanded, ctx, i);
      assert rows[i] in rows;
    }
    forall r | r in rows ensures r.item in ItemsOf(expanded) {
      var i :| 0 <= i < |rows| && rows[i] == r;
      RowIdentity(rows, order, expanded, ctx, i);
    }
  }

  /** The rows keep their SKU, so no SKU is decided twice and no product is lost. */
  lemma NormalizationKeepsScope(rows: seq<Failure>, order: seq<Pair>, errors: seq<Failure>, fileOrder: seq<Pair>,
                                ctx: Context)
    requires Normalizes(rows, order, ExpandAll(errors, fileOrder, ctx), ctx)
    ensures forall i, j :: 0 <= i < j < |rows| ==> PairOf(rows[i]) != PairOf(rows[j])
    ensures ItemsOf(rows) == ItemsOf(errors)
  {
    var expanded := ExpandAll(errors, fileOrder, ctx);
    forall i | 0 <= i < |rows| ensures PairOf(rows[i]) == order[i] {
      RowIdentity(rows, order, expanded, ctx, i);
    }
    RowsKeepItems(rows, order, expanded, ctx);
    ExpansionKeepsItems(errors, fileOrder, ctx);
  }

  /**
   * From parsed report to decisions: every failed product is in exactly one of repairs and
   * exceptions, and nothing else is.
   */
  lemma FailureFateTotal(rows: seq<Failure>, order: seq<Pair>, errors: seq<Failure>, fileOrder: seq<Pair>,
                         ctx: Context, repairs: map<Item, seq<Decision>>, exceptions: map<Item, seq<Decision>>)
    requires Normalizes(rows, order, ExpandAll(errors, fileOrder, ctx), ctx)
    requires SplitsFates(rows, repairs, exceptions)
    ensures repairs.Keys !! exceptions.Keys && repairs.Keys + exceptions.Keys == ItemsOf(errors)
  {
    NormalizationKeepsScope(rows, order, errors, fileOrder, ctx);
  }

  /**
   * From the official file to the decisions: of the expected products, exactly those whose own
   * report rows all say failed are repaired or held, and each is only one of the two.
   */
  lemma ReportFatesAreTotal(p: Feedback.Parsed, table: seq<Feedback.Row>, expected: seq<Item>,
                            counts: Option<Feedback.Counts>, batch: string, reader: Feedback.Reader,
                            rows: seq<Failure>, order: seq<Pair>, fileOrder: seq<Pair>, ctx: Context,
                            repairs: map<Item, seq<Decision>>, exceptions: map<Item, seq<Decision>>, item: Item)
    requires Feedback.Complete(p, table, expected, counts, batch, reader)
    requires Normalizes(rows, order, ExpandAll(p.errors, fileOrder, ctx), ctx)
    requires SplitsFates(rows, repairs, exceptions) && item in SetOf(expected)
    ensures !(item in repairs && item in exceptions)
    ensures item in repairs || item in exceptions <==>
            Feedback.GroupAt(table, |table|, item).marks == {Feedback.Mark.FailureMark}
  {
    FailureFateTotal(rows, order, p.errors, fileOrder, ctx, repairs, exceptions);
    var i :| 0 <= i < |p.outcomes| && Feedback.OutcomeItems(p.outcomes)[i] == item;
    Feedback.ReportedFailuresHaveErrors(p, table, expected, counts, batch, reader, p.outcomes[i]);
    assert item in repairs.Keys + exceptions.Keys <==> item in repairs || item in exceptions;
  }
}
