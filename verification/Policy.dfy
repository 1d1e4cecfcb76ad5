/**
 * The frozen decision rules: what one officially failed SKU may be given, and the
 * whole-product rule that one manual SKU holds its product.
 */
module Policy {
  import opened CampaignTypes
  import opened Prices

  datatype Kind =
    | NoSales | Mapping | CouponPrice | ListPrice | ApprovedPrice
    | CustomPriceKind | SignupNotDaily | UnknownKind

  /** Reasons and parse issues that the engine branches on; Blank is an empty text. */
  datatype Code =
    | Blank | Message(text: string)
    // parse issues
    | FreeShippingRequired | UnparsedFailure | SkuNameAmbiguous | SkuIdNotInFile | ApprovedReadbackRequired
    | ErpMappingAmbiguous | MoneyInvalid | SubmittedPriceMismatch | FixedOriginalMissing
    | TargetModeUnknown | ReadbackMissing | InvalidDiscount | UnexplainedStacking
    // decision reasons
    | ScopeNotProven | SkuNotProven | MappingAmbiguous | ClassificationUnknown | PriceIncomplete
    | NonDailySignupPrice | FixedBasisUnknown | CustomPriceInvalid | BelowTwentyPercent | DeltaOverTwoYuan
    // controller holds
    | PreviousUnknown | LegacyImportNeeded | PartialImport | SameCorrection | RepairUnverified
    | ErpMappingNotUnique | DiscountSkuMissing | InputIssue(issue: string)

  /** The observed finals and the calculated final of a bounded observation. */
  datatype Observation = Observation(finals: seq<Cents>, calculatedBefore: Cents)

  /** What the exact official failure proves; None stands for a missing field. */
  datatype Proof = Proof(
    failed: bool, evidence: bool, message: string,
    // the message is exactly the free-shipping requirement; one receipt covers this SKU and batch
    shippingMessage: bool, shippingApproved: bool,
    exportVerified: bool, officiallyInvalid: bool, removeFromSignup: bool, scopeEvidence: string,
    candidates: seq<(Item, Sku, string)>,
    cap: Option<Cents>, observed: Option<Cents>)

  /** Price facts; the normalization fills all but the submitted price. */
  datatype Facts = Facts(
    submitted: Option<Cents>, custom: Option<bool>, daily: Option<Cents>,
    fixedEvidence: bool, fixedOriginal: Option<Cents>, feasibleSignup: Option<Cents>,
    target: Option<Cents>, feasibleFinal: Option<Cents>,
    currentDeduct: Option<Cents>, proposedDeduct: Option<Cents>, bounded: Option<Observation>)

  /** One official failure, raw or normalized. */
  datatype Failure = Failure(item: Item, sku: Sku, kind: Kind, parseIssue: Code, batch: string,
                             proof: Proof, price: Facts)

  datatype Repair =
    | FilePrice(price: Cents)
    | CustomRepair(customPrice: Cents, exactFloor: real)
    | OrdinaryDiscount(final: Cents, target: Cents, signupPrice: Cents)
    | ExcludeSku(scopeEvidence: string)
    | MapSku(mapped: (Item, Sku, string))
    | FileShipping(failedBatch: string)

  datatype Action = Manual | DoRepair | NotEligible | RotationApproval

  datatype Decision = Decision(item: Item, sku: Sku, reason: Code, action: Action, repair: Option<Repair>)

  /** money() of the policy: a missing or nonpositive amount is refused. */
  predicate IsMoney(x: Option<Cents>) { x.Some? && x.value > 0 }

  /** The least cent amount not below a fifth of the fixed original price. */
  function MinimumCustom(original: Cents): Cents { (original + 4) / 5 }

  function Classify(e: Failure): Decision {
    var base := Decision(e.item, e.sku, Message(e.proof.message), Manual, None);
    if e.item == "" || !e.proof.failed || e.batch == "" || !e.proof.evidence then
      base.(reason := ScopeNotProven)
    else if e.kind == UnknownKind && e.parseIssue == FreeShippingRequired && e.proof.shippingApproved then
      base.(action := DoRepair, repair := Some(FileShipping(e.batch)))
    else if e.kind == UnknownKind && e.parseIssue != Blank then base.(reason := e.parseIssue)
    else if e.kind == NoSales then base.(action := NotEligible)
    else if e.sku == "" then base.(reason := SkuNotProven)
    else if e.kind == Mapping then ClassifyMapping(e, base)
    else if e.price.custom.None? then base.(reason := ClassificationUnknown)
    else ClassifyPrice(e, base)
  }

  function ClassifyMapping(e: Failure, base: Decision): Decision {
    if e.proof.exportVerified && e.proof.officiallyInvalid && e.proof.removeFromSignup
       && e.proof.scopeEvidence != "" then
      base.(action := DoRepair, repair := Some(ExcludeSku(e.proof.scopeEvidence)))
    else if e.proof.exportVerified && |e.proof.candidates| == 1 && e.proof.candidates[0].0 == e.item
            && e.proof.candidates[0].1 != "" && e.proof.candidates[0].2 != "" then
      base.(action := DoRepair, repair := Some(MapSku(e.proof.candidates[0])))
    else base.(reason := MappingAmbiguous)
  }

  function ClassifyPrice(e: Failure, base: Decision): Decision
    requires e.price.custom.Some?
  {
    var incomplete := base.(reason := PriceIncomplete);
    if !IsMoney(e.price.daily) || !IsMoney(e.price.submitted) then incomplete
    else if !e.price.custom.value && e.price.submitted != e.price.daily then
      base.(action := DoRepair, repair := Some(FilePrice(e.price.daily.value)))
    else if e.kind == SignupNotDaily then base.(reason := NonDailySignupPrice)
    else if e.price.custom.value then
      if e.kind !in {CustomPriceKind, CouponPrice, ListPrice, ApprovedPrice} then base
      else if !e.price.fixedEvidence then base.(reason := FixedBasisUnknown)
      else if !IsMoney(e.price.fixedOriginal) || !IsMoney(e.price.feasibleSignup) then incomplete
      else if e.price.feasibleSignup.value > e.price.daily.value then base.(reason := CustomPriceInvalid)
      else if e.price.feasibleSignup.value < MinimumCustom(e.price.fixedOriginal.value) then
        base.(action := RotationApproval, reason := BelowTwentyPercent)
      else base.(action := DoRepair, repair := Some(CustomRepair(e.price.feasibleSignup.value,
                                                                 e.price.fixedOriginal.value as real * 0.2)))
    else if e.kind in {CouponPrice, ListPrice} then
      if !IsMoney(e.price.target) || !IsMoney(e.price.feasibleFinal) then incomplete
      else if Abs(e.price.feasibleFinal.value - e.price.target.value) > TWO_YUAN then
        base.(action := RotationApproval, reason := DeltaOverTwoYuan)
      else base.(action := DoRepair, repair := Some(OrdinaryDiscount(e.price.feasibleFinal.value,
                                                                     e.price.target.value, e.price.daily.value)))
    else base
  }

  /**
   * A repair is only ever decided on a proven official failure, and each kind keeps its
   * price rule: a file price restores the ERP daily price, a custom price never rises and
   * never falls below a fifth of the fixed original, and an ordinary final stays within
   * two yuan of the ERP target while the signup price stays the daily price.
   */
  lemma RepairKeepsRules(e: Failure)
    requires Classify(e).action == DoRepair
    ensures e.proof.failed && e.proof.evidence && e.batch != "" && e.item != "" && Classify(e).repair.Some?
    ensures match Classify(e).repair.value
            case FilePrice(p) =>
              e.price.custom == Some(false) && e.price.daily == Some(p) && e.price.submitted != Some(p) && p > 0
            case CustomRepair(p, floor) =>
              && e.price.custom == Some(true) && e.price.feasibleSignup == Some(p) && e.price.daily.Some?
              && 0 < p <= e.price.daily.value && e.price.fixedOriginal.Some? && 5 * p >= e.price.fixedOriginal.value
              && floor == e.price.fixedOriginal.value as real * 0.2 && p as real >= floor
            case OrdinaryDiscount(final, target, signup) =>
              && e.price.custom == Some(false) && Abs(final - target) <= TWO_YUAN && final > 0
              && e.price.daily == e.price.submitted == Some(signup)
              && e.price.target == Some(target) && e.price.feasibleFinal == Some(final)
            case ExcludeSku(_) => e.kind == Mapping && e.proof.officiallyInvalid
            case MapSku(m) => e.kind == Mapping && m.0 == e.item
            case FileShipping(_) => e.kind == UnknownKind && e.proof.shippingApproved
  {
  }

  /** A decision carries a repair exactly when it is one. */
  lemma RepairPresence(e: Failure)
    ensures Classify(e).repair.Some? <==> Classify(e).action == DoRepair
    ensures Classify(e).item == e.item && Classify(e).sku == e.sku
  {
  }

  // ---------- when exactly each decision is taken ----------

  /** The failure is official: of a product, in a batch, with evidence. */
  predicate Official(e: Failure) {
    e.item != "" && e.proof.failed && e.batch != "" && e.proof.evidence
  }

  /** A proven SKU whose failure is about its price; an unexplained issue is not. */
  predicate PriceFailure(e: Failure) {
    && Official(e) && e.sku != "" && e.kind != NoSales && e.kind != Mapping
    && (e.kind == UnknownKind ==> e.parseIssue == Blank)
    && IsMoney(e.price.daily) && IsMoney(e.price.submitted)
  }

  /** The repair of a custom SKU's own price; None when it lies below a fifth of its fixed original. */
  predicate CustomCase(e: Failure, price: Cents, original: Cents) {
    && PriceFailure(e) && e.price.custom == Some(true)
    && (e.kind == CustomPriceKind || e.kind == CouponPrice || e.kind == ListPrice || e.kind == ApprovedPrice)
    && e.price.fixedEvidence && e.price.fixedOriginal == Some(original) && original > 0
    && e.price.feasibleSignup == Some(price) && 0 < price <= e.price.daily.value
  }

  /** An ordinary SKU, signed up at its daily price, over a coupon or list cap. */
  predicate OrdinaryCase(e: Failure, final: Cents, target: Cents) {
    && PriceFailure(e) && e.price.custom == Some(false) && e.price.submitted == e.price.daily
    && (e.kind == CouponPrice || e.kind == ListPrice)
    && e.price.target == Some(target) && target > 0 && e.price.feasibleFinal == Some(final) && final > 0
  }

  /** The full official export proves the SKU invalid, with the evidence for leaving it out. */
  predicate Excludable(e: Failure) {
    && Official(e) && e.sku != "" && e.kind == Mapping
    && e.proof.exportVerified && e.proof.officiallyInvalid && e.proof.removeFromSignup && e.proof.scopeEvidence != ""
  }

  predicate ShippingCovered(e: Failure) {
    Official(e) && e.kind == UnknownKind && e.parseIssue == FreeShippingRequired && e.proof.shippingApproved
  }

  /** Each repair is decided exactly in its own case. */
  lemma RepairsExactly(e: Failure, r: Repair)
    ensures Classify(e).repair == Some(r) <==>
            match r
            case FilePrice(price) =>
              PriceFailure(e) && e.price.custom == Some(false) && e.price.daily == Some(price)
              && e.price.submitted != Some(price)
            case CustomRepair(price, floor) => CustomDue(e, price, floor)
            case OrdinaryDiscount(final, target, signup) =>
              OrdinaryCase(e, final, target) && -TWO_YUAN <= final - target <= TWO_YUAN && e.price.daily == Some(signup)
            case ExcludeSku(evidence) => Excludable(e) && evidence == e.proof.scopeEvidence
            case MapSku(m) =>
              && Official(e) && e.sku != "" && e.kind == Mapping && !Excludable(e) && e.proof.exportVerified
              && e.proof.candidates == [m] && m.0 == e.item && m.1 != "" && m.2 != ""
            case FileShipping(batch) => ShippingCovered(e) && batch == e.batch
  {
    match r
    case CustomRepair(price, floor) => CustomExactly(e, price, floor);
    case MapSku(m) =>
      assert |e.proof.candidates| == 1 ==> e.proof.candidates == [e.proof.candidates[0]];
    case _ =>
  }

  ghost predicate CustomDue(e: Failure, price: Cents, floor: real) {
    exists original :: CustomCase(e, price, original) && 5 * price >= original && floor == original as real * 0.2
  }

  lemma CustomExactly(e: Failure, price: Cents, floor: real)
    ensures Classify(e).repair == Some(CustomRepair(price, floor)) <==> CustomDue(e, price, floor)
  {
    if Classify(e).repair == Some(CustomRepair(price, floor)) {
      assert CustomCase(e, price, e.price.fixedOriginal.value);
    }
    if original :| CustomCase(e, price, original) && 5 * price >= original && floor == original as real * 0.2 {
      assert price >= MinimumCustom(original);
    }
  }

  /** Without a repair it is held, except for two cases. */
  lemma ActionsExactly(e: Failure)
    ensures Classify(e).action == DoRepair <==> exists r :: Classify(e).repair == Some(r)
    ensures Classify(e).action == NotEligible <==> Official(e) && e.kind == NoSales
    ensures Classify(e).action == RotationApproval <==>
            || (exists price, original :: CustomCase(e, price, original) && 5 * price < original)
            || (exists final, target :: OrdinaryCase(e, final, target) && !(-TWO_YUAN <= final - target <= TWO_YUAN))
    ensures Official(e) && e.kind == UnknownKind && e.parseIssue != Blank && !ShippingCovered(e) ==>
              Classify(e) == Decision(e.item, e.sku, e.parseIssue, Manual, None)
  {
    var r := Classify(e).repair;
    if e.price.fixedOriginal.Some? && e.price.feasibleSignup.Some? {
      var price, original := e.price.feasibleSignup.value, e.price.fixedOriginal.value;
      assert CustomCase(e, price, original) && 5 * price < original ==> price < MinimumCustom(original);
    }
    if e.price.feasibleFinal.Some? && e.price.target.Some? {
      var final, target := e.price.feasibleFinal.value, e.price.target.value;
      assert OrdinaryCase(e, final, target) ==> !Classify(e).action.NotEligible?;
    }
  }

  // ---------- whole products ----------

  function ItemsOf(errors: seq<Failure>): set<Item> {
    set e | e in errors :: e.item
  }

  /** The decisions about one product, in report order. */
  function DecisionsOf(errors: seq<Failure>, item: Item): seq<Decision> {
    if errors == [] then []
    else DecisionsOf(errors[..|errors| - 1], item)
         + if errors[|errors| - 1].item == item then [Classify(errors[|errors| - 1])] else []
  }

  predicate Repairable(decisions: seq<Decision>) {
    forall d :: d in decisions ==> d.action == DoRepair
  }

  /** Every reported product has exactly one fate, decided by its whole set of SKUs. */
  ghost predicate SplitsFates(errors: seq<Failure>, repairs: map<Item, seq<Decision>>,
                              exceptions: map<Item, seq<Decision>>)
  {
    && repairs.Keys !! exceptions.Keys
    && repairs.Keys + exceptions.Keys == ItemsOf(errors)
    && (forall i :: i in repairs ==> repairs[i] == DecisionsOf(errors, i) && Repairable(repairs[i]))
    && (forall i :: i in exceptions ==> exceptions[i] == DecisionsOf(errors, i) && !Repairable(exceptions[i]))
  }

  lemma {:induction false} DecisionsCoverErrors(errors: seq<Failure>, e: Failure)
    requires e in errors
    ensures Classify(e) in DecisionsOf(errors, e.item)
  {
    var n := |errors| - 1;
    if e != errors[n] {
      assert e in errors[..n];
      DecisionsCoverErrors(errors[..n], e);
    }
  }

  lemma {:induction false} DecisionsComeFromErrors(errors: seq<Failure>, item: Item, d: Decision)
    requires d in DecisionsOf(errors, item)
    ensures d.item == item && exists e :: e in errors && e.item == item && d == Classify(e)
  {
    var n := |errors| - 1;
    if d in DecisionsOf(errors[..n], item) {
      DecisionsComeFromErrors(errors[..n], item, d);
    } else {
      RepairPresence(errors[n]);
    }
  }

  /** A product is repaired only if every failure reported for it is repairable. */
  lemma RepairsWholeProducts(errors: seq<Failure>, repairs: map<Item, seq<Decision>>,
                             exceptions: map<Item, seq<Decision>>, e: Failure)
    requires SplitsFates(errors, repairs, exceptions) && e in errors
    ensures e.item in repairs ==> Classify(e).action == DoRepair && Classify(e) in repairs[e.item]
    ensures e.item in exceptions ==>
              exists bad :: bad in errors && bad.item == e.item && Classify(bad).action != DoRepair
  {
    DecisionsCoverErrors(errors, e);
    if e.item in exceptions {
      var d :| d in exceptions[e.item] && d.action != DoRepair;
      DecisionsComeFromErrors(errors, e.item, d);
    }
  }

  /** Reading one more failure extends one product's decisions and no other's. */
  lemma ExtendPrefix(errors: seq<Failure>, i: nat)
    requires i < |errors|
    ensures ItemsOf(errors[..i + 1]) == ItemsOf(errors[..i]) + {errors[i].item}
    ensures forall item {:trigger DecisionsOf(errors[..i + 1], item)} ::
              DecisionsOf(errors[..i + 1], item) ==
              DecisionsOf(errors[..i], item) + if item == errors[i].item then [Classify(errors[i])] else []
  {
    assert errors[..i + 1] == errors[..i] + [errors[i]];
    assert errors[..i + 1][..i] == errors[..i];
    assert forall e :: e in errors[..i + 1] <==> e in errors[..i] || e == errors[i];
  }

  /** The groups hold exactly the decisions about the failures read so far. */
  ghost predicate Grouped(groups: map<Item, seq<Decision>>, errors: seq<Failure>) {
    && groups.Keys == ItemsOf(errors)
    && (forall item {:trigger DecisionsOf(errors, item)} :: item !in groups ==> DecisionsOf(errors, item) == [])
    && (forall item {:trigger groups[item]} :: item in groups ==> groups[item] == DecisionsOf(errors, item))
  }

  /** groups.setdefault(item, []).append(decision), over the whole report. */
  method GroupDecisions(errors: seq<Failure>) returns (groups: map<Item, seq<Decision>>)
    ensures Grouped(groups, errors)
  {
    groups := map[];
    for i := 0 to |errors|
      invariant Grouped(groups, errors[..i])
    {
      groups := AddDecision(groups, errors, i);
    }
    assert errors[..|errors|] == errors;
  }

  method AddDecision(groups: map<Item, seq<Decision>>, errors: seq<Failure>, i: nat)
    returns (groups': map<Item, seq<Decision>>)
    requires i < |errors| && Grouped(groups, errors[..i])
    ensures Grouped(groups', errors[..i + 1])
  {
    ExtendPrefix(errors, i);
    RepairPresence(errors[i]);
    var decision := Classify(errors[i]);
    var earlier := if decision.item in groups then groups[decision.item] else [];
    groups' := groups[decision.item := earlier + [decision]];
  }

  method ClassifyItems(errors: seq<Failure>)
    returns (repairs: map<Item, seq<Decision>>, exceptions: map<Item, seq<Decision>>)
    ensures SplitsFates(errors, repairs, exceptions)
  {
    var groups := GroupDecisions(errors);
    repairs, exceptions := map[], map[];
    var rest := groups.Keys;
    while rest != {}
      invariant rest <= groups.Keys
      invariant repairs.Keys !! exceptions.Keys && repairs.Keys + exceptions.Keys == groups.Keys - rest
      invariant forall i :: i in repairs ==> repairs[i] == groups[i] && Repairable(repairs[i])
      invariant forall i :: i in exceptions ==> exceptions[i] == groups[i] && !Repairable(exceptions[i])
    {
      var item :| item in rest;
      if Repairable(groups[item]) {
        repairs := repairs[item := groups[item]];
      } else {
        exceptions := exceptions[item := groups[item]];
      }
      rest := rest - {item};
    }
  }
}
