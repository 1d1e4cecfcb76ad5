/**
 * Reconciling planned deductions with the discounts already saved: a planned row is either
 * new or reuses the one saved amount that still meets the current target, and everything
 * uncertain is an issue.
 */
module Reuse {
  import opened CampaignTypes
  import opened Prices
  import opened Planning
  import Authority
  import Overlays
  import PartialImport

  type Offer = Overlays.Offer

  /** A SKU of the selected scope, with the facts its saved discount is checked against. */
  datatype Check =
    | CustomCheck(pair: Pair)
    | OrdinaryCheck(pair: Pair, price: nat, goal: Cents, big: Cents, cap: Option<real>)

  /** released are the offers proven absent for this exact window; scoped grants the two-yuan tolerance. */
  datatype Request = Request(window: Window, rate: Rate, released: set<string>, excluding: Option<string>, scoped: bool)

  datatype Code =
    | RequiredDiscountMissing | MultipleOverlapping | OutcomeUnknown | WindowNotExact | CustomHasDiscount
    | SkuMissingOrDuplicate | AmountInvalid | PriceInputInvalid | CapUnreachable | CapExceeded | OutsideCapTolerance
    | FinalNonpositive | OutsideScopedTolerance | BelowBigFloor | NotFrozenTarget

  datatype Verdict = Fine | Reused(offer: string, deduct: Cents, final: Cents)
    | Problem(code: Code) | Fatal(error: string)

  // ---------- candidates ----------

  predicate Counts(o: Offer, q: Request) {
    o.id !in q.released && o.window.Overlaps(q.window) && Some(o.id) != q.excluding
  }

  predicate Lists(o: Offer, item: Item) {
    item in o.items && Authority.Active(o.items[item])
  }

  function Candidates(offers: seq<Offer>, item: Item, q: Request): (r: seq<Offer>)
    ensures forall o :: o in r ==> o in offers && Counts(o, q) && Lists(o, item)
  {
    if offers == [] then []
    else
      var rest, last := Candidates(offers[..|offers| - 1], item, q), offers[|offers| - 1];
      if Counts(last, q) && Lists(last, item) then rest + [last] else rest
  }

  type Index = map<Item, seq<Offer>>

  function Found(index: Index, item: Item): seq<Offer> {
    if item in index then index[item] else []
  }

  /** The active overlapping offers by product, each product's in the order of the offers. */
  method BuildIndex(offers: seq<Offer>, q: Request) returns (index: Index)
    ensures forall item :: Found(index, item) == Candidates(offers, item, q)
  {
    index := map[];
    for i := 0 to |offers|
      invariant forall item :: Found(index, item) == Candidates(offers[..i], item, q)
    {
      assert offers[..i + 1][..i] == offers[..i];
      if Counts(offers[i], q) {
        index := AddOffer(index, offers[i]);
      }
    }
    assert offers[..|offers|] == offers;
  }

  method AddOffer(before: Index, o: Offer) returns (index: Index)
    ensures forall item ::
              Found(index, item) == if Lists(o, item) then Found(before, item) + [o] else Found(before, item)
  {
    index := before;
    var rest := o.items.Keys;
    while rest != {}
      invariant rest <= o.items.Keys
      invariant forall item :: Found(index, item) ==
                  if Lists(o, item) && item !in rest then Found(before, item) + [o] else Found(before, item)
    {
      var item :| item in rest;
      rest := rest - {item};
      if Authority.Active(o.items[item]) {
        index := index[item := Found(index, item) + [o]];
      }
    }
  }

  // ---------- one SKU ----------

  function WantedOf(rows: seq<Overlays.SavedRow>): map<Pair, Cents> {
    map p | p in Overlays.PairsOf(rows) && Overlays.AmountOf(rows, p).Some? :: Overlays.AmountOf(rows, p).value
  }

  /** The receipt of an inclusion shows its rows saved, and the offer still says the same. */
  predicate InclusionProven(o: Offer, inc: Overlays.Inclusion) {
    && inc.windowExact && inc.saved == WantedOf(inc.rows)
    && forall p :: p in inc.saved ==> Overlays.AmountOf(o.rows, p) == Some(inc.saved[p])
  }

  predicate AddedByInclusion(o: Offer, p: Pair) {
    exists inc :: inc in o.included && p in inc.saved
  }

  /** Every row beyond the original partial import is backed by an independently saved inclusion. */
  predicate AddedScopeProven(o: Offer) {
    var current := Overlays.PairsOf(o.rows);
    if !Overlays.DistinctPairs(o.rows) || !(o.original.Keys <= current) then false
    else if current == o.original.Keys then true
    else
      && (forall inc :: inc in o.included ==> InclusionProven(o, inc))
      && (forall p :: p in current - o.original.Keys ==> AddedByInclusion(o, p))
  }

  function JudgeAmount(c: Check, o: Offer, deduct: Cents, q: Request): Verdict
    requires c.OrdinaryCheck?
  {
    if deduct <= 0 then Problem(AmountInvalid)
    else if c.price == 0 || c.goal <= 0 || c.big <= 0 || c.goal < c.big then Problem(PriceInputInvalid)
    else
      var final := c.price - OfficialCut(c.price, q.rate) - deduct;
      var delta := Abs(final - c.goal);
      if c.cap.Some? && OrdinaryPrice(c.price, c.goal, q.rate, c.cap.value, TWO_YUAN as real).Err? then
        Problem(CapUnreachable)
      else if c.cap.Some? && final as real > c.cap.value then Problem(CapExceeded)
      else if c.cap.Some? && delta > TWO_YUAN then Problem(OutsideCapTolerance)
      else if final <= 0 then Problem(FinalNonpositive)
      else if q.scoped && delta > TWO_YUAN then Problem(OutsideScopedTolerance)
      else if !q.scoped && c.cap.None? && final < c.big then Problem(BelowBigFloor)
      else if !q.scoped && c.cap.None? && final != c.goal then Problem(NotFrozenTarget)
      else Reused(o.id, deduct, final)
  }

  function JudgeOffer(c: Check, o: Offer, q: Request): Verdict
    requires Lists(o, c.pair.item)
  {
    var rows := Overlays.RowCount(o.rows, c.pair);
    if c.CustomCheck? && rows == 0 && o.partialReceipt.Some? then
      if !AddedScopeProven(o) then Fatal("partial_discount_amendment_scope_changed")
      else
        match PartialImport.VerifiedRows(o.original, o.partialReceipt.value)
        case Err(e) => Fatal(e)
        case Ok(_) => Fine
    else if o.items[c.pair.item] != Authority.Status.Success && c.pair !in o.verified then Problem(OutcomeUnknown)
    else if o.window != q.window then Problem(WindowNotExact)
    else if c.CustomCheck? then if rows > 0 then Problem(CustomHasDiscount) else Fine
    else if rows != 1 || Overlays.AmountOf(o.rows, c.pair).None? then Problem(SkuMissingOrDuplicate)
    else JudgeAmount(c, o, Overlays.AmountOf(o.rows, c.pair).value, q)
  }

  function Judge(c: Check, planned: bool, candidates: seq<Offer>, q: Request): Verdict
    requires forall o :: o in candidates ==> Lists(o, c.pair.item)
  {
    if candidates == [] then
      if c.OrdinaryCheck? && !planned && Net(c.price, q.rate) != c.goal then Problem(RequiredDiscountMissing) else Fine
    else if |candidates| != 1 then Problem(MultipleOverlapping)
    else JudgeOffer(c, candidates[0], q)
  }

  // ---------- the whole scope ----------

  function CheckOf(a: Activity): Check {
    match a
    case CustomSignup(p, _) => CustomCheck(p)
    case OrdinarySignup(p, price, goal, big, cap) => OrdinaryCheck(p, price, goal, big, cap)
  }

  function CheckOfRow(d: Discount): Check { OrdinaryCheck(d.pair, d.daily, d.goal, d.big, d.cap) }

  predicate Has(cs: seq<Check>, p: Pair) { exists c :: c in cs && c.pair == p }

  /** A later row of the same SKU takes the earlier one's place. */
  function Upsert(cs: seq<Check>, c: Check): seq<Check> {
    if !Has(cs, c.pair) then cs + [c]
    else seq(|cs|, i requires 0 <= i < |cs| => if cs[i].pair == c.pair then c else cs[i])
  }

  function ActivityChecks(rows: seq<Activity>): seq<Check> {
    if rows == [] then [] else Upsert(ActivityChecks(rows[..|rows| - 1]), CheckOf(rows[|rows| - 1]))
  }

  /** The signup rows, then every planned row whose SKU is not checked yet. */
  function AllChecks(first: seq<Check>, planned: seq<Discount>): seq<Check> {
    if planned == [] then first
    else
      var cs, d := AllChecks(first, planned[..|planned| - 1]), planned[|planned| - 1];
      if Has(cs, d.pair) then cs else cs + [CheckOfRow(d)]
  }

  function Checks(p: Plan): seq<Check> { AllChecks(ActivityChecks(p.activity), p.discounts) }

  predicate IsPlanned(planned: seq<Discount>, p: Pair) { exists d :: d in planned && d.pair == p }

  function VerdictOf(c: Check, planned: seq<Discount>, offers: seq<Offer>, q: Request): Verdict {
    Judge(c, IsPlanned(planned, c.pair), Candidates(offers, c.pair.item, q), q)
  }

  datatype Outcome = Outcome(reuse: seq<(Pair, Verdict)>, issues: seq<(Pair, Code)>)

  function Placed(o: Outcome, p: Pair, v: Verdict): Result<Outcome> {
    match v
    case Fatal(e) => Err(e)
    case Fine => Ok(o)
    case Problem(code) => Ok(o.(issues := o.issues + [(p, code)]))
    case Reused(_, _, _) => Ok(o.(reuse := o.reuse + [(p, v)]))
  }

  function Sorted(cs: seq<Check>, planned: seq<Discount>, offers: seq<Offer>, q: Request): Result<Outcome> {
    if cs == [] then Ok(Outcome([], []))
    else
      var c := cs[|cs| - 1];
      match Sorted(cs[..|cs| - 1], planned, offers, q)
      case Err(e) => Err(e)
      case Ok(o) => Placed(o, c.pair, VerdictOf(c, planned, offers, q))
  }

  function ReusedPairs(reuse: seq<(Pair, Verdict)>): set<Pair> {
    set r | r in reuse :: r.0
  }

  function IssuePairs(issues: seq<(Pair, Code)>): set<Pair> {
    set i | i in issues :: i.0
  }

  function NewRows(planned: seq<Discount>, reused: set<Pair>): seq<Discount> {
    if planned == [] then []
    else
      var rest, last := NewRows(planned[..|planned| - 1], reused), planned[|planned| - 1];
      if last.pair in reused then rest else rest + [last]
  }

  lemma {:induction false} NewRowsExact(planned: seq<Discount>, reused: set<Pair>)
    ensures forall d :: d in NewRows(planned, reused) <==> d in planned && d.pair !in reused
    ensures DistinctRows(planned) ==> DistinctRows(NewRows(planned, reused))
  {
    if planned != [] {
      var n := |planned| - 1;
      NewRowsExact(planned[..n], reused);
      assert planned == planned[..n] + [planned[n]];
    }
  }

  ghost predicate DistinctRows(rows: seq<Discount>) {
    forall i, j :: 0 <= i < j < |rows| ==> rows[i].pair != rows[j].pair
  }

  lemma PlacedPairs(o: Outcome, p: Pair, v: Verdict)
    requires !v.Fatal?
    ensures ReusedPairs(Placed(o, p, v).value.reuse) == ReusedPairs(o.reuse) + if v.Reused? then {p} else {}
    ensures IssuePairs(Placed(o, p, v).value.issues) == IssuePairs(o.issues) + if v.Problem? then {p} else {}
  {
  }

  lemma {:induction false} SortedStops(cs: seq<Check>, k: nat, planned: seq<Discount>, offers: seq<Offer>, q: Request)
    requires k <= |cs| && Sorted(cs[..k], planned, offers, q).Err?
    ensures Sorted(cs, planned, offers, q) == Sorted(cs[..k], planned, offers, q)
    decreases |cs| - k
  {
    if k == |cs| {
      assert cs[..k] == cs;
    } else {
      assert cs[..k + 1][..k] == cs[..k];
      SortedStops(cs, k + 1, planned, offers, q);
    }
  }

  method BuildChecks(p: Plan) returns (cs: seq<Check>)
    ensures cs == Checks(p)
  {
    cs := [];
    for i := 0 to |p.activity|
      invariant cs == ActivityChecks(p.activity[..i])
    {
      assert p.activity[..i + 1][..i] == p.activity[..i];
      cs := Upsert(cs, CheckOf(p.activity[i]));
    }
    assert p.activity[..|p.activity|] == p.activity;
    for i := 0 to |p.discounts|
      invariant cs == AllChecks(ActivityChecks(p.activity), p.discounts[..i])
    {
      assert p.discounts[..i + 1][..i] == p.discounts[..i];
      if !Has(cs, p.discounts[i].pair) {
        cs := cs + [CheckOfRow(p.discounts[i])];
      }
    }
    assert p.discounts[..|p.discounts|] == p.discounts;
  }

  method SelectNew(planned: seq<Discount>, reused: set<Pair>) returns (rows: seq<Discount>)
    ensures rows == NewRows(planned, reused)
  {
    rows := [];
    for i := 0 to |planned|
      invariant rows == NewRows(planned[..i], reused)
    {
      assert planned[..i + 1][..i] == planned[..i];
      if planned[i].pair !in reused {
        rows := rows + [planned[i]];
      }
    }
    assert planned[..|planned|] == planned;
  }

  method JudgeAll(cs: seq<Check>, planned: seq<Discount>, index: Index, ghost offers: seq<Offer>, q: Request)
    returns (r: Result<Outcome>, reused: set<Pair>)
    requires forall item :: Found(index, item) == Candidates(offers, item, q)
    ensures r == Sorted(cs, planned, offers, q)
    ensures r.Ok? ==> reused == ReusedPairs(r.value.reuse)
  {
    var o := Outcome([], []);
    reused := {};
    for i := 0 to |cs|
      invariant Sorted(cs[..i], planned, offers, q) == Ok(o) && reused == ReusedPairs(o.reuse)
    {
      assert cs[..i + 1][..i] == cs[..i];
      var c := cs[i];
      var verdict := Judge(c, IsPlanned(planned, c.pair), Found(index, c.pair.item), q);
      var next := Placed(o, c.pair, verdict);
      if next.Err? {
        SortedStops(cs, i + 1, planned, offers, q);
        return next, reused;
      }
      PlacedPairs(o, c.pair, verdict);
      if verdict.Reused? {
        reused := reused + {c.pair};
      }
      o := next.value;
    }
    assert cs[..|cs|] == cs;
    r := Ok(o);
  }

  method Reconcile(p: Plan, offers: seq<Offer>, q: Request) returns (r: Result<(seq<Discount>, Outcome)>)
    ensures match Sorted(Checks(p), p.discounts, offers, q)
            case Err(e) => r == Err(e)
            case Ok(o) => r == Ok((NewRows(p.discounts, ReusedPairs(o.reuse)), o))
  {
    var index := BuildIndex(offers, q);
    var cs := BuildChecks(p);
    var outcome, reused := JudgeAll(cs, p.discounts, index, offers, q);
    if outcome.Err? {
      return Err(outcome.error);
    }
    var rows := SelectNew(p.discounts, reused);
    r := Ok((rows, outcome.value));
  }

  // ---------- what one verdict means ----------

  /**
   * A saved amount is reused only when it is the one active overlapping evidence of its
   * product, for the exact window, saved once and positive, and the buyer's final price meets
   * the current promise: under the cap and within two yuan, or exactly the target.
   */
  lemma ReuseIsSound(c: Check, planned: seq<Discount>, offers: seq<Offer>, q: Request)
    requires VerdictOf(c, planned, offers, q).Reused?
    ensures c.OrdinaryCheck? && |Candidates(offers, c.pair.item, q)| == 1
    ensures var o, v := Candidates(offers, c.pair.item, q)[0], VerdictOf(c, planned, offers, q);
            && o in offers && o.id == v.offer && o.window == q.window
            && (o.items[c.pair.item] == Authority.Status.Success || c.pair in o.verified)
            && Overlays.RowCount(o.rows, c.pair) == 1 && Overlays.AmountOf(o.rows, c.pair) == Some(v.deduct)
            && 0 < v.deduct && 0 < v.final == Net(c.price, q.rate) - v.deduct && c.big <= c.goal
            && (c.cap.Some? ==> v.final as real <= c.cap.value && Abs(v.final - c.goal) <= TWO_YUAN)
            && (q.scoped ==> Abs(v.final - c.goal) <= TWO_YUAN)
            && (c.cap.None? && !q.scoped ==> v.final == c.goal)
  {
  }

  /** An ordinary SKU without an issue is reused, or has no saved evidence and is planned or needs nothing. */
  lemma NoIssueMeansCovered(c: Check, planned: seq<Discount>, offers: seq<Offer>, q: Request)
    requires c.OrdinaryCheck? && VerdictOf(c, planned, offers, q) == Fine
    ensures Candidates(offers, c.pair.item, q) == []
    ensures IsPlanned(planned, c.pair) || Net(c.price, q.rate) == c.goal
  {
  }

  // ---------- the partition ----------

  /** The lists hold exactly the SKUs with that verdict, each in at most one list. */
  lemma {:induction false} SortedExactly(cs: seq<Check>, planned: seq<Discount>, offers: seq<Offer>, q: Request)
    ensures Sorted(cs, planned, offers, q).Err? <==> exists c :: c in cs && VerdictOf(c, planned, offers, q).Fatal?
    ensures var r := Sorted(cs, planned, offers, q);
            r.Ok? ==>
              && (forall p :: p in ReusedPairs(r.value.reuse) <==>
                    exists c :: c in cs && c.pair == p && VerdictOf(c, planned, offers, q).Reused?)
              && (forall p :: p in IssuePairs(r.value.issues) <==>
                    exists c :: c in cs && c.pair == p && VerdictOf(c, planned, offers, q).Problem?)
  {
    if cs != [] {
      var n := |cs| - 1;
      SortedExactly(cs[..n], planned, offers, q);
      assert cs == cs[..n] + [cs[n]];
      var before := Sorted(cs[..n], planned, offers, q);
      var v := VerdictOf(cs[n], planned, offers, q);
      if before.Ok? && !v.Fatal? {
        PlacedPairs(before.value, cs[n].pair, v);
      }
    }
  }

  lemma SortedOne(cs: seq<Check>, planned: seq<Discount>, offers: seq<Offer>, q: Request, c: Check)
    requires c in cs && Sorted(cs, planned, offers, q).Ok?
    ensures var o, v := Sorted(cs, planned, offers, q).value, VerdictOf(c, planned, offers, q);
            && !v.Fatal? && (v.Reused? ==> c.pair in ReusedPairs(o.reuse))
            && (v.Problem? ==> c.pair in IssuePairs(o.issues) && o.issues != [])
  {
  }

  lemma {:induction false} IssueHasCause(cs: seq<Check>, planned: seq<Discount>, offers: seq<Offer>, q: Request)
    returns (c: Check)
    requires Sorted(cs, planned, offers, q).Ok? && Sorted(cs, planned, offers, q).value.issues != []
    ensures c in cs && VerdictOf(c, planned, offers, q).Problem?
  {
    var n := |cs| - 1;
    if VerdictOf(cs[n], planned, offers, q).Problem? {
      c := cs[n];
    } else {
      c := IssueHasCause(cs[..n], planned, offers, q);
    }
  }

  ghost predicate DistinctChecks(cs: seq<Check>) {
    forall i, j :: 0 <= i < j < |cs| ==> cs[i].pair != cs[j].pair
  }

  lemma {:induction false} ActivityChecksExact(rows: seq<Activity>)
    requires forall i, j :: 0 <= i < j < |rows| ==> rows[i].pair != rows[j].pair
    ensures DistinctChecks(ActivityChecks(rows))
    ensures forall c :: c in ActivityChecks(rows) <==> exists a :: a in rows && c == CheckOf(a)
  {
    if rows != [] {
      var n := |rows| - 1;
      ActivityChecksExact(rows[..n]);
      assert rows == rows[..n] + [rows[n]];
    }
  }

  lemma {:induction false} AllChecksExact(first: seq<Check>, planned: seq<Discount>)
    requires DistinctChecks(first)
    ensures DistinctChecks(AllChecks(first, planned))
    ensures forall c :: c in AllChecks(first, planned) ==>
              c in first || (!Has(first, c.pair) && exists d :: d in planned && c == CheckOfRow(d))
    ensures forall c :: c in first ==> c in AllChecks(first, planned)
    ensures forall d :: d in planned ==> Has(AllChecks(first, planned), d.pair)
  {
    if planned != [] {
      var n := |planned| - 1;
      AllChecksExact(first, planned[..n]);
      assert planned == planned[..n] + [planned[n]];
    }
  }

  /** In a coherent plan every planned row is checked with its own facts, and each SKU once. */
  lemma ChecksOfPlan(p: Plan, rate: Rate)
    requires Coherent(p, rate)
    ensures DistinctChecks(Checks(p))
    ensures forall d :: d in p.discounts ==> CheckOfRow(d) in Checks(p)
    ensures forall c :: c in Checks(p) && IsPlanned(p.discounts, c.pair) ==>
                          exists d :: d in p.discounts && c == CheckOfRow(d)
  {
    ActivityChecksExact(p.activity);
    AllChecksExact(ActivityChecks(p.activity), p.discounts);
    forall c | c in Checks(p) && IsPlanned(p.discounts, c.pair)
      ensures exists d :: d in p.discounts && c == CheckOfRow(d)
    {
      if c in ActivityChecks(p.activity) {
        var a :| a in p.activity && c == CheckOf(a);
        var d :| d in p.discounts && d.pair == c.pair;
        assert SameFacts(a, d);
      }
    }
    forall d | d in p.discounts
      ensures CheckOfRow(d) in Checks(p)
    {
      var c :| c in Checks(p) && c.pair == d.pair;
      var e :| e in p.discounts && c == CheckOfRow(e);
      assert e == d;
    }
  }

  // ---------- the fixpoint ----------

  function SavedRows(rows: seq<Discount>): seq<Overlays.SavedRow> {
    if rows == [] then []
    else SavedRows(rows[..|rows| - 1]) + [Overlays.SavedRow(rows[|rows| - 1].pair, rows[|rows| - 1].deduct)]
  }

  function ItemsOf(rows: seq<Discount>): set<Item> {
    set d | d in rows :: d.pair.item
  }

  /** The new rows after their official import succeeded, as one offer with the exact window. */
  function Registered(rows: seq<Discount>, id: string, window: Window): Offer {
    Overlays.Offer(id, id, window, map i | i in ItemsOf(rows) :: Authority.Status.Success, SavedRows(rows),
                   None, map[], {}, [])
  }

  lemma {:induction false} SavedOnce(rows: seq<Discount>, p: Pair)
    requires DistinctRows(rows)
    ensures Overlays.RowCount(SavedRows(rows), p) == if IsPlanned(rows, p) then 1 else 0
    ensures forall d :: d in rows && d.pair == p ==> Overlays.AmountOf(SavedRows(rows), p) == Some(d.deduct)
  {
    if rows != [] {
      var n := |rows| - 1;
      SavedOnce(rows[..n], p);
      assert rows == rows[..n] + [rows[n]];
      var saved := SavedRows(rows);
      assert saved[..|saved| - 1] == SavedRows(rows[..n]);
    }
  }

  /** A planned row read back from its own offer is reused with exactly its final price. */
  lemma OwnOfferIsReused(d: Discount, rows: seq<Discount>, id: string, q: Request)
    requires DiscountExact(d, q.rate) && d.deduct > 0 && d in rows
    requires DistinctRows(rows)
    ensures Lists(Registered(rows, id, q.window), d.pair.item)
    ensures JudgeOffer(CheckOfRow(d), Registered(rows, id, q.window), q) == Reused(id, d.deduct, d.final)
  {
    SavedOnce(rows, d.pair);
    if d.cap.Some? {
      CappedFinalIsGreatest(d, q.rate);
    }
  }

  /** A product without a row in the file only gains evidence that the SKU is missing. */
  lemma OwnOfferElsewhere(c: Check, rows: seq<Discount>, id: string, q: Request)
    requires DistinctRows(rows) && !IsPlanned(rows, c.pair) && c.pair.item in ItemsOf(rows)
    ensures Lists(Registered(rows, id, q.window), c.pair.item)
    ensures JudgeOffer(c, Registered(rows, id, q.window), q) ==
            if c.CustomCheck? then Fine else Problem(SkuMissingOrDuplicate)
  {
    SavedOnce(rows, c.pair);
  }

  /** One more offer changes the verdict only on the products it lists. */
  lemma VerdictWithOneMore(c: Check, planned: seq<Discount>, offers: seq<Offer>, o: Offer, q: Request)
    ensures !Counts(o, q) || !Lists(o, c.pair.item) ==>
              VerdictOf(c, planned, offers + [o], q) == VerdictOf(c, planned, offers, q)
    ensures Counts(o, q) && Lists(o, c.pair.item) && Candidates(offers, c.pair.item, q) == [] ==>
              VerdictOf(c, planned, offers + [o], q) == JudgeOffer(c, o, q)
  {
  }

  lemma OneMoreOffer(offers: seq<Offer>, o: Offer, item: Item, q: Request)
    ensures Candidates(offers + [o], item, q) ==
            if Counts(o, q) && Lists(o, item) then Candidates(offers, item, q) + [o] else Candidates(offers, item, q)
  {
  }

  /** The first reconciliation ended without any issue. */
  ghost predicate Clean(p: Plan, offers: seq<Offer>, q: Request) {
    var r := Sorted(Checks(p), p.discounts, offers, q);
    r.Ok? && r.value.issues == []
  }

  function AddedRows(p: Plan, offers: seq<Offer>, q: Request): seq<Discount>
    requires Sorted(Checks(p), p.discounts, offers, q).Ok?
  {
    NewRows(p.discounts, ReusedPairs(Sorted(Checks(p), p.discounts, offers, q).value.reuse))
  }

  lemma CleanVerdicts(p: Plan, offers: seq<Offer>, q: Request, c: Check)
    requires Clean(p, offers, q) && c in Checks(p)
    ensures VerdictOf(c, p.discounts, offers, q).Fine? || VerdictOf(c, p.discounts, offers, q).Reused?
  {
    SortedOne(Checks(p), p.discounts, offers, q, c);
  }

  /** New rows are exactly the planned rows whose product has no saved evidence at all. */
  lemma AddedRowsLackEvidence(p: Plan, offers: seq<Offer>, q: Request, d: Discount)
    requires Coherent(p, q.rate) && Clean(p, offers, q) && d in p.discounts
    ensures d in AddedRows(p, offers, q) <==> Candidates(offers, d.pair.item, q) == []
  {
    var reused := ReusedPairs(Sorted(Checks(p), p.discounts, offers, q).value.reuse);
    NewRowsExact(p.discounts, reused);
    ChecksOfPlan(p, q.rate);
    CleanVerdicts(p, offers, q, CheckOfRow(d));
    SortedExactly(Checks(p), p.discounts, offers, q);
    var c := CheckOfRow(d);
    if d.pair in reused {
      var other :| other in Checks(p) && other.pair == d.pair && VerdictOf(other, p.discounts, offers, q).Reused?;
      assert Candidates(offers, d.pair.item, q) != [];
    } else {
      NoIssueMeansCovered(c, p.discounts, offers, q);
    }
  }

  /** Products that receive new rows had no evidence before. */
  lemma TouchedItemsLackEvidence(p: Plan, offers: seq<Offer>, q: Request, item: Item)
    requires Coherent(p, q.rate) && Clean(p, offers, q)
    ensures DistinctRows(AddedRows(p, offers, q))
    ensures item in ItemsOf(AddedRows(p, offers, q)) <==>
            Candidates(offers, item, q) == [] && exists d :: d in p.discounts && d.pair.item == item
    ensures forall d :: d in p.discounts && d.pair.item == item ==>
                          (d in AddedRows(p, offers, q) <==> item in ItemsOf(AddedRows(p, offers, q)))
  {
    NewRowsExact(p.discounts, ReusedPairs(Sorted(Checks(p), p.discounts, offers, q).value.reuse));
    forall d | d in p.discounts
      ensures d in AddedRows(p, offers, q) <==> Candidates(offers, d.pair.item, q) == []
    {
      AddedRowsLackEvidence(p, offers, q, d);
    }
  }

  /** No SKU is both reused and an issue, and the new rows are the planned rows that are not reused. */
  lemma PartitionIsExclusive(p: Plan, offers: seq<Offer>, q: Request)
    requires Coherent(p, q.rate) && Sorted(Checks(p), p.discounts, offers, q).Ok?
    ensures var o := Sorted(Checks(p), p.discounts, offers, q).value;
            && ReusedPairs(o.reuse) !! IssuePairs(o.issues)
            && (forall d :: d in AddedRows(p, offers, q) <==> d in p.discounts && d.pair !in ReusedPairs(o.reuse))
  {
    ChecksOfPlan(p, q.rate);
    SortedExactly(Checks(p), p.discounts, offers, q);
    NewRowsExact(p.discounts, ReusedPairs(Sorted(Checks(p), p.discounts, offers, q).value.reuse));
  }

  /**
   * After an issue-free reconciliation every ordinary SKU of the scope is in exactly one of
   * three ways at its promised price: a saved amount is reused, its planned row is about to be
   * imported, or the official cut alone already gives the target and nothing else is saved.
   */
  lemma CleanScopeIsCovered(p: Plan, offers: seq<Offer>, q: Request, c: Check)
    requires Coherent(p, q.rate) && Clean(p, offers, q) && c in Checks(p) && c.OrdinaryCheck?
    ensures var isReused := VerdictOf(c, p.discounts, offers, q).Reused?;
            var isNew := exists d :: d in AddedRows(p, offers, q) && c == CheckOfRow(d);
            var needsNothing := Net(c.price, q.rate) == c.goal && !IsPlanned(p.discounts, c.pair)
                                && Candidates(offers, c.pair.item, q) == [];
            && (isReused || isNew || needsNothing)
            && !(isReused && isNew) && !(isReused && needsNothing) && !(isNew && needsNothing)
  {
    ChecksOfPlan(p, q.rate);
    CleanVerdicts(p, offers, q, c);
    forall d | d in p.discounts && c == CheckOfRow(d)
      ensures d in AddedRows(p, offers, q) <==> Candidates(offers, c.pair.item, q) == []
    {
      AddedRowsLackEvidence(p, offers, q, d);
    }
    NewRowsExact(p.discounts, ReusedPairs(Sorted(Checks(p), p.discounts, offers, q).value.reuse));
    if Candidates(offers, c.pair.item, q) != [] {
      EvidenceIsJudged(c, p.discounts, offers, q);
    } else {
      NoIssueMeansCovered(c, p.discounts, offers, q);
    }
  }

  lemma PlannedVerdictAfter(p: Plan, offers: seq<Offer>, q: Request, id: string, d: Discount)
    requires Coherent(p, q.rate) && Clean(p, offers, q) && d in p.discounts
    requires q.window.start <= q.window.end && id !in q.released && q.excluding != Some(id)
    ensures var later := offers + [Registered(AddedRows(p, offers, q), id, q.window)];
            VerdictOf(CheckOfRow(d), p.discounts, later, q).Reused?
  {
    var added := AddedRows(p, offers, q);
    TouchedItemsLackEvidence(p, offers, q, d.pair.item);
    VerdictWithOneMore(CheckOfRow(d), p.discounts, offers, Registered(added, id, q.window), q);
    if d in added {
      OwnOfferIsReused(d, added, id, q);
    } else {
      ChecksOfPlan(p, q.rate);
      CleanVerdicts(p, offers, q, CheckOfRow(d));
      EvidenceIsJudged(CheckOfRow(d), p.discounts, offers, q);
    }
  }

  lemma EvidenceIsJudged(c: Check, planned: seq<Discount>, offers: seq<Offer>, q: Request)
    requires c.OrdinaryCheck? && Candidates(offers, c.pair.item, q) != []
    ensures VerdictOf(c, planned, offers, q) != Fine
  {
  }

  lemma OtherVerdictAfter(p: Plan, offers: seq<Offer>, q: Request, id: string, c: Check)
    requires Coherent(p, q.rate) && Clean(p, offers, q) && c in Checks(p) && !IsPlanned(p.discounts, c.pair)
    requires q.window.start <= q.window.end && id !in q.released && q.excluding != Some(id)
    ensures var added := AddedRows(p, offers, q);
            var v := VerdictOf(c, p.discounts, offers + [Registered(added, id, q.window)], q);
            if c.OrdinaryCheck? && c.pair.item in ItemsOf(added) then v.Problem? else v.Fine? || v.Reused?
  {
    var added := AddedRows(p, offers, q);
    TouchedItemsLackEvidence(p, offers, q, c.pair.item);
    NewRowsExact(p.discounts, ReusedPairs(Sorted(Checks(p), p.discounts, offers, q).value.reuse));
    VerdictWithOneMore(c, p.discounts, offers, Registered(added, id, q.window), q);
    if c.pair.item in ItemsOf(added) {
      OwnOfferElsewhere(c, added, id, q);
    } else {
      CleanVerdicts(p, offers, q, c);
    }
  }

  /**
   * Planning is a fixpoint. When the new rows of an issue-free reconciliation have been
   * imported, reconciling the same plan again reuses every planned row and plans nothing new.
   * It raises no issue exactly when no ordinary SKU without a planned row belongs to a product
   * that received new rows.
   */
  lemma PlanningIsFixpoint(p: Plan, offers: seq<Offer>, q: Request, id: string)
    requires Coherent(p, q.rate) && Clean(p, offers, q)
    requires q.window.start <= q.window.end && id !in q.released && q.excluding != Some(id)
    ensures var added := AddedRows(p, offers, q);
            var later := offers + [Registered(added, id, q.window)];
            && Sorted(Checks(p), p.discounts, later, q).Ok?
            && AddedRows(p, later, q) == []
            && (Clean(p, later, q) <==>
                forall c :: c in Checks(p) && c.OrdinaryCheck? && !IsPlanned(p.discounts, c.pair) ==>
                              c.pair.item !in ItemsOf(added))
  {
    var added := AddedRows(p, offers, q);
    var later := offers + [Registered(added, id, q.window)];
    forall c | c in Checks(p)
      ensures Expected(c, p, later, q, ItemsOf(added))
    {
      ChecksOfPlan(p, q.rate);
      if IsPlanned(p.discounts, c.pair) {
        var d :| d in p.discounts && c == CheckOfRow(d);
        PlannedVerdictAfter(p, offers, q, id, d);
      } else {
        OtherVerdictAfter(p, offers, q, id, c);
      }
    }
    SecondRound(p, later, q, ItemsOf(added));
  }

  /** A planned row is reused; only an ordinary SKU without one can be a problem, on touched products. */
  ghost predicate Expected(c: Check, p: Plan, later: seq<Offer>, q: Request, touched: set<Item>) {
    var v := VerdictOf(c, p.discounts, later, q);
    if IsPlanned(p.discounts, c.pair) then v.Reused?
    else if c.OrdinaryCheck? && c.pair.item in touched then v.Problem?
    else v.Fine? || v.Reused?
  }

  /** Verdicts that reuse every planned row leave nothing new, and list exactly the problems. */
  lemma SecondRound(p: Plan, later: seq<Offer>, q: Request, touched: set<Item>)
    requires Coherent(p, q.rate)
    requires forall c :: c in Checks(p) ==> Expected(c, p, later, q, touched)
    ensures Sorted(Checks(p), p.discounts, later, q).Ok? && AddedRows(p, later, q) == []
    ensures Clean(p, later, q) <==>
            forall c :: c in Checks(p) && c.OrdinaryCheck? && !IsPlanned(p.discounts, c.pair) ==>
              c.pair.item !in touched
  {
    NothingFatal(p, later, q, touched);
    var second := Sorted(Checks(p), p.discounts, later, q).value;
    ChecksOfPlan(p, q.rate);
    forall d | d in p.discounts
      ensures d.pair in ReusedPairs(second.reuse)
    {
      assert Expected(CheckOfRow(d), p, later, q, touched);
      SortedOne(Checks(p), p.discounts, later, q, CheckOfRow(d));
    }
    NewRowsExact(p.discounts, ReusedPairs(second.reuse));
    FirstIsMember(AddedRows(p, later, q));
    if second.issues != [] {
      var c := IssueHasCause(Checks(p), p.discounts, later, q);
      assert Expected(c, p, later, q, touched);
    }
    forall c | c in Checks(p) && c.OrdinaryCheck? && !IsPlanned(p.discounts, c.pair) && c.pair.item in touched
      ensures second.issues != []
    {
      assert Expected(c, p, later, q, touched);
      SortedOne(Checks(p), p.discounts, later, q, c);
    }
  }

  lemma NothingFatal(p: Plan, later: seq<Offer>, q: Request, touched: set<Item>)
    requires forall c :: c in Checks(p) ==> Expected(c, p, later, q, touched)
    ensures Sorted(Checks(p), p.discounts, later, q).Ok?
  {
    SortedExactly(Checks(p), p.discounts, later, q);
  }

  lemma FirstIsMember<T>(s: seq<T>)
    ensures s != [] ==> s[0] in s
  {
  }

  lemma NothingSavedVerdict(c: Check, planned: seq<Discount>, q: Request)
    ensures VerdictOf(c, planned, [], q) ==
            if c.OrdinaryCheck? && !IsPlanned(planned, c.pair) && Net(c.price, q.rate) != c.goal
            then Problem(RequiredDiscountMissing) else Fine
  {
    assert Candidates([], c.pair.item, q) == [];
  }

  /**
   * The first submission of a scope, with nothing saved yet and a positive deduction for every
   * ordinary SKU: it is issue-free, imports every planned row, and afterwards reconciling again
   * is issue-free, reuses every row and plans nothing new.
   */
  lemma FirstPlanIsFixpoint(p: Plan, q: Request, id: string)
    requires Coherent(p, q.rate)
    requires forall c :: c in Checks(p) && c.OrdinaryCheck? ==> IsPlanned(p.discounts, c.pair)
    requires q.window.start <= q.window.end && id !in q.released && q.excluding != Some(id)
    ensures Clean(p, [], q) && forall d :: d in AddedRows(p, [], q) <==> d in p.discounts
    ensures var later := [Registered(AddedRows(p, [], q), id, q.window)];
            Clean(p, later, q) && AddedRows(p, later, q) == []
  {
    forall c | c in Checks(p)
      ensures VerdictOf(c, p.discounts, [], q) == Fine
    {
      NothingSavedVerdict(c, p.discounts, q);
    }
    SortedExactly(Checks(p), p.discounts, [], q);
    var first := Sorted(Checks(p), p.discounts, [], q).value;
    if first.issues != [] {
      var c := IssueHasCause(Checks(p), p.discounts, [], q);
    }
    NewRowsExact(p.discounts, ReusedPairs(first.reuse));
    PlanningIsFixpoint(p, [], q, id);
    assert [] + [Registered(AddedRows(p, [], q), id, q.window)] == [Registered(AddedRows(p, [], q), id, q.window)];
  }

  // ---------- the check repeated before signup ----------

  lemma {:induction false} ExcludingOwnOffer(offers: seq<Offer>, item: Item, q: Request, own: Offer)
    requires q.excluding.None? && forall o :: o in offers ==> o.id != own.id
    ensures Candidates(offers + [own], item, q.(excluding := Some(own.id))) == Candidates(offers, item, q)
  {
    var without := q.(excluding := Some(own.id));
    OneMoreOffer(offers, own, item, without);
    SameWithout(offers, item, q, own.id);
  }

  lemma {:induction false} SameWithout(offers: seq<Offer>, item: Item, q: Request, id: string)
    requires q.excluding.None? && forall o :: o in offers ==> o.id != id
    ensures Candidates(offers, item, q.(excluding := Some(id))) == Candidates(offers, item, q)
  {
    if offers != [] {
      SameWithout(offers[..|offers| - 1], item, q, id);
    }
  }

  /**
   * Signup repeats the reconciliation without the bundle's own imported rows. As long as
   * nothing else has been saved since, it finds exactly the reuse and the issues of the plan.
   */
  lemma {:induction false} SignupSeesSameReuse(cs: seq<Check>, planned: seq<Discount>, offers: seq<Offer>, q: Request,
                                               own: Offer)
    requires q.excluding.None? && forall o :: o in offers ==> o.id != own.id
    ensures Sorted(cs, planned, offers + [own], q.(excluding := Some(own.id))) == Sorted(cs, planned, offers, q)
  {
    if cs != [] {
      var n := |cs| - 1;
      SignupSeesSameReuse(cs[..n], planned, offers, q, own);
      ExcludingOwnOffer(offers, cs[n].pair.item, q, own);
      SameRequest(cs[n], IsPlanned(planned, cs[n].pair), Candidates(offers, cs[n].pair.item, q), q, own.id);
    }
  }

  /** Which offer is left out matters only for the candidates. */
  lemma SameRequest(c: Check, isPlanned: bool, candidates: seq<Offer>, q: Request, id: string)
    requires forall o :: o in candidates ==> Lists(o, c.pair.item)
    ensures Judge(c, isPlanned, candidates, q.(excluding := Some(id))) == Judge(c, isPlanned, candidates, q)
  {
  }
}
