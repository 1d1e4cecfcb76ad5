/**
 * The saved discounts as later operations left them: four tables of later records are laid
 * over the imported offers. A record that is still open demotes its products to unknown; a
 * verified one changes the amount of its exact SKUs; nothing is ever promoted.
 */
module Overlays {
  import opened CampaignTypes
  import Authority
  import PartialImport

  type Status = Authority.Status

  datatype SavedRow = SavedRow(pair: Pair, deduct: Cents)

  /** Rows added to an existing offer, and what the receipt of that addition shows as saved. */
  datatype Inclusion = Inclusion(rows: seq<SavedRow>, windowExact: bool, saved: map<Pair, Cents>)

  /** One saved offer; partialReceipt is the evidence of an import that took only some rows. */
  datatype Offer = Offer(id: string, platform: string, window: Window, items: map<Item, Status>, rows: seq<SavedRow>,
                         partialReceipt: Option<PartialImport.Receipt>, original: map<Pair, Cents>, verified: set<Pair>,
                         included: seq<Inclusion>)

  /** Records name their offer by its own identity or by its platform number, always with the window. */
  datatype Target = ByOffer(id: string, window: Window) | ByPlatform(platform: string, window: Window)

  predicate Hits(t: Target, o: Offer) {
    o.window == t.window && if t.ByOffer? then o.id == t.id else o.platform == t.platform
  }

  // ---------- amounts ----------

  function PairsOf(rows: seq<SavedRow>): set<Pair> {
    set r | r in rows :: r.pair
  }

  predicate DistinctPairs(rows: seq<SavedRow>) {
    forall i, j :: 0 <= i < j < |rows| ==> rows[i].pair != rows[j].pair
  }

  function AmountOf(rows: seq<SavedRow>, p: Pair): Option<Cents> {
    if rows == [] then None
    else if rows[|rows| - 1].pair == p then Some(rows[|rows| - 1].deduct)
    else AmountOf(rows[..|rows| - 1], p)
  }

  function RowCount(rows: seq<SavedRow>, p: Pair): nat {
    if rows == [] then 0
    else RowCount(rows[..|rows| - 1], p) + if rows[|rows| - 1].pair == p then 1 else 0
  }

  /** The last row of the pair gets the amount; a pair without a row gets one at the end. */
  function Put(rows: seq<SavedRow>, p: Pair, amount: Cents): seq<SavedRow> {
    if AmountOf(rows, p).None? then rows + [SavedRow(p, amount)] else Overwrite(rows, p, amount)
  }

  function Overwrite(rows: seq<SavedRow>, p: Pair, amount: Cents): (r: seq<SavedRow>)
    ensures |r| == |rows|
  {
    if rows == [] then []
    else
      var last := rows[|rows| - 1];
      if last.pair == p then rows[..|rows| - 1] + [SavedRow(p, amount)]
      else Overwrite(rows[..|rows| - 1], p, amount) + [last]
  }

  lemma {:induction false} OverwriteAmounts(rows: seq<SavedRow>, p: Pair, amount: Cents, q: Pair)
    ensures AmountOf(Overwrite(rows, p, amount), q) ==
            if q == p && AmountOf(rows, p).Some? then Some(amount) else AmountOf(rows, q)
    ensures RowCount(Overwrite(rows, p, amount), q) == RowCount(rows, q)
  {
    if rows != [] {
      var n := |rows| - 1;
      var r := Overwrite(rows, p, amount);
      assert r[..n] == if rows[n].pair == p then rows[..n] else Overwrite(rows[..n], p, amount);
      OverwriteAmounts(rows[..n], p, amount, q);
    }
  }

  lemma PutAmounts(rows: seq<SavedRow>, p: Pair, amount: Cents, q: Pair)
    ensures AmountOf(Put(rows, p, amount), q) == if q == p then Some(amount) else AmountOf(rows, q)
  {
    OverwriteAmounts(rows, p, amount, q);
    var longer := rows + [SavedRow(p, amount)];
    assert longer[..|longer| - 1] == rows;
  }

  function PutAll(rows: seq<SavedRow>, added: seq<SavedRow>): seq<SavedRow> {
    if added == [] then rows
    else var n := |added| - 1; Put(PutAll(rows, added[..n]), added[n].pair, added[n].deduct)
  }

  lemma {:induction false} PutAllAmounts(rows: seq<SavedRow>, added: seq<SavedRow>, q: Pair)
    ensures AmountOf(PutAll(rows, added), q) ==
            if AmountOf(added, q).Some? then AmountOf(added, q) else AmountOf(rows, q)
  {
    if added != [] {
      var n := |added| - 1;
      PutAllAmounts(rows, added[..n], q);
      PutAmounts(PutAll(rows, added[..n]), added[n].pair, added[n].deduct, q);
    }
  }

  // ---------- one step on all offers ----------

  datatype Step =
    | Parent(target: Target)                                       // exactly one offer is meant
    | Distinct(target: Target)                                     // its rows are distinct and not empty
    | Demote(target: Target, products: set<Item>)                  // the outcome of a later write is open
    | Amend(target: Target, pair: Pair, expected: set<Cents>, amount: Option<Cents>)
    | Include(target: Target, inclusion: Inclusion)
    | Refuse(reason: string)                                       // the record's own evidence is invalid

  function Demoted(o: Offer, products: set<Item>): Offer {
    o.(items := map i | i in o.items :: if i in products then Authority.Status.Unknown else o.items[i])
  }

  function WithInclusion(o: Offer, inc: Inclusion): Offer {
    o.(rows := PutAll(o.rows, inc.rows), included := o.included + [inc],
       verified := if o.partialReceipt.Some? then o.verified + PairsOf(inc.rows) else o.verified)
  }

  /** What the step makes of one offer. */
  function Stepped(o: Offer, s: Step): Offer {
    match s
    case Demote(t, products) => if Hits(t, o) then Demoted(o, products) else o
    case Amend(t, p, _, Some(amount)) => if Hits(t, o) then o.(rows := Overwrite(o.rows, p, amount)) else o
    case Include(t, inc) => if Hits(t, o) then WithInclusion(o, inc) else o
    case _ => o
  }

  function HitCount(offers: seq<Offer>, t: Target): nat {
    if offers == [] then 0
    else HitCount(offers[..|offers| - 1], t) + if Hits(t, offers[|offers| - 1]) then 1 else 0
  }

  /** How many saved rows the target has for this SKU, over all offers it means. */
  function RowHits(offers: seq<Offer>, t: Target, p: Pair): nat {
    if offers == [] then 0
    else
      var o := offers[|offers| - 1];
      RowHits(offers[..|offers| - 1], t, p) + if Hits(t, o) then RowCount(o.rows, p) else 0
  }

  predicate AmountExpected(offers: seq<Offer>, t: Target, p: Pair, expected: set<Cents>) {
    forall i :: 0 <= i < |offers| && Hits(t, offers[i]) && AmountOf(offers[i].rows, p).Some? ==>
                  AmountOf(offers[i].rows, p).value in expected
  }

  /** Why the step refuses these offers. */
  function Refusal(offers: seq<Offer>, s: Step): Option<string> {
    match s
    case Parent(t) => if HitCount(offers, t) != 1 then Some("projection_parent_not_unique") else None
    case Distinct(t) =>
      if exists i | 0 <= i < |offers| :: Hits(t, offers[i]) && (offers[i].rows == [] || !DistinctPairs(offers[i].rows))
      then Some("amend_empty_or_duplicate_scope") else None
    case Amend(t, p, expected, _) =>
      if RowHits(offers, t, p) != 1 || !AmountExpected(offers, t, p, expected) then Some("overlay_old_amount_conflict")
      else None
    case Refuse(reason) => Some(reason)
    case _ => None
  }

  function SteppedAll(offers: seq<Offer>, s: Step): seq<Offer> {
    seq(|offers|, i requires 0 <= i < |offers| => Stepped(offers[i], s))
  }

  function Apply(offers: seq<Offer>, s: Step): Result<seq<Offer>> {
    var refusal := Refusal(offers, s);
    if refusal.Some? then Err(refusal.value) else Ok(SteppedAll(offers, s))
  }

  function Run(steps: seq<Step>, offers: seq<Offer>): Result<seq<Offer>> {
    if steps == [] then Ok(offers)
    else
      match Run(steps[..|steps| - 1], offers)
      case Err(e) => Err(e)
      case Ok(before) => Apply(before, steps[|steps| - 1])
  }

  lemma {:induction false} RunConcat(a: seq<Step>, b: seq<Step>, offers: seq<Offer>)
    ensures Run(a + b, offers) == match Run(a, offers) case Err(e) => Err(e) case Ok(mid) => Run(b, mid)
  {
    if b == [] {
      assert a + b == a;
    } else {
      var n := |b| - 1;
      assert (a + b)[..|a + b| - 1] == a + b[..n];
      RunConcat(a, b[..n], offers);
    }
  }

  // ---------- conservation over a whole run of steps ----------

  /** The amount a step writes for this SKU of this offer, if any. */
  function Writes(s: Step, o: Offer, p: Pair): Option<Cents> {
    match s
    case Amend(t, q, _, Some(amount)) => if Hits(t, o) && q == p then Some(amount) else None
    case Include(t, inc) => if Hits(t, o) then AmountOf(inc.rows, p) else None
    case _ => None
  }

  /**
   * Looking back from the last step: the first amount written for this SKU, else the imported
   * one. An amendment writes only where the offer has the SKU; an inclusion also adds it.
   */
  function LastWritten(steps: seq<Step>, o: Offer, p: Pair): Option<Cents> {
    if steps == [] then AmountOf(o.rows, p)
    else
      var s := steps[|steps| - 1];
      var prior := LastWritten(steps[..|steps| - 1], o, p);
      var w := Writes(s, o, p);
      if w.Some? && (s.Include? || prior.Some?) then w else prior
  }

  ghost predicate IsDemoted(steps: seq<Step>, o: Offer, item: Item) {
    exists s :: s in steps && s.Demote? && Hits(s.target, o) && item in s.products
  }

  /** The offer keeps its identity and window; what else it says follows from the steps alone. */
  ghost predicate Projected(steps: seq<Step>, before: Offer, after: Offer) {
    && after.id == before.id && after.platform == before.platform && after.window == before.window
    && after.items.Keys == before.items.Keys
    && (forall i :: i in before.items ==>
          after.items[i] == if IsDemoted(steps, before, i) then Authority.Status.Unknown else before.items[i])
    && (forall p :: AmountOf(after.rows, p) == LastWritten(steps, before, p))
  }

  lemma ProjectAmount(steps: seq<Step>, s: Step, before: Offer, mid: Offer, p: Pair)
    requires AmountOf(mid.rows, p) == LastWritten(steps, before, p)
    requires mid.id == before.id && mid.platform == before.platform && mid.window == before.window
    ensures AmountOf(Stepped(mid, s).rows, p) == LastWritten(steps + [s], before, p)
  {
    hide Overwrite, PutAll;
    assert (steps + [s])[..|steps + [s]| - 1] == steps;
    match s
    case Amend(t, q, _, Some(amount)) => OverwriteAmounts(mid.rows, q, amount, p);
    case Include(t, inc) => PutAllAmounts(mid.rows, inc.rows, p);
    case _ =>
  }

  lemma ProjectStep(steps: seq<Step>, s: Step, before: Offer, mid: Offer)
    requires Projected(steps, before, mid)
    ensures Projected(steps + [s], before, Stepped(mid, s))
  {
    forall i | i in before.items
      ensures Stepped(mid, s).items[i] ==
              if IsDemoted(steps + [s], before, i) then Authority.Status.Unknown else before.items[i]
    {
      DemotedOneMore(steps, s, before, i);
    }
    forall p
      ensures AmountOf(Stepped(mid, s).rows, p) == LastWritten(steps + [s], before, p)
    {
      ProjectAmount(steps, s, before, mid, p);
    }
  }

  lemma DemotedOneMore(steps: seq<Step>, s: Step, o: Offer, item: Item)
    ensures IsDemoted(steps + [s], o, item) <==>
            IsDemoted(steps, o, item) || (s.Demote? && Hits(s.target, o) && item in s.products)
  {
  }

  /** Every run of steps conserves what it does not explicitly demote or write. */
  lemma {:induction false} RunProjects(steps: seq<Step>, offers: seq<Offer>)
    requires Run(steps, offers).Ok?
    ensures |Run(steps, offers).value| == |offers|
    ensures forall i :: 0 <= i < |offers| ==> Projected(steps, offers[i], Run(steps, offers).value[i])
  {
    if steps != [] {
      var n := |steps| - 1;
      RunProjects(steps[..n], offers);
      assert steps[..n] + [steps[n]] == steps;
      var mid := Run(steps[..n], offers).value;
      forall i | 0 <= i < |offers|
        ensures Projected(steps, offers[i], Stepped(mid[i], steps[n]))
      {
        ProjectStep(steps[..n], steps[n], offers[i], mid[i]);
      }
    }
  }

  // ---------- the tables of later records ----------

  /** One SKU of a one-time amendment of an existing offer; proven says its readback is valid. */
  datatype AmendedRow = AmendedRow(pair: Pair, before: Cents, after: Cents, status: Status, proven: bool)
  datatype Amendment = Amendment(offer: string, window: Window, rows: seq<AmendedRow>)

  datatype Change = Change(sku: Sku, before: Cents, after: Cents)

  datatype Stage = Fresh | Dispatched | Verified | Closed

  /** A consume-once revision of one product's amounts after a cost change. */
  datatype CostRevision = CostRevision(stage: Stage, platform: string, window: Window, item: Item, rows: seq<Change>,
                                       later: bool, proven: bool)

  datatype RepairRow = RepairRow(platform: string, pair: Pair, before: Cents, after: Cents, proven: bool)
  datatype SavedRepair = SavedRepair(stage: Stage, window: Window, rows: seq<RepairRow>)

  datatype IncludeClaim = IncludeClaim(stage: Stage, platform: string, window: Window, rows: seq<SavedRow>,
                                       windowExact: bool, saved: map<Pair, Cents>)

  datatype Tables = Tables(amendments: seq<Amendment>, revisions: seq<CostRevision>, repairs: seq<SavedRepair>,
                           inclusions: seq<IncludeClaim>)

  function ItemsOfRows(rows: seq<SavedRow>): set<Item> {
    set r | r in rows :: r.pair.item
  }

  function Each<T>(rows: seq<T>, f: T -> seq<Step>): seq<Step> {
    if rows == [] then [] else Each(rows[..|rows| - 1], f) + f(rows[|rows| - 1])
  }

  function AmendedRowSteps(t: Target, r: AmendedRow): seq<Step> {
    match r.status
    case Unknown => [Amend(t, r.pair, {r.before}, None), Demote(t, {r.pair.item})]
    case Success =>
      if !r.proven then [Amend(t, r.pair, {r.before}, None), Refuse("amend_saved_readback_invalid")]
      else [Amend(t, r.pair, {r.before}, Some(r.after))]
    case Failed =>
      if !r.proven then [Amend(t, r.pair, {r.before}, None), Refuse("amend_saved_readback_invalid")]
      else [Amend(t, r.pair, {r.before}, None)]
  }

  function AmendedRowsSteps(t: Target, rows: seq<AmendedRow>): seq<Step> {
    if rows == [] then [] else AmendedRowsSteps(t, rows[..|rows| - 1]) + AmendedRowSteps(t, rows[|rows| - 1])
  }

  function AmendmentSteps(a: Amendment): seq<Step> {
    var t := ByOffer(a.offer, a.window);
    [Parent(t), Distinct(t)] + AmendedRowsSteps(t, a.rows)
  }

  function OpenRevisionSteps(c: CostRevision): seq<Step> {
    if c.stage == Dispatched then [Demote(ByPlatform(c.platform, c.window), {c.item})] else []
  }

  function SavedRevisionSteps(c: CostRevision): seq<Step> {
    if c.stage != Verified || c.later then []
    else if !c.proven then [Refuse("cost_revision_saved_proof_missing")]
    else ChangeSteps(ByPlatform(c.platform, c.window), c.item, c.rows)
  }

  function ChangeStep(t: Target, item: Item, r: Change): Step {
    Amend(t, Pair(item, r.sku), {r.before}, Some(r.after))
  }

  function ChangeSteps(t: Target, item: Item, rows: seq<Change>): seq<Step> {
    seq(|rows|, i requires 0 <= i < |rows| => ChangeStep(t, item, rows[i]))
  }

  function RepairSteps(s: SavedRepair): seq<Step> {
    if s.stage != Verified then []
    else RepairRowSteps(s.window, s.rows)
  }

  function RepairRowStep(window: Window, r: RepairRow): Step {
    if !r.proven then Refuse("continuous_repair_saved_amount_not_proven")
    else Amend(ByPlatform(r.platform, window), r.pair, {r.before, r.after}, Some(r.after))
  }

  function RepairRowSteps(window: Window, rows: seq<RepairRow>): seq<Step> {
    seq(|rows|, i requires 0 <= i < |rows| => RepairRowStep(window, rows[i]))
  }

  function IncludeSteps(c: IncludeClaim): seq<Step> {
    var t := ByPlatform(c.platform, c.window);
    match c.stage
    case Dispatched => [Parent(t), Demote(t, ItemsOfRows(c.rows))]
    case Verified => [Parent(t), Include(t, Inclusion(c.rows, c.windowExact, c.saved))]
    case _ => []
  }

  /** The rows of all verified repairs, in order. */
  function RepairList(t: Tables): seq<Step> {
    Each(t.repairs, RepairSteps)
  }

  /** The tables laid over the imported offers before any inclusion. */
  function StepsBeforeInclusions(t: Tables): seq<Step> {
    Each(t.amendments, AmendmentSteps) + Each(t.revisions, OpenRevisionSteps) + Each(t.revisions, SavedRevisionSteps)
    + RepairList(t)
  }

  /** The order in which the projection lays the tables over the imported offers. */
  function AllSteps(t: Tables): seq<Step> {
    StepsBeforeInclusions(t) + Each(t.inclusions, IncludeSteps)
  }

  lemma {:induction false} InEach<T>(rows: seq<T>, f: T -> seq<Step>, s: Step)
    ensures s in Each(rows, f) <==> exists r :: r in rows && s in f(r)
  {
    if rows != [] {
      var n := |rows| - 1;
      InEach(rows[..n], f, s);
      assert rows == rows[..n] + [rows[n]];
    }
  }

  // ---------- what the projection may change ----------

  /** A write on this product of this offer that was started and whose outcome is not recorded. */
  ghost predicate IsOpen(t: Tables, o: Offer, item: Item) {
    || (exists a, r :: a in t.amendments && r in a.rows && Hits(ByOffer(a.offer, a.window), o)
                       && r.status == Authority.Status.Unknown && r.pair.item == item)
    || (exists c :: c in t.revisions && c.stage == Dispatched
                    && Hits(ByPlatform(c.platform, c.window), o) && c.item == item)
    || (exists c :: c in t.inclusions && c.stage == Dispatched && Hits(ByPlatform(c.platform, c.window), o)
                    && item in ItemsOfRows(c.rows))
  }

  /** A verified record whose receipt proves this amount for exactly this SKU of this offer. */
  ghost predicate IsVerified(t: Tables, o: Offer, p: Pair, amount: Cents) {
    || (exists a, r :: a in t.amendments && r in a.rows && Hits(ByOffer(a.offer, a.window), o)
                       && r.status == Authority.Status.Success && r.proven && r.pair == p && r.after == amount)
    || (exists c, r :: c in t.revisions && r in c.rows && c.stage == Verified && !c.later && c.proven
                       && Hits(ByPlatform(c.platform, c.window), o) && p == Pair(c.item, r.sku) && r.after == amount)
    || (exists s, r :: s in t.repairs && r in s.rows && s.stage == Verified && r.proven
                       && Hits(ByPlatform(r.platform, s.window), o) && r.pair == p && r.after == amount)
    || (exists c :: c in t.inclusions && c.stage == Verified && Hits(ByPlatform(c.platform, c.window), o)
                    && AmountOf(c.rows, p) == Some(amount))
  }

  lemma InSnoc<T>(s: seq<T>, last: T, x: T)
    ensures x in s + [last] <==> x in s || x == last
  {
  }

  lemma {:induction false} InAmendedRows(t: Target, rows: seq<AmendedRow>, s: Step)
    ensures s in AmendedRowsSteps(t, rows) <==> exists r :: r in rows && s in AmendedRowSteps(t, r)
  {
    if rows != [] {
      hide AmendedRowSteps;
      var n := |rows| - 1;
      InAmendedRows(t, rows[..n], s);
      assert rows == rows[..n] + [rows[n]];
      assert s in AmendedRowsSteps(t, rows) <==>
           s in AmendedRowsSteps(t, rows[..n]) || s in AmendedRowSteps(t, rows[n]);
      if r :| r in rows && s in AmendedRowSteps(t, r) {
        InSnoc(rows[..n], rows[n], r);
      }
    }
  }

  lemma InChanges(t: Target, item: Item, rows: seq<Change>, s: Step)
    ensures s in ChangeSteps(t, item, rows) <==> exists r :: r in rows && s == ChangeStep(t, item, r)
  {
    hide ChangeStep;
    var steps := ChangeSteps(t, item, rows);
    if k :| 0 <= k < |steps| && steps[k] == s {
      assert rows[k] in rows;
    }
    if r :| r in rows && s == ChangeStep(t, item, r) {
      var k :| 0 <= k < |rows| && rows[k] == r;
      assert steps[k] == s;
    }
  }

  lemma InRepairRows(window: Window, rows: seq<RepairRow>, s: Step)
    ensures s in RepairRowSteps(window, rows) <==> exists r :: r in rows && s == RepairRowStep(window, r)
  {
    hide RepairRowStep;
    var steps := RepairRowSteps(window, rows);
    if k :| 0 <= k < |steps| && steps[k] == s {
      assert rows[k] in rows;
    }
    if r :| r in rows && s == RepairRowStep(window, r) {
      var k :| 0 <= k < |rows| && rows[k] == r;
      assert steps[k] == s;
    }
  }

  lemma StepOrigin(t: Tables, s: Step)
    ensures s in AllSteps(t) <==>
            || (exists a :: a in t.amendments && s in AmendmentSteps(a))
            || (exists c :: c in t.revisions && s in OpenRevisionSteps(c))
            || (exists c :: c in t.revisions && s in SavedRevisionSteps(c))
            || (exists r :: r in t.repairs && s in RepairSteps(r))
            || (exists c :: c in t.inclusions && s in IncludeSteps(c))
  {
    InEach(t.amendments, AmendmentSteps, s);
    InEach(t.revisions, OpenRevisionSteps, s);
    InEach(t.revisions, SavedRevisionSteps, s);
    InEach(t.repairs, RepairSteps, s);
    InEach(t.inclusions, IncludeSteps, s);
  }

  ghost predicate AmendmentOpen(a: Amendment, o: Offer, item: Item) {
    Hits(ByOffer(a.offer, a.window), o)
    && exists r :: r in a.rows && r.status == Authority.Status.Unknown && r.pair.item == item
  }

  lemma DemotionHasRow(a: Amendment, o: Offer, item: Item)
    requires IsDemoted(AmendmentSteps(a), o, item)
    ensures AmendmentOpen(a, o, item)
  {
    hide Hits;
    var t := ByOffer(a.offer, a.window);
    var s :| s in AmendmentSteps(a) && s.Demote? && Hits(s.target, o) && item in s.products;
    assert s in AmendedRowsSteps(t, a.rows);
    InAmendedRows(t, a.rows, s);
    var r :| r in a.rows && s in AmendedRowSteps(t, r);
    assert s == Demote(t, {r.pair.item}) && r.status == Authority.Status.Unknown;
  }

  lemma OpenRowDemotes(a: Amendment, o: Offer, item: Item)
    requires AmendmentOpen(a, o, item)
    ensures IsDemoted(AmendmentSteps(a), o, item)
  {
    var t := ByOffer(a.offer, a.window);
    var r :| r in a.rows && r.status == Authority.Status.Unknown && r.pair.item == item;
    assert Demote(t, {item}) in AmendedRowSteps(t, r);
    InAmendedRows(t, a.rows, Demote(t, {item}));
  }

  /** Only the three demoting tables contain demotions, each exactly for its open records. */
  lemma AmendmentDemotes(a: Amendment, o: Offer, item: Item)
    ensures IsDemoted(AmendmentSteps(a), o, item) <==> AmendmentOpen(a, o, item)
  {
    hide AmendmentSteps, IsDemoted, AmendmentOpen;
    if IsDemoted(AmendmentSteps(a), o, item) {
      DemotionHasRow(a, o, item);
    } else if AmendmentOpen(a, o, item) {
      OpenRowDemotes(a, o, item);
    }
  }

  lemma NoDemotion(t: Tables, s: Step)
    ensures forall c :: c in t.revisions && s in SavedRevisionSteps(c) ==> !s.Demote?
    ensures forall r :: r in t.repairs && s in RepairSteps(r) ==> !s.Demote?
  {
    forall c | c in t.revisions && s in SavedRevisionSteps(c) ensures !s.Demote? {
      InChanges(ByPlatform(c.platform, c.window), c.item, c.rows, s);
    }
    forall r | r in t.repairs && s in RepairSteps(r) ensures !s.Demote? {
      InRepairRows(r.window, r.rows, s);
    }
  }

  lemma OpenIsDemoted(t: Tables, o: Offer, item: Item)
    requires IsOpen(t, o, item)
    ensures IsDemoted(AllSteps(t), o, item)
  {
    if c :| c in t.revisions && c.stage == Dispatched && Hits(ByPlatform(c.platform, c.window), o) && c.item == item {
      StepOrigin(t, Demote(ByPlatform(c.platform, c.window), {c.item}));
    } else if c :| c in t.inclusions && c.stage == Dispatched && Hits(ByPlatform(c.platform, c.window), o)
                   && item in ItemsOfRows(c.rows) {
      StepOrigin(t, Demote(ByPlatform(c.platform, c.window), ItemsOfRows(c.rows)));
    } else {
      var a, r :| a in t.amendments && r in a.rows && Hits(ByOffer(a.offer, a.window), o)
                  && r.status == Authority.Status.Unknown && r.pair.item == item;
      AmendmentDemotes(a, o, item);
      var s :| s in AmendmentSteps(a) && s.Demote? && Hits(s.target, o) && item in s.products;
      StepOrigin(t, s);
    }
  }

  lemma DemotedIsOpen(t: Tables, o: Offer, item: Item)
    requires IsDemoted(AllSteps(t), o, item)
    ensures IsOpen(t, o, item)
  {
    hide AllSteps, AmendmentSteps, OpenRevisionSteps, SavedRevisionSteps, RepairSteps, IncludeSteps, IsOpen;
    var s :| s in AllSteps(t) && s.Demote? && Hits(s.target, o) && item in s.products;
    StepOrigin(t, s);
    NoDemotion(t, s);
    if a :| a in t.amendments && s in AmendmentSteps(a) {
      AmendmentDemotes(a, o, item);
      OpenAmendmentIsOpen(t, a, o, item);
    } else if c :| c in t.revisions && s in OpenRevisionSteps(c) {
      OpenRevisionIsOpen(t, c, s, o, item);
    } else {
      var c :| c in t.inclusions && s in IncludeSteps(c);
      OpenInclusionIsOpen(t, c, s, o, item);
    }
  }

  lemma OpenAmendmentIsOpen(t: Tables, a: Amendment, o: Offer, item: Item)
    requires a in t.amendments && AmendmentOpen(a, o, item)
    ensures IsOpen(t, o, item)
  {
  }

  lemma OpenRevisionIsOpen(t: Tables, c: CostRevision, s: Step, o: Offer, item: Item)
    requires c in t.revisions && s in OpenRevisionSteps(c) && s.Demote? && Hits(s.target, o) && item in s.products
    ensures IsOpen(t, o, item)
  {
  }

  lemma OpenInclusionIsOpen(t: Tables, c: IncludeClaim, s: Step, o: Offer, item: Item)
    requires c in t.inclusions && s in IncludeSteps(c) && s.Demote? && Hits(s.target, o) && item in s.products
    ensures IsOpen(t, o, item)
  {
  }

  lemma {:induction false} LastWrittenIsWritten(steps: seq<Step>, o: Offer, p: Pair)
    returns (s: Step)
    requires LastWritten(steps, o, p) != AmountOf(o.rows, p)
    ensures s in steps && Writes(s, o, p).Some? && Writes(s, o, p) == LastWritten(steps, o, p)
  {
    var n := |steps| - 1;
    if LastWritten(steps, o, p) == Writes(steps[n], o, p) && Writes(steps[n], o, p).Some? {
      s := steps[n];
    } else {
      s := LastWrittenIsWritten(steps[..n], o, p);
    }
  }

  lemma AmendmentWrites(t: Tables, a: Amendment, s: Step, o: Offer, p: Pair)
    requires a in t.amendments && s in AmendmentSteps(a) && Writes(s, o, p).Some?
    ensures IsVerified(t, o, p, Writes(s, o, p).value)
  {
    InAmendedRows(ByOffer(a.offer, a.window), a.rows, s);
    var r :| r in a.rows && s in AmendedRowSteps(ByOffer(a.offer, a.window), r);
    assert r.status == Authority.Status.Success && r.proven;
  }

  lemma RevisionWrites(t: Tables, c: CostRevision, s: Step, o: Offer, p: Pair)
    requires c in t.revisions && s in SavedRevisionSteps(c) && Writes(s, o, p).Some?
    ensures IsVerified(t, o, p, Writes(s, o, p).value)
  {
    InChanges(ByPlatform(c.platform, c.window), c.item, c.rows, s);
  }

  lemma RepairWrites(t: Tables, r: SavedRepair, s: Step, o: Offer, p: Pair)
    requires r in t.repairs && s in RepairSteps(r) && Writes(s, o, p).Some?
    ensures IsVerified(t, o, p, Writes(s, o, p).value)
  {
    InRepairRows(r.window, r.rows, s);
  }

  lemma InclusionWrites(t: Tables, c: IncludeClaim, s: Step, o: Offer, p: Pair)
    requires c in t.inclusions && s in IncludeSteps(c) && Writes(s, o, p).Some?
    ensures IsVerified(t, o, p, Writes(s, o, p).value)
  {
  }

  lemma WriteIsVerified(t: Tables, s: Step, o: Offer, p: Pair)
    requires s in AllSteps(t) && Writes(s, o, p).Some?
    ensures IsVerified(t, o, p, Writes(s, o, p).value)
  {
    hide IsVerified, Writes, AmendmentSteps, SavedRevisionSteps, OpenRevisionSteps, RepairSteps, IncludeSteps;
    StepOrigin(t, s);
    if a :| a in t.amendments && s in AmendmentSteps(a) {
      AmendmentWrites(t, a, s, o, p);
    } else if c :| c in t.revisions && s in SavedRevisionSteps(c) {
      RevisionWrites(t, c, s, o, p);
    } else if r :| r in t.repairs && s in RepairSteps(r) {
      RepairWrites(t, r, s, o, p);
    } else if c :| c in t.inclusions && s in IncludeSteps(c) {
      InclusionWrites(t, c, s, o, p);
    } else {
      OpenRevisionWritesNothing(t, s, o, p);
    }
  }

  lemma OpenRevisionWritesNothing(t: Tables, s: Step, o: Offer, p: Pair)
    ensures forall c :: c in t.revisions && s in OpenRevisionSteps(c) ==> Writes(s, o, p).None?
  {
  }

  /**
   * The projection is conservative, whatever the tables hold. Every offer keeps its identity,
   * window and products. A product's status is the imported one unless a write on it is still
   * open, and then it is unknown: nothing is ever promoted, and an open repair of a running
   * campaign does not demote. An amount differs from the imported one only where a verified
   * record proves exactly this amount for exactly this SKU, and it is the last one written.
   */
  lemma ProjectionIsConservative(t: Tables, offers: seq<Offer>, i: nat)
    requires Run(AllSteps(t), offers).Ok? && i < |offers|
    ensures |Run(AllSteps(t), offers).value| == |offers|
    ensures var before, after := offers[i], Run(AllSteps(t), offers).value[i];
            && after.id == before.id && after.platform == before.platform && after.window == before.window
            && after.items.Keys == before.items.Keys
            && (forall item :: item in before.items ==>
                  after.items[item] == if IsOpen(t, before, item) then Authority.Status.Unknown else before.items[item])
            && (forall p :: AmountOf(after.rows, p) == LastWritten(AllSteps(t), before, p))
            && (forall p :: AmountOf(after.rows, p) != AmountOf(before.rows, p) ==>
                  AmountOf(after.rows, p).Some? && IsVerified(t, before, p, AmountOf(after.rows, p).value))
  {
    RunProjects(AllSteps(t), offers);
    var before, after := offers[i], Run(AllSteps(t), offers).value[i];
    forall item | item in before.items
      ensures IsDemoted(AllSteps(t), before, item) <==> IsOpen(t, before, item)
    {
      if IsOpen(t, before, item) {
        OpenIsDemoted(t, before, item);
      } else if IsDemoted(AllSteps(t), before, item) {
        DemotedIsOpen(t, before, item);
      }
    }
    forall p | AmountOf(after.rows, p) != AmountOf(before.rows, p)
      ensures AmountOf(after.rows, p).Some? && IsVerified(t, before, p, AmountOf(after.rows, p).value)
    {
      var s := LastWrittenIsWritten(AllSteps(t), before, p);
      WriteIsVerified(t, s, before, p);
    }
  }

  lemma {:induction false} RunStops(steps: seq<Step>, k: nat, offers: seq<Offer>)
    requires k <= |steps| && Run(steps[..k], offers).Err?
    ensures Run(steps, offers) == Run(steps[..k], offers)
    decreases |steps| - k
  {
    if k == |steps| {
      assert steps[..k] == steps;
    } else {
      assert steps[..k + 1][..k] == steps[..k];
      RunStops(steps, k + 1, offers);
    }
  }

  lemma PrefixRuns(steps: seq<Step>, k: nat, offers: seq<Offer>)
    requires k <= |steps| && Run(steps, offers).Ok?
    ensures Run(steps[..k], offers).Ok?
  {
    if Run(steps[..k], offers).Err? {
      RunStops(steps, k, offers);
    }
  }

  // ---------- what the order of the tables means for repairs ----------

  predicate Adds(s: Step) { s.Include? }

  lemma {:induction false} StepKeepsRowHits(offers: seq<Offer>, s: Step, t: Target, p: Pair)
    requires !Adds(s)
    ensures RowHits(SteppedAll(offers, s), t, p) == RowHits(offers, t, p)
  {
    if offers != [] {
      var n := |offers| - 1;
      StepKeepsRowHits(offers[..n], s, t, p);
      assert SteppedAll(offers, s)[..n] == SteppedAll(offers[..n], s);
      if s.Amend? && s.amount.Some? {
        OverwriteAmounts(offers[n].rows, s.pair, s.amount.value, p);
      }
    }
  }

  lemma {:induction false} RunKeepsRowHits(steps: seq<Step>, offers: seq<Offer>, t: Target, p: Pair)
    requires Run(steps, offers).Ok? && forall s :: s in steps ==> !Adds(s)
    ensures RowHits(Run(steps, offers).value, t, p) == RowHits(offers, t, p)
  {
    if steps != [] {
      var n := |steps| - 1;
      RunKeepsRowHits(steps[..n], offers, t, p);
      StepKeepsRowHits(Run(steps[..n], offers).value, steps[n], t, p);
    }
  }

  lemma AmendmentAddsNothing(a: Amendment, s: Step)
    requires s in AmendmentSteps(a)
    ensures !Adds(s)
  {
    InAmendedRows(ByOffer(a.offer, a.window), a.rows, s);
  }

  lemma RevisionAddsNothing(c: CostRevision, s: Step)
    requires s in OpenRevisionSteps(c) || s in SavedRevisionSteps(c)
    ensures !Adds(s)
  {
    InChanges(ByPlatform(c.platform, c.window), c.item, c.rows, s);
  }

  lemma RepairAddsNothing(r: SavedRepair, s: Step)
    requires s in RepairSteps(r)
    ensures !Adds(s)
  {
    InRepairRows(r.window, r.rows, s);
  }

  lemma NothingAddedBefore(t: Tables, s: Step)
    requires s in StepsBeforeInclusions(t)
    ensures !Adds(s)
  {
    InEach(t.amendments, AmendmentSteps, s);
    InEach(t.revisions, OpenRevisionSteps, s);
    InEach(t.revisions, SavedRevisionSteps, s);
    InEach(t.repairs, RepairSteps, s);
    if a :| a in t.amendments && s in AmendmentSteps(a) {
      AmendmentAddsNothing(a, s);
    } else if c :| c in t.revisions && (s in OpenRevisionSteps(c) || s in SavedRevisionSteps(c)) {
      RevisionAddsNothing(c, s);
    } else {
      var r :| r in t.repairs && s in RepairSteps(r);
      RepairAddsNothing(r, s);
    }
  }

  lemma RepairStepListed(t: Tables, r: SavedRepair, row: RepairRow)
    requires r in t.repairs && r.stage == Verified && row in r.rows
    ensures RepairRowStep(r.window, row) in StepsBeforeInclusions(t)
  {
    InRepairRows(r.window, r.rows, RepairRowStep(r.window, row));
    InEach(t.repairs, RepairSteps, RepairRowStep(r.window, row));
  }

  /**
   * Repairs are laid over the offers before inclusions. A verified repair is therefore
   * projected only onto a SKU that exactly one imported offer already has; a repair of a SKU
   * that only an inclusion added makes the whole projection refuse.
   */
  lemma RepairsNeedImportedRows(t: Tables, offers: seq<Offer>, r: SavedRepair, row: RepairRow)
    requires r in t.repairs && r.stage == Verified && row in r.rows
    requires RowHits(offers, ByPlatform(row.platform, r.window), row.pair) != 1
    ensures Run(AllSteps(t), offers).Err?
  {
    var early, s := StepsBeforeInclusions(t), RepairRowStep(r.window, row);
    assert AllSteps(t) == early + Each(t.inclusions, IncludeSteps);
    RunConcat(early, Each(t.inclusions, IncludeSteps), offers);
    RepairStepListed(t, r, row);
    var k :| 0 <= k < |early| && early[k] == s;
    forall x | x in early[..k] ensures !Adds(x) {
      NothingAddedBefore(t, x);
    }
    if Run(early, offers).Ok? {
      RowHitsAt(early, k, offers, ByPlatform(row.platform, r.window), row.pair);
    }
  }

  /** Until something is added, an amendment meets the rows that were imported. */
  lemma RowHitsAt(steps: seq<Step>, k: nat, offers: seq<Offer>, t: Target, p: Pair)
    requires k < |steps| && Run(steps, offers).Ok? && forall s :: s in steps[..k] ==> !Adds(s)
    ensures !steps[k].Refuse?
    ensures steps[k].Amend? && steps[k].target == t && steps[k].pair == p ==> RowHits(offers, t, p) == 1
  {
    PrefixRuns(steps, k + 1, offers);
    assert steps[..k + 1][..k] == steps[..k];
    RunKeepsRowHits(steps[..k], offers, t, p);
  }

  // ---------- when a run of steps succeeds ----------

  /** What a step needs of the offers as they were, whatever the steps before it wrote. */
  ghost predicate RowFits(offers: seq<Offer>, s: Step) {
    match s
    case Parent(t) => HitCount(offers, t) == 1
    case Distinct(t) => forall o :: o in offers && Hits(t, o) ==> o.rows != [] && DistinctPairs(o.rows)
    case Amend(t, p, _, _) => RowHits(offers, t, p) == 1
    case Refuse(_) => false
    case _ => true
  }

  /** The amount that the steps before an amendment left for its SKU is one that it expects. */
  ghost predicate OldAmountFits(offers: seq<Offer>, steps: seq<Step>, k: nat)
    requires k < |steps|
  {
    var s := steps[k];
    s.Amend? ==>
      forall i :: 0 <= i < |offers| && Hits(s.target, offers[i]) && LastWritten(steps[..k], offers[i], s.pair).Some? ==>
                    LastWritten(steps[..k], offers[i], s.pair).value in s.expected
  }

  /** Nothing is added before a step that looks at saved rows. */
  ghost predicate AddsLate(steps: seq<Step>) {
    forall j, k :: 0 <= j < k < |steps| && Adds(steps[j]) ==> !steps[k].Amend? && !steps[k].Distinct?
  }

  ghost predicate SamePairs(a: Offer, b: Offer) {
    && b.id == a.id && b.platform == a.platform && b.window == a.window && |b.rows| == |a.rows|
    && forall j :: 0 <= j < |a.rows| ==> b.rows[j].pair == a.rows[j].pair
  }

  lemma {:induction false} OverwriteKeepsPairs(rows: seq<SavedRow>, p: Pair, amount: Cents)
    ensures forall j :: 0 <= j < |rows| ==> Overwrite(rows, p, amount)[j].pair == rows[j].pair
  {
    if rows != [] {
      OverwriteKeepsPairs(rows[..|rows| - 1], p, amount);
    }
  }

  lemma StepKeepsPairs(o: Offer, s: Step)
    requires !Adds(s)
    ensures SamePairs(o, Stepped(o, s))
  {
    if s.Amend? && s.amount.Some? {
      OverwriteKeepsPairs(o.rows, s.pair, s.amount.value);
    }
  }

  lemma {:induction false} RunKeepsPairs(steps: seq<Step>, offers: seq<Offer>)
    requires Run(steps, offers).Ok? && forall s :: s in steps ==> !Adds(s)
    ensures |Run(steps, offers).value| == |offers|
    ensures forall i :: 0 <= i < |offers| ==> SamePairs(offers[i], Run(steps, offers).value[i])
  {
    if steps != [] {
      var n := |steps| - 1;
      RunKeepsPairs(steps[..n], offers);
      var mid := Run(steps[..n], offers).value;
      forall i | 0 <= i < |offers| ensures SamePairs(offers[i], Stepped(mid[i], steps[n])) {
        StepKeepsPairs(mid[i], steps[n]);
      }
    }
  }

  lemma {:induction false} SameHits(a: seq<Offer>, b: seq<Offer>, t: Target)
    requires |a| == |b| && forall i :: 0 <= i < |a| ==> Hits(t, a[i]) == Hits(t, b[i])
    ensures HitCount(a, t) == HitCount(b, t)
  {
    if a != [] {
      var n := |a| - 1;
      SameHits(a[..n], b[..n], t);
    }
  }

  /** The distinct rows of an offer are those it was imported with. */
  lemma DistinctStays(a: seq<Offer>, b: seq<Offer>, t: Target)
    requires |a| == |b| && forall i :: 0 <= i < |a| ==> SamePairs(a[i], b[i])
    ensures RowFits(a, Distinct(t)) <==> Refusal(b, Distinct(t)).None?
  {
    forall i | 0 <= i < |a|
      ensures Hits(t, a[i]) == Hits(t, b[i]) && (a[i].rows == [] <==> b[i].rows == [])
      ensures DistinctPairs(a[i].rows) <==> DistinctPairs(b[i].rows)
    {
      assert SamePairs(a[i], b[i]);
    }
  }

  lemma AmendFitsNow(offers: seq<Offer>, steps: seq<Step>, k: nat)
    requires k < |steps| && steps[k].Amend? && Run(steps[..k], offers).Ok? && forall s :: s in steps[..k] ==> !Adds(s)
    ensures RowFits(offers, steps[k]) && OldAmountFits(offers, steps, k)
            <==> Refusal(Run(steps[..k], offers).value, steps[k]).None?
  {
    hide LastWritten;
    var now, s := Run(steps[..k], offers).value, steps[k];
    RunProjects(steps[..k], offers);
    RunKeepsRowHits(steps[..k], offers, s.target, s.pair);
    forall i | 0 <= i < |offers|
      ensures Hits(s.target, now[i]) == Hits(s.target, offers[i])
      ensures AmountOf(now[i].rows, s.pair) == LastWritten(steps[..k], offers[i], s.pair)
    {
      assert Projected(steps[..k], offers[i], now[i]);
    }
  }

  /** Whether a step is refused can be told from the offers as they were and the earlier steps. */
  lemma StepFitsNow(offers: seq<Offer>, steps: seq<Step>, k: nat)
    requires k < |steps| && Run(steps[..k], offers).Ok? && AddsLate(steps)
    ensures RowFits(offers, steps[k]) && OldAmountFits(offers, steps, k)
            <==> Refusal(Run(steps[..k], offers).value, steps[k]).None?
  {
    hide Refusal, RowFits, OldAmountFits;
    var now, s := Run(steps[..k], offers).value, steps[k];
    if s.Amend? || s.Distinct? {
      forall x | x in steps[..k] ensures !Adds(x) {
        var j :| 0 <= j < k && steps[j] == x;
      }
    }
    RunProjects(steps[..k], offers);
    match s {
      case Amend(_, _, _, _) => AmendFitsNow(offers, steps, k);
      case Distinct(t) =>
        RunKeepsPairs(steps[..k], offers);
        DistinctStays(offers, now, t);
        NoAmountNeeded(offers, now, steps, k);
      case Parent(t) => ParentFitsNow(offers, now, steps, k);
      case _ => NoAmountNeeded(offers, now, steps, k);
    }
  }

  lemma NoAmountNeeded(offers: seq<Offer>, now: seq<Offer>, steps: seq<Step>, k: nat)
    requires k < |steps| && !steps[k].Amend?
    ensures OldAmountFits(offers, steps, k)
    ensures !steps[k].Distinct? && !steps[k].Parent? ==> (RowFits(offers, steps[k]) <==> Refusal(now, steps[k]).None?)
  {
  }

  lemma ParentFitsNow(offers: seq<Offer>, now: seq<Offer>, steps: seq<Step>, k: nat)
    requires k < |steps| && steps[k].Parent? && |now| == |offers|
    requires forall i :: 0 <= i < |offers| ==> Projected(steps[..k], offers[i], now[i])
    ensures OldAmountFits(offers, steps, k) && (RowFits(offers, steps[k]) <==> Refusal(now, steps[k]).None?)
  {
    forall i | 0 <= i < |offers| ensures Hits(steps[k].target, now[i]) == Hits(steps[k].target, offers[i]) {
      assert Projected(steps[..k], offers[i], now[i]);
    }
    SameHits(offers, now, steps[k].target);
  }

  /** A run succeeds if and only if each of its steps finds what it needs in the offers as they were. */
  lemma {:induction false} RunsExactly(offers: seq<Offer>, steps: seq<Step>, n: nat)
    requires n <= |steps| && AddsLate(steps)
    ensures Run(steps[..n], offers).Ok?
            <==> forall k :: 0 <= k < n ==> RowFits(offers, steps[k]) && OldAmountFits(offers, steps, k)
  {
    hide Refusal, RowFits, OldAmountFits;
    if n > 0 {
      RunsExactly(offers, steps, n - 1);
      assert steps[..n][..n - 1] == steps[..n - 1];
      if Run(steps[..n - 1], offers).Ok? {
        StepFitsNow(offers, steps, n - 1);
      }
    }
  }

  lemma RepairStepsAmend(t: Tables, s: Step)
    requires s in RepairList(t)
    ensures s.Amend? || s.Refuse?
  {
    InEach(t.repairs, RepairSteps, s);
    var r :| r in t.repairs && s in RepairSteps(r);
    InRepairRows(r.window, r.rows, s);
  }

  /**
   * Given that the amendments and revisions can be projected, the verified repairs can be too if
   * and only if each of their rows, in order, is proven, finds exactly one imported row for its
   * SKU, and there its old amount or already its new one.
   */
  lemma RepairsProjectExactly(t: Tables, offers: seq<Offer>, mid: seq<Offer>)
    requires Run(StepsBeforeInclusions(t.(repairs := [])), offers) == Ok(mid)
    ensures var steps := RepairList(t);
            && (Run(StepsBeforeInclusions(t), offers).Ok?
                <==> forall k :: 0 <= k < |steps| ==> RowFits(mid, steps[k]) && OldAmountFits(mid, steps, k))
            && forall target, p :: RowHits(mid, target, p) == RowHits(offers, target, p)
  {
    hide RowFits, OldAmountFits;
    var early, steps := StepsBeforeInclusions(t.(repairs := [])), RepairList(t);
    var all := StepsBeforeInclusions(t);
    assert all == early + steps;
    RunConcat(early, steps, offers);
    assert Run(all, offers) == Run(steps, mid);
    forall s | s in steps ensures s.Amend? || s.Refuse? {
      RepairStepsAmend(t, s);
    }
    forall j | 0 <= j < |steps| ensures !Adds(steps[j]) {
      assert steps[j] in steps;
    }
    assert steps[..|steps|] == steps;
    RunsExactly(mid, steps, |steps|);
    SameRowsBefore(t, offers, mid);
  }

  lemma SameRowsBefore(t: Tables, offers: seq<Offer>, mid: seq<Offer>)
    requires Run(StepsBeforeInclusions(t.(repairs := [])), offers) == Ok(mid)
    ensures forall target, p :: RowHits(mid, target, p) == RowHits(offers, target, p)
  {
    var early := StepsBeforeInclusions(t.(repairs := []));
    forall s | s in early ensures !Adds(s) {
      NothingAddedBefore(t.(repairs := []), s);
    }
    forall target, p ensures RowHits(mid, target, p) == RowHits(offers, target, p) {
      RunKeepsRowHits(early, offers, target, p);
    }
  }

  // ---------- when the whole projection succeeds ----------

  /** One offer is meant, its imported rows are distinct, and every row of the record has one and its evidence. */
  ghost predicate AmendmentFits(offers: seq<Offer>, a: Amendment) {
    var t := ByOffer(a.offer, a.window);
    && HitCount(offers, t) == 1 && (forall o :: o in offers && Hits(t, o) ==> o.rows != [] && DistinctPairs(o.rows))
    && forall r :: r in a.rows ==> RowHits(offers, t, r.pair) == 1 && (r.status == Authority.Status.Unknown || r.proven)
  }

  ghost predicate RevisionFits(offers: seq<Offer>, c: CostRevision) {
    c.stage == Verified && !c.later ==>
      c.proven
      && forall r :: r in c.rows ==> RowHits(offers, ByPlatform(c.platform, c.window), Pair(c.item, r.sku)) == 1
  }

  ghost predicate RepairFits(offers: seq<Offer>, s: SavedRepair) {
    s.stage == Verified ==>
      forall r :: r in s.rows ==> r.proven && RowHits(offers, ByPlatform(r.platform, s.window), r.pair) == 1
  }

  ghost predicate InclusionFits(offers: seq<Offer>, c: IncludeClaim) {
    c.stage == Dispatched || c.stage == Verified ==> HitCount(offers, ByPlatform(c.platform, c.window)) == 1
  }

  /** Every record is proven and finds its imported rows; a row that only an inclusion added is none. */
  ghost predicate TablesFit(offers: seq<Offer>, t: Tables) {
    && (forall a :: a in t.amendments ==> AmendmentFits(offers, a))
    && (forall c :: c in t.revisions ==> RevisionFits(offers, c))
    && (forall s :: s in t.repairs ==> RepairFits(offers, s))
    && (forall c :: c in t.inclusions ==> InclusionFits(offers, c))
  }

  ghost predicate AllFit(offers: seq<Offer>, steps: seq<Step>) {
    forall s :: s in steps ==> RowFits(offers, s)
  }

  lemma AmendedRowFits(offers: seq<Offer>, t: Target, r: AmendedRow)
    ensures AllFit(offers, AmendedRowSteps(t, r))
            <==> RowHits(offers, t, r.pair) == 1 && (r.status == Authority.Status.Unknown || r.proven)
  {
    var steps := AmendedRowSteps(t, r);
    assert steps[0] in steps && steps[|steps| - 1] in steps;
  }

  lemma AmendmentFitsExactly(offers: seq<Offer>, a: Amendment)
    ensures AllFit(offers, AmendmentSteps(a)) <==> AmendmentFits(offers, a)
  {
    hide AmendedRowSteps, Hits;
    var t, steps := ByOffer(a.offer, a.window), AmendmentSteps(a);
    var rows := AmendedRowsSteps(t, a.rows);
    assert steps[0] in steps && steps[1] in steps;
    assert forall s :: s in steps <==> s == Parent(t) || s == Distinct(t) || s in rows;
    AmendedRowsFit(offers, t, a.rows);
  }

  lemma AmendedRowsFit(offers: seq<Offer>, t: Target, rows: seq<AmendedRow>)
    ensures AllFit(offers, AmendedRowsSteps(t, rows))
            <==> forall r :: r in rows ==>
                   RowHits(offers, t, r.pair) == 1 && (r.status == Authority.Status.Unknown || r.proven)
  {
    hide AmendedRowSteps, RowFits;
    forall r | r in rows
      ensures AllFit(offers, AmendedRowSteps(t, r))
              <==> RowHits(offers, t, r.pair) == 1 && (r.status == Authority.Status.Unknown || r.proven)
    {
      AmendedRowFits(offers, t, r);
    }
    forall s ensures s in AmendedRowsSteps(t, rows) <==> exists r :: r in rows && s in AmendedRowSteps(t, r) {
      InAmendedRows(t, rows, s);
    }
  }

  lemma RevisionFitsExactly(offers: seq<Offer>, c: CostRevision)
    ensures AllFit(offers, SavedRevisionSteps(c)) <==> RevisionFits(offers, c)
    ensures AllFit(offers, OpenRevisionSteps(c))
  {
    var t, steps := ByPlatform(c.platform, c.window), SavedRevisionSteps(c);
    if c.stage == Verified && !c.later && c.proven {
      forall s ensures s in steps <==> exists r :: r in c.rows && s == ChangeStep(t, c.item, r) {
        InChanges(t, c.item, c.rows, s);
      }
      forall r | r in c.rows
        ensures RowFits(offers, ChangeStep(t, c.item, r)) <==> RowHits(offers, t, Pair(c.item, r.sku)) == 1
      {
      }
    } else if c.stage == Verified && !c.later {
      assert steps[0] in steps;
    }
  }

  lemma RepairFitsExactly(offers: seq<Offer>, s: SavedRepair)
    ensures AllFit(offers, RepairSteps(s)) <==> RepairFits(offers, s)
  {
    if s.stage == Verified {
      forall x ensures x in RepairSteps(s) <==> exists r :: r in s.rows && x == RepairRowStep(s.window, r) {
        InRepairRows(s.window, s.rows, x);
      }
      forall r | r in s.rows
        ensures RowFits(offers, RepairRowStep(s.window, r))
                <==> r.proven && RowHits(offers, ByPlatform(r.platform, s.window), r.pair) == 1
      {
      }
    }
  }

  lemma InclusionFitsExactly(offers: seq<Offer>, c: IncludeClaim)
    ensures AllFit(offers, IncludeSteps(c)) <==> InclusionFits(offers, c)
  {
    var steps := IncludeSteps(c);
    assert steps != [] ==> steps[0] in steps;
  }

  lemma TablesFitExactly(offers: seq<Offer>, t: Tables)
    ensures AllFit(offers, AllSteps(t)) <==> TablesFit(offers, t)
  {
    hide AllSteps, AmendmentSteps, SavedRevisionSteps, OpenRevisionSteps, RepairSteps, IncludeSteps, RowFits;
    hide AmendmentFits, RevisionFits, RepairFits, InclusionFits;
    forall s {
      StepOrigin(t, s);
    }
    forall a | a in t.amendments {
      AmendmentFitsExactly(offers, a);
    }
    forall c | c in t.revisions {
      RevisionFitsExactly(offers, c);
    }
    forall r | r in t.repairs {
      RepairFitsExactly(offers, r);
    }
    forall c | c in t.inclusions {
      InclusionFitsExactly(offers, c);
    }
  }

  lemma InclusionsAmendNothing(t: Tables, s: Step)
    requires s in Each(t.inclusions, IncludeSteps)
    ensures !s.Amend? && !s.Distinct?
  {
    InEach(t.inclusions, IncludeSteps, s);
  }

  lemma AllStepsAddLate(t: Tables)
    ensures AddsLate(AllSteps(t))
  {
    hide Each;
    var early, late := StepsBeforeInclusions(t), Each(t.inclusions, IncludeSteps);
    var steps := AllSteps(t);
    assert steps == early + late;
    forall j, k | 0 <= j < k < |steps| && Adds(steps[j]) ensures !steps[k].Amend? && !steps[k].Distinct? {
      if j < |early| {
        NothingAddedBefore(t, steps[j]);
        assert false;
      } else {
        InclusionsAmendNothing(t, steps[k]);
      }
    }
  }

  /**
   * The whole projection succeeds if and only if every record is proven and finds its offer and its
   * rows among the imported ones, and the amount that the records before it left for its SKU, or
   * else the imported one, is what it calls the old amount; a repair may also find its new amount.
   */
  lemma ProjectsExactly(t: Tables, offers: seq<Offer>)
    ensures var steps := AllSteps(t);
            Run(steps, offers).Ok?
            <==> TablesFit(offers, t) && forall k :: 0 <= k < |steps| ==> OldAmountFits(offers, steps, k)
  {
    hide AllSteps, TablesFit, RowFits, OldAmountFits, AddsLate;
    var steps := AllSteps(t);
    AllStepsAddLate(t);
    assert steps[..|steps|] == steps;
    RunsExactly(offers, steps, |steps|);
    TablesFitExactly(offers, t);
  }

  lemma OneRepairStep(t: Tables, r: SavedRepair, row: RepairRow)
    requires t.repairs == [r] && r.stage == Verified && r.rows == [row]
    ensures RepairList(t) == [RepairRowStep(r.window, row)]
  {
    OneInEach(r, RepairSteps);
  }

  lemma OneInEach<T>(r: T, f: T -> seq<Step>)
    ensures Each([r], f) == f(r)
  {
    assert [r][..0] == [] && Each([r][..0], f) == [];
  }

  /** For a single row: proven, exactly one imported row, and there the old or the new amount. */
  lemma OneRepairProjects(t: Tables, offers: seq<Offer>, mid: seq<Offer>, r: SavedRepair, row: RepairRow)
    requires t.repairs == [r] && r.stage == Verified && r.rows == [row]
    requires Run(StepsBeforeInclusions(t.(repairs := [])), offers) == Ok(mid)
    ensures var target := ByPlatform(row.platform, r.window);
            Run(StepsBeforeInclusions(t), offers).Ok?
            <==> row.proven && RowHits(offers, target, row.pair) == 1
                 && AmountExpected(mid, target, row.pair, {row.before, row.after})
  {
    hide StepsBeforeInclusions;
    RepairsProjectExactly(t, offers, mid);
    var steps := RepairList(t);
    OneRepairStep(t, r, row);
    assert steps[..0] == [];
    var target, fits := ByPlatform(row.platform, r.window), RowFits(mid, steps[0]) && OldAmountFits(mid, steps, 0);
    assert row.proven ==> steps[0] == Amend(target, row.pair, {row.before, row.after}, Some(row.after));
    assert fits <==> row.proven && RowHits(mid, target, row.pair) == 1
                     && AmountExpected(mid, target, row.pair, {row.before, row.after});
    assert fits <==> forall k :: 0 <= k < |steps| ==> RowFits(mid, steps[k]) && OldAmountFits(mid, steps, k);
  }

  /** A concrete history: a SKU is added by a verified inclusion, then repaired; the offers cannot be read any more. */
  lemma IncludedSkuCannotBeRepaired(o: Offer, added: Pair, amount: Cents, repaired: Cents)
    returns (t: Tables)
    requires AmountOf(o.rows, added).None? && o.rows != []
    ensures t.inclusions ==
            [IncludeClaim(Verified, o.platform, o.window, [SavedRow(added, amount)], true, map[added := amount])]
    ensures t.repairs == [SavedRepair(Verified, o.window, [RepairRow(o.platform, added, amount, repaired, true)])]
    ensures t.amendments == [] && t.revisions == []
    ensures Run(AllSteps(t), [o]).Err?
    ensures Run(AllSteps(t.(repairs := [])), [o]).Ok?
  {
    var row := RepairRow(o.platform, added, amount, repaired, true);
    t := Tables([], [], [SavedRepair(Verified, o.window, [row])],
                [IncludeClaim(Verified, o.platform, o.window, [SavedRow(added, amount)], true, map[added := amount])]);
    NoRowCount(o.rows, added);
    assert [o][..0] == [];
    RepairsNeedImportedRows(t, [o], t.repairs[0], row);
    OnlyInclusion(t.inclusions[0], o);
    assert AllSteps(t.(repairs := [])) == IncludeSteps(t.inclusions[0]);
  }

  lemma {:induction false} NoRowCount(rows: seq<SavedRow>, p: Pair)
    ensures AmountOf(rows, p).None? ==> RowCount(rows, p) == 0
  {
    if rows != [] {
      NoRowCount(rows[..|rows| - 1], p);
    }
  }

  lemma OnlyInclusion(c: IncludeClaim, o: Offer)
    requires c.stage == Verified && Hits(ByPlatform(c.platform, c.window), o)
    ensures Run(IncludeSteps(c), [o]).Ok? && Each([c], IncludeSteps) == IncludeSteps(c)
  {
    var t := ByPlatform(c.platform, c.window);
    var steps := [Parent(t), Include(t, Inclusion(c.rows, c.windowExact, c.saved))];
    assert steps[..1] == [Parent(t)] && steps[..1][..0] == [] && steps == IncludeSteps(c);
    assert [o][..0] == [] && HitCount([o], t) == 1;
    assert SteppedAll([o], Parent(t)) == [o];
    assert Run([Parent(t)], [o]) == Ok([o]);
    assert [c][..0] == [] && Each([], IncludeSteps) + IncludeSteps(c) == IncludeSteps(c);
  }

  lemma OneRevisionSteps(c: CostRevision, r: Change)
    requires c.stage == Verified && !c.later && c.proven && c.rows == [r]
    ensures SavedRevisionSteps(c) == [ChangeStep(ByPlatform(c.platform, c.window), c.item, r)]
    ensures OpenRevisionSteps(c) == []
  {
  }

  /**
   * A concrete history: a SKU is repaired, then its product is revised from the repaired amount, as
   * a new revision must state it. The amount is laid over the imported one, before the repair, and
   * the offers cannot be read any more.
   */
  lemma RevisionAfterRepairRefuses(o: Offer, pair: Pair, imported: Cents, repaired: Cents, revised: Cents)
    returns (t: Tables)
    requires o.rows == [SavedRow(pair, imported)] && repaired != imported
    ensures t.repairs == [SavedRepair(Verified, o.window, [RepairRow(o.platform, pair, imported, repaired, true)])]
    ensures t.revisions ==
            [CostRevision(Verified, o.platform, o.window, pair.item, [Change(pair.sku, repaired, revised)],
                          false, true)]
    ensures t.amendments == [] && t.inclusions == []
    ensures Run(AllSteps(t.(revisions := [])), [o]) == Ok([o.(rows := [SavedRow(pair, repaired)])])
    ensures Run(AllSteps(t), [o]).Err?
  {
    var change, row := Change(pair.sku, repaired, revised), RepairRow(o.platform, pair, imported, repaired, true);
    var c := CostRevision(Verified, o.platform, o.window, pair.item, [change], false, true);
    t := Tables([], [c], [SavedRepair(Verified, o.window, [row])], []);
    RepairedOnce(t.(revisions := []), o, pair, imported, repaired);
    ProjectsExactly(t, [o]);
    OneRevisionSteps(c, change);
    OneInEach(c, OpenRevisionSteps);
    OneInEach(c, SavedRevisionSteps);
    var steps := AllSteps(t);
    assert steps[0] == ChangeStep(ByPlatform(o.platform, o.window), pair.item, change) && steps[..0] == [];
    assert !OldAmountFits([o], steps, 0);
  }

  lemma RepairedOnce(t: Tables, o: Offer, pair: Pair, imported: Cents, repaired: Cents)
    requires o.rows == [SavedRow(pair, imported)]
    requires t ==
             Tables([], [], [SavedRepair(Verified, o.window, [RepairRow(o.platform, pair, imported, repaired, true)])],
                    [])
    ensures Run(AllSteps(t), [o]) == Ok([o.(rows := [SavedRow(pair, repaired)])])
  {
    hide Run;
    var target := ByPlatform(o.platform, o.window);
    OneRepairStep(t, t.repairs[0], RepairRow(o.platform, pair, imported, repaired, true));
    assert AllSteps(t) == [Amend(target, pair, {imported, repaired}, Some(repaired))];
    AmendedOnce(target, o, pair, imported, repaired);
  }

  lemma AmendedOnce(target: Target, o: Offer, pair: Pair, imported: Cents, amended: Cents)
    requires o.rows == [SavedRow(pair, imported)] && Hits(target, o)
    ensures Run([Amend(target, pair, {imported, amended}, Some(amended))], [o]) ==
            Ok([o.(rows := [SavedRow(pair, amended)])])
  {
    var s := Amend(target, pair, {imported, amended}, Some(amended));
    assert [s][..0] == [] && [o][..0] == [] && o.rows[..0] == [];
    assert RowHits([], target, pair) == 0 && RowCount([], pair) == 0;
    assert RowHits([o], target, pair) == RowCount(o.rows, pair) == 1;
    assert AmountOf(o.rows, pair) == Some(imported);
    assert Refusal([o], s).None?;
    assert Overwrite(o.rows, pair, amended) == [SavedRow(pair, amended)];
    assert SteppedAll([o], s) == [o.(rows := [SavedRow(pair, amended)])];
    assert Run([s], [o]) == Apply([o], s);
  }

  // ---------- the projection in place ----------

  class Projection {
    var offers: seq<Offer>

    constructor (imported: seq<Offer>)
      ensures offers == imported
    {
      offers := imported;
    }

    /** One record's step on the offers it means, in place; a refused step changes nothing. */
    method Do(s: Step) returns (refused: Option<string>)
      modifies this
      ensures refused == Refusal(old(offers), s)
      ensures offers == if refused.Some? then old(offers) else SteppedAll(old(offers), s)
    {
      refused := Refusal(offers, s);
      if refused.Some? {
        return;
      }
      for i := 0 to |offers|
        invariant |offers| == |old(offers)|
        invariant forall k :: 0 <= k < i ==> offers[k] == Stepped(old(offers)[k], s)
        invariant forall k :: i <= k < |offers| ==> offers[k] == old(offers)[k]
      {
        offers := offers[i := Stepped(offers[i], s)];
      }
    }

    method DoAll(steps: seq<Step>) returns (refused: Option<string>)
      modifies this
      ensures match Run(steps, old(offers))
              case Ok(after) => refused.None? && offers == after
              case Err(e) => refused == Some(e)
    {
      refused := None;
      for i := 0 to |steps|
        invariant Run(steps[..i], old(offers)) == Ok(offers)
      {
        assert steps[..i + 1][..i] == steps[..i];
        refused := Do(steps[i]);
        if refused.Some? {
          RunStops(steps, i + 1, old(offers));
          return;
        }
      }
      assert steps[..|steps|] == steps;
      refused := None;
    }

    /** The four tables, in the order in which the authority lays them over its offers. */
    method DiscountOffers(t: Tables) returns (refused: Option<string>)
      modifies this
      ensures match Run(AllSteps(t), old(offers))
              case Ok(after) => refused.None? && offers == after
              case Err(e) => refused == Some(e)
    {
      refused := DoAll(AllSteps(t));
    }
  }
}
