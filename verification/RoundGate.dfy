/**
 * What stands before a signup: the replies of its own round, call by call. The partial products
 * of a discount are kept out exactly as far as the reply names them by text, every success rests
 * on a reply of a call that was made, and a round stops only at a reply that does not fit.
 */
module RoundGate {
  import opened CampaignTypes
  import opened Policy
  import opened Rounds

  // ---------- frames ----------

  /** Calls only move on, and only repair bookkeeping changes. */
  predicate RepairFrame(s: State, n: nat, p: Step) {
    && p.calls >= n
    && p.state == s.(exceptions := p.state.exceptions, corrections := p.state.corrections, seen := p.state.seen)
  }

  lemma RepairFailedFrame(o: Oracle, s: State, errors: seq<Failure>, n: nat)
    ensures RepairFrame(s, n, RepairFailed(o, s, errors, n))
  {
  }

  lemma ReportFrame(o: Oracle, s: State, batch: string, items: set<Item>, text: bool, n: nat)
    ensures RepairFrame(s, n, ReportAndRepair(o, s, batch, items, text, n))
  {
    if o.report(n).Some? {
      RepairFailedFrame(o, s, o.report(n).value, n + 1);
    }
  }

  /** What the discounts of a round leave unchanged. */
  predicate DiscountFrame(s: State, d: Discounts) {
    d.state == s.(exceptions := d.state.exceptions, corrections := d.state.corrections, seen := d.state.seen,
                  required := d.state.required)
  }

  lemma RepairPartialFrame(o: Oracle, s: State, reply: RowsReply, n: nat)
    ensures RepairFrame(s, n, RepairPartial(o, s, reply, n))
  {
    var partial := ItemsWith(reply, PartialItem);
    ReportFrame(o, Held(s, partial, PartialImport), reply.batch, partial, partial !! Numeric(reply), n);
  }

  lemma RepairRefusalsFrame(o: Oracle, s: State, reply: RowsReply, n: nat)
    ensures RepairFrame(s, n, RepairRefusals(o, s, reply, n))
  {
    var failed := ItemsWith(reply, FailedItem);
    ReportFrame(o, s, reply.batch, failed, failed !! Numeric(reply), n);
  }

  /** The discount call of a round that went through, and what it removed. */
  predicate Discounted(o: Oracle, items: set<Item>, n: nat, d: Discounts) {
    if items == {} then d.calls == n && d.removed == {}
    else d.calls > n && o.rows(n).Some? && TerminalScope(o.rows(n).value, items, true)
         && d.removed == RemovedBy(o.rows(n).value)
  }

  lemma DiscountsGate(o: Oracle, s: State, items: set<Item>, n: nat)
    ensures var d := DiscountsOf(o, s, items, n);
            DiscountFrame(s, d) && d.calls >= n && (d.fault.None? ==> Discounted(o, items, n, d))
  {
    hide RepairPartial, RepairRefusals, RemovedBy;
    var reply := o.rows(n);
    if items != {} && reply.Some? && TerminalScope(reply.value, items, true) {
      RepairPartialFrame(o, s, reply.value, n + 1);
      var p := RepairPartial(o, s, reply.value, n + 1);
      RepairRefusalsFrame(o, p.state, reply.value, p.calls);
    }
  }

  // ---------- the gate ----------

  /** What the signup of a round needs: its own readback, for exactly the work, before its call. */
  predicate Passed(o: Oracle, r: Round, e: Round, work: set<Item>) {
    && e.window.Some? && e.signup.Some? && r.calls <= e.window.value < e.signup.value
    && WindowCorrect(o, e.window.value, work)
    && e.submitted == work - r.state.enrolled && e.submitted != {}
  }

  lemma EnrolGate(o: Oracle, r: Round, work: set<Item>, retries: set<Item>)
    requires r.signup.None?
    ensures var e := Enrol(o, r, work, retries);
            e.bundle == r.bundle && e.discount == r.discount && (e.signup.Some? ==> Passed(o, r, e, work))
  {
    hide SignupPhase, Regenerated;
  }

  lemma AfterDiscountsGate(o: Oracle, s: State, r: Round, d: Discounts)
    requires r.signup.None? && r.state == d.state && r.fault.None?
    ensures var e := AfterDiscounts(o, s, r, d);
            && e.bundle == r.bundle && e.discount == r.discount
            && (e.signup.Some? ==> d.fault.None? && Passed(o, r, e, PendingOf(s) - d.removed))
  {
    hide Enrol, Regenerated;
    var work := PendingOf(s) - d.removed;
    EnrolGate(o, if d.refused then r.(calls := r.calls + 1) else r, work, d.retries);
  }

  /** The products that a round starts with, once the template's registered ones are known. */
  function AtStart(o: Oracle, daily: bool, s: State): State {
    if o.template.Some? then AfterTemplate(s, o.template.value, daily) else s
  }

  /** The products that the discount reply of this round removes from it. */
  function RemovedIn(o: Oracle, r: Round): set<Item> {
    if r.discount.Some? && o.rows(r.discount.value).Some? then RemovedBy(o.rows(r.discount.value).value) else {}
  }

  /** A valid bundle without issues, for exactly the pending products and with every required discount. */
  predicate BundleGate(o: Oracle, t: State, r: Round) {
    && r.bundle.Some? && o.bundle(r.bundle.value).Some?
    && var b := o.bundle(r.bundle.value).value;
    && b.issues == [] && b.valid && b.items == PendingOf(t) && t.required <= SetOf(b.discountItems) <= PendingOf(t)
  }

  /** Every discount of that bundle was submitted and ended with a terminal of exactly its scope. */
  predicate DiscountGate(o: Oracle, r: Round)
    requires r.bundle.Some? && o.bundle(r.bundle.value).Some?
  {
    var items := SetOf(o.bundle(r.bundle.value).value.discountItems);
    if items == {} then r.discount.None?
    else
      && r.discount.Some? && r.bundle.value < r.discount.value && o.rows(r.discount.value).Some?
      && TerminalScope(o.rows(r.discount.value).value, items, true)
  }

  /** The readback shows exactly what is left as correct; the signup submits what is not enrolled of it. */
  predicate WindowGate(o: Oracle, t: State, r: Round) {
    var work := PendingOf(t) - RemovedIn(o, r);
    && r.window.Some? && r.signup.Some? && r.window.value < r.signup.value && WindowCorrect(o, r.window.value, work)
    && (r.discount.Some? ==> r.discount.value < r.window.value)
    && r.submitted == work - t.enrolled && r.submitted != {}
  }

  predicate Gate(o: Oracle, t: State, r: Round) {
    BundleGate(o, t, r) && DiscountGate(o, r) && WindowGate(o, t, r)
  }

  lemma SubmitGate(o: Oracle, t: State, r: Round)
    requires r.signup.None? && r.fault.None? && r.discount.None? && BundleGate(o, t, r) && r.bundle.value < r.calls
    ensures var e := Submit(o, t, SetOf(o.bundle(r.bundle.value).value.discountItems), r);
            e.signup.Some? ==> Gate(o, t, e)
  {
    hide AfterDiscounts, DiscountPhase;
    var items := SetOf(o.bundle(r.bundle.value).value.discountItems);
    var d := DiscountsOf(o, t, items, r.calls);
    DiscountsGate(o, t, items, r.calls);
    AfterDiscountsGate(o, t, r.(state := d.state, calls := d.calls,
                                       discount := if items == {} then None else Some(r.calls)),
                       d);
  }

  /**
   * Whatever the transport answers, a round submits products for signup only after, in this
   * order: the template, an accepted bundle for exactly the pending products with every required
   * discount, the terminal of exactly that bundle's discounts, and a readback that shows exactly
   * the products left as correct. What is submitted is exactly those not enrolled before.
   */
  lemma TurnGate(o: Oracle, daily: bool, s: State, n: nat)
    ensures var r := Turn(o, daily, s, n);
            r.signup.Some? ==>
              && o.template.Some? && o.template.value <= s.initial
              && Gate(o, AtStart(o, daily, s), r) && r.submitted !! s.enrolled && r.submitted !! o.template.value
  {
    hide Submit;
    if o.template.Some? && o.template.value <= s.initial {
      var t, b := AtStart(o, daily, s), o.bundle(n);
      if PendingOf(t) != {} && b.Some? && BundleFits(b.value, PendingOf(t), t.required) && b.value.issues == [] {
        SubmitGate(o, t, Quiet(t, n + 1, None).(bundle := Some(n)));
      }
    }
  }

  // ---------- products that were refused by the discount ----------

  /** What the discount reply of this round says about its products. */
  function RefusedIn(o: Oracle, r: Round, outcome: Outcome): set<Item> {
    if r.discount.Some? && o.rows(r.discount.value).Some? then ItemsWith(o.rows(r.discount.value).value, outcome)
    else {}
  }

  function NumericIn(o: Oracle, r: Round): set<Item> {
    if r.discount.Some? && o.rows(r.discount.value).Some? then Numeric(o.rows(r.discount.value).value) else {}
  }

  /** In a terminal of exactly its scope every product has one row. */
  lemma OneRow(reply: RowsReply, items: set<Item>, a: Row, b: Row)
    requires TerminalScope(reply, items, true) && a in reply.rows && b in reply.rows && a.item == b.item
    ensures a == b
  {
    var i :| 0 <= i < |reply.rows| && reply.rows[i] == a;
    var j :| 0 <= j < |reply.rows| && reply.rows[j] == b;
    assert i == j;
  }

  lemma RemovedExactly(reply: RowsReply, items: set<Item>)
    requires TerminalScope(reply, items, true)
    ensures ItemsWith(reply, FailedItem) <= RemovedBy(reply)
    ensures ItemsWith(reply, PartialItem) - RemovedBy(reply) == ItemsWith(reply, PartialItem) * Numeric(reply)
  {
    forall i | i in ItemsWith(reply, PartialItem) && i in ItemsWith(reply, FailedItem) ensures false {
      var a :| a in reply.rows && a.outcome == PartialItem && a.item == i;
      var b :| b in reply.rows && b.outcome == FailedItem && b.item == i;
      OneRow(reply, items, a, b);
    }
  }

  /**
   * No product whose discount failed is signed up. Of the products with a partial discount
   * exactly those slip through that the reply names by a number and that are not enrolled yet.
   */
  lemma RefusedProductsStayOut(o: Oracle, daily: bool, s: State, n: nat)
    requires Turn(o, daily, s, n).signup.Some?
    ensures var r := Turn(o, daily, s, n);
            && r.submitted !! RefusedIn(o, r, FailedItem)
            && r.submitted * RefusedIn(o, r, PartialItem)
               == RefusedIn(o, r, PartialItem) * NumericIn(o, r) - AtStart(o, daily, s).enrolled
  {
    TurnGate(o, daily, s, n);
    var r, t := Turn(o, daily, s, n), AtStart(o, daily, s);
    if r.discount.Some? {
      var items, reply := SetOf(o.bundle(r.bundle.value).value.discountItems), o.rows(r.discount.value).value;
      assert RefusedIn(o, r, PartialItem) <= items <= PendingOf(t);
      RemovedExactly(reply, items);
    }
  }

  lemma OutsideMeansEmpty<T>(submitted: set<T>, partial: set<T>, numeric: set<T>, enrolled: set<T>)
    requires submitted * partial == numeric - enrolled
    ensures submitted !! partial <==> numeric <= enrolled
  {
    if numeric <= enrolled {
      assert forall i :: i in submitted && i in partial ==> i in submitted * partial;
    } else {
      var i :| i in numeric && i !in enrolled;
      assert i in submitted * partial;
    }
  }

  /** Hence partial products never reach a signup if and only if none of them is given by number. */
  lemma PartialProductsStayOut(o: Oracle, daily: bool, s: State, n: nat)
    requires Turn(o, daily, s, n).signup.Some?
    ensures var r := Turn(o, daily, s, n);
            r.submitted !! RefusedIn(o, r, PartialItem)
            <==> RefusedIn(o, r, PartialItem) * NumericIn(o, r) <= AtStart(o, daily, s).enrolled
  {
    RefusedProductsStayOut(o, daily, s, n);
    var r := Turn(o, daily, s, n);
    OutsideMeansEmpty(r.submitted, RefusedIn(o, r, PartialItem), RefusedIn(o, r, PartialItem) * NumericIn(o, r),
                      AtStart(o, daily, s).enrolled);
  }

  // ---------- evidence ----------

  /** The products that the signup reply of this round reports as enrolled, all of them submitted. */
  function SignedUpIn(o: Oracle, r: Round): (items: set<Item>)
    ensures items <= r.submitted
  {
    if r.signup.Some? && o.rows(r.signup.value).Some? && TerminalScope(o.rows(r.signup.value).value, r.submitted, false)
    then SignedUp(o.rows(r.signup.value).value) else {}
  }

  lemma SignupEvidence(o: Oracle, s: State, signup: set<Item>, n: nat)
    ensures var p, reply := SignupPhase(o, s, signup, n), o.rows(n);
            p.state.initial == s.initial
            && p.state.success == s.success + if reply.Some? && TerminalScope(reply.value, signup, false)
                                              then SignedUp(reply.value) else {}
  {
    hide ReportAndRepair;
    var reply := o.rows(n);
    if reply.Some? && TerminalScope(reply.value, signup, false) {
      var t, failed := s.(success := s.success + SignedUp(reply.value)), ItemsWith(reply.value, FailedItem);
      ReportFrame(o, t, reply.value.batch, failed, failed !! Numeric(reply.value), n + 1);
    }
  }

  lemma EnrolEvidence(o: Oracle, r: Round, work: set<Item>, retries: set<Item>)
    requires r.signup.None?
    ensures var e := Enrol(o, r, work, retries);
            e.state.initial == r.state.initial && e.state.success == r.state.success + SignedUpIn(o, e)
  {
    hide SignupPhase, TerminalScope, WindowCorrect, Regenerated;
    var signup := work - r.state.enrolled;
    SignupEvidence(o, r.state, signup, if signup == work then r.calls + 1 else r.calls + 2);
  }

  lemma AfterDiscountsEvidence(o: Oracle, s: State, r: Round, d: Discounts)
    requires r.signup.None? && r.state == d.state
    ensures var e := AfterDiscounts(o, s, r, d);
            e.state.initial == d.state.initial && e.state.success == d.state.success + SignedUpIn(o, e)
  {
    hide Enrol, Regenerated, TerminalScope, ItemsWith;
    var work := PendingOf(s) - d.removed;
    EnrolEvidence(o, if d.refused then r.(calls := r.calls + 1) else r, work, d.retries);
  }

  lemma SubmitEvidence(o: Oracle, t: State, items: set<Item>, r: Round)
    requires r.signup.None?
    ensures var e := Submit(o, t, items, r);
            e.state.initial == t.initial && e.state.success == t.success + SignedUpIn(o, e)
  {
    hide DiscountPhase, AfterDiscounts, TerminalScope, ItemsWith;
    var d := DiscountsOf(o, t, items, r.calls);
    DiscountsGate(o, t, items, r.calls);
    AfterDiscountsEvidence(o, t, r.(state := d.state, calls := d.calls,
                                    discount := if items == {} then None else Some(r.calls)), d);
  }

  /**
   * A round records exactly the products as successful that the template lists as registered and
   * that the reply to its own signup call reports as enrolled.
   */
  lemma TurnEvidence(o: Oracle, daily: bool, s: State, n: nat)
    ensures var r := Turn(o, daily, s, n);
            && r.state.initial == s.initial
            && r.state.success == s.success + SignedUpIn(o, r)
                                  + if o.template.Some? && o.template.value <= s.initial then o.template.value else {}
  {
    hide Submit, TerminalScope, ItemsWith;
    if o.template.Some? && o.template.value <= s.initial {
      var t, b := AtStart(o, daily, s), o.bundle(n);
      if PendingOf(t) != {} && b.Some? && BundleFits(b.value, PendingOf(t), t.required) && b.value.issues == [] {
        SubmitEvidence(o, t, SetOf(b.value.discountItems), Quiet(t, n + 1, None).(bundle := Some(n)));
      }
    }
  }

  // ---------- why a round stops ----------

  predicate Misfits(o: Oracle, n: nat, items: set<Item>, allowPartial: bool) {
    o.rows(n).None? || !TerminalScope(o.rows(n).value, items, allowPartial)
  }

  /** Some verified change is given by number. */
  predicate NumericChange(reply: RowsReply) {
    exists r | r in reply.rows :: !r.text && Verified(reply, r)
  }

  /** The call failed, or its reply breaks what this step requires of it. */
  predicate Refused(o: Oracle, s: State, f: Fault) {
    match f
    case TemplateRefused => o.template.None? || !(o.template.value <= s.initial)
    case BundleRefused(n, items, required) => o.bundle(n).None? || !BundleFits(o.bundle(n).value, items, required)
    case SubsetRefused(n, items) => !Regenerated(o, n, items)
    case DiscountRefused(n, items) => Misfits(o, n, items, true)
    case WindowRefused(n, items) => !WindowCorrect(o, n, items)
    case SignupRefused(n, items) => Misfits(o, n, items, false)
    case ReportRefused(n, batch, items, text) =>
      !text || o.report(n).None? || !ReportFits(o.report(n).value, batch, items)
    case RepairRefused(n, items) => Misfits(o, n, items, false) || NumericChange(o.rows(n).value)
    case PriorRefused(n, items) =>
      || o.priorFailures(n).None? || !(o.priorFailures(n).value.Keys <= items)
      || exists i | i in o.priorFailures(n).value :: !ValidImport(i, o.priorFailures(n).value[i])
    case GapsRefused(n, items) => o.priceGaps(n).None? || !(o.priceGaps(n).value.Keys <= items)
    case InputsRefused(n, items, success) => o.inputs(n).None? || !(o.inputs(n).value <= items - success)
    case ScopeRefused(n) => o.scope(n).None? || !o.scope(n).value.valid || !NoDuplicates(o.scope(n).value.scope)
    case HistoryUnreadable(n, item) => o.scope(n).Some? && Unreadable(o.scope(n).value, item)
    case HistoryCrashes(n, item) => o.scope(n).Some? && CrashesOn(o.scope(n).value, item)
    case LegacyUnreadable(batch) => exists i | i in BatchItems(s, batch) :: s.legacy[i].errors.NotIterable?
    case LegacyCrashes(batch) => exists i | i in BatchItems(s, batch) :: s.legacy[i].errors.NotRecords?
  }

  predicate StopsRightly(o: Oracle, s: State, fault: Option<Fault>) {
    fault.Some? ==> Refused(o, s, fault.value)
  }

  lemma RepairStops(o: Oracle, s: State, t: State, errors: seq<Failure>, n: nat)
    ensures StopsRightly(o, s, RepairFailed(o, t, errors, n).fault)
  {
    var repairs := RepairableOf(errors);
    var untried := repairs - AttemptedIn(t, repairs);
    var reply := o.rows(n);
    if reply.Some? && TerminalScope(reply.value, untried.Keys, false) {
      var k := ReadRows(reply.value, |reply.value.rows|);
      if k < |reply.value.rows| {
        assert reply.value.rows[k] in reply.value.rows;
      }
    }
  }

  lemma ReportStops(o: Oracle, s: State, t: State, batch: string, items: set<Item>, text: bool, n: nat)
    ensures StopsRightly(o, s, ReportAndRepair(o, t, batch, items, text, n).fault)
  {
    hide RepairFailed;
    if o.report(n).Some? {
      RepairStops(o, s, t, o.report(n).value, n + 1);
    }
  }

  lemma DiscountStops(o: Oracle, s: State, t: State, items: set<Item>, n: nat)
    ensures StopsRightly(o, s, DiscountPhase(o, t, items, n).fault)
  {
    hide ReportAndRepair;
    var reply := o.rows(n);
    if reply.Some? && TerminalScope(reply.value, items, true) {
      var partial, failed := ItemsWith(reply.value, PartialItem), ItemsWith(reply.value, FailedItem);
      ReportStops(o, s, Held(t, partial, PartialImport), reply.value.batch, partial,
                  partial !! Numeric(reply.value), n + 1);
      var p := RepairPartial(o, t, reply.value, n + 1);
      ReportStops(o, s, p.state, reply.value.batch, failed, failed !! Numeric(reply.value), p.calls);
    }
  }

  lemma SignupStops(o: Oracle, s: State, t: State, signup: set<Item>, n: nat)
    ensures StopsRightly(o, s, SignupPhase(o, t, signup, n).fault)
  {
    hide ReportAndRepair;
    var reply := o.rows(n);
    if reply.Some? && TerminalScope(reply.value, signup, false) {
      var u, failed := t.(success := t.success + SignedUp(reply.value)), ItemsWith(reply.value, FailedItem);
      ReportStops(o, s, u, reply.value.batch, failed, failed !! Numeric(reply.value), n + 1);
    }
  }

  lemma EnrolStops(o: Oracle, s: State, r: Round, work: set<Item>, retries: set<Item>)
    requires r.fault.None?
    ensures StopsRightly(o, s, Enrol(o, r, work, retries).fault)
  {
    hide SignupPhase;
    var signup := work - r.state.enrolled;
    SignupStops(o, s, r.state, signup, if signup == work then r.calls + 1 else r.calls + 2);
  }

  /** A round stops only because some call failed or its reply does not fit what was asked. */
  lemma TurnStops(o: Oracle, daily: bool, s: State, n: nat)
    ensures StopsRightly(o, s, Turn(o, daily, s, n).fault)
  {
    hide Submit;
    if o.template.Some? && o.template.value <= s.initial {
      var t, b := AtStart(o, daily, s), o.bundle(n);
      if PendingOf(t) != {} && b.Some? && BundleFits(b.value, PendingOf(t), t.required) && b.value.issues == [] {
        SubmitStops(o, s, t, SetOf(b.value.discountItems), Quiet(t, n + 1, None).(bundle := Some(n)));
      }
    }
  }

  lemma SubmitStops(o: Oracle, s: State, t: State, items: set<Item>, r: Round)
    requires r.fault.None?
    ensures StopsRightly(o, s, Submit(o, t, items, r).fault)
  {
    hide DiscountPhase, Enrol;
    var d := DiscountsOf(o, t, items, r.calls);
    if items != {} {
      DiscountStops(o, s, t, items, r.calls);
    }
    var u := r.(state := d.state, calls := if d.refused then d.calls + 1 else d.calls,
                discount := if items == {} then None else Some(r.calls));
    EnrolStops(o, s, u, PendingOf(t) - d.removed, d.retries);
  }
}
