/**
 * What becomes of every product that a reply refuses, told from the replies alone: which call comes
 * next, when the round stops, and which products are tried again in the next round.
 */
module RoundFates {
  import opened CampaignTypes
  import opened Policy
  import opened Rounds
  import opened RoundProofs
  import opened RoundGate

  // ---------- what a reply says ----------

  /** The reply has a batch and one row for each of exactly these products, with a known outcome. */
  ghost predicate Covers(reply: Option<RowsReply>, items: set<Item>, partialToo: bool) {
    && reply.Some? && reply.value.batch != ""
    && (forall i, j :: 0 <= i < j < |reply.value.rows| ==> reply.value.rows[i].item != reply.value.rows[j].item)
    && (forall i :: i in items <==> exists r :: r in reply.value.rows && r.item == i)
    && (forall r :: r in reply.value.rows ==>
                      r.outcome == Succeeded || r.outcome == FailedItem || (partialToo && r.outcome == PartialItem))
  }

  lemma CoversExactly(reply: Option<RowsReply>, items: set<Item>, partialToo: bool)
    ensures Covers(reply, items, partialToo) <==> reply.Some? && TerminalScope(reply.value, items, partialToo)
  {
    if reply.Some? {
      assert forall i :: i in RowItems(reply.value.rows) <==> exists r :: r in reply.value.rows && r.item == i;
    }
  }

  /** The products that the reply reports with this outcome. */
  function With(reply: RowsReply, outcome: Outcome): set<Item> {
    set r | r in reply.rows && r.outcome == outcome :: r.item
  }

  /** The reply gives the numbers of these products as text. */
  predicate AsText(reply: RowsReply, items: set<Item>) {
    forall r :: r in reply.rows && r.item in items ==> r.text
  }

  /** The repair reply reports the product's change as made and verified. */
  predicate ChangeVerified(reply: RowsReply, item: Item) {
    exists r :: r in reply.rows && r.item == item && r.outcome == Succeeded && item in reply.changed
  }

  /** Every verified change is reported with its number as text. */
  predicate ChangesAsText(reply: RowsReply) {
    forall r :: r in reply.rows && r.outcome == Succeeded && r.item in reply.changed ==> r.text
  }

  lemma TextExactly(reply: RowsReply, items: set<Item>)
    ensures AsText(reply, items) <==> items !! Numeric(reply)
  {
    if r :| r in reply.rows && r.item in items && !r.text {
      assert r.item in items * Numeric(reply);
    }
    if i :| i in items * Numeric(reply) {
      var r :| r in reply.rows && !r.text && r.item == i;
    }
  }

  // ---------- which failed products are worth a repair ----------

  /** The report names exactly these products, all in this batch. */
  ghost predicate Reports(report: Option<seq<Failure>>, batch: string, items: set<Item>) {
    && report.Some? && (forall e :: e in report.value ==> e.batch == batch)
    && forall i :: i in items <==> exists e :: e in report.value && e.item == i
  }

  lemma ReportsExactly(report: Option<seq<Failure>>, batch: string, items: set<Item>)
    ensures Reports(report, batch, items) <==> report.Some? && ReportFits(report.value, batch, items)
  {
    if report.Some? {
      assert forall i :: i in ItemsOf(report.value) <==> exists e :: e in report.value && e.item == i;
    }
  }

  /** Every failure that the report has for the product can be repaired. */
  predicate AllRepairable(errors: seq<Failure>, item: Item) {
    forall e :: e in errors && e.item == item ==> Classify(e).action == DoRepair
  }

  lemma RepairableExactly(errors: seq<Failure>, item: Item)
    ensures Repairable(DecisionsOf(errors, item)) <==> AllRepairable(errors, item)
  {
    hide Classify;
    forall e | e in errors && e.item == item ensures Classify(e) in DecisionsOf(errors, item) {
      DecisionsCoverErrors(errors, e);
    }
    forall d | d in DecisionsOf(errors, item)
      ensures exists e :: e in errors && e.item == item && d == Classify(e)
    {
      DecisionsComeFromErrors(errors, item, d);
    }
  }

  /** The repairs of these decisions, in any order. */
  function RepairBag(decisions: seq<Decision>): multiset<(Sku, Option<Repair>)> {
    multiset(seq(|decisions|, i requires 0 <= i < |decisions| => (decisions[i].sku, decisions[i].repair)))
  }

  /**
   * The product was given these repairs before: the same ones by SKU in any order, or under the older
   * form the same list and one of them among its corrections.
   */
  ghost predicate TriedBefore(s: State, item: Item, decisions: seq<Decision>) {
    && item in s.seen
    && exists g :: g in s.seen[item]
                   && match g
                      case BySku(repairs) => repairs == RepairBag(decisions)
                      case Older(list) =>
                        && |list| == |decisions| && (forall i :: 0 <= i < |list| ==> list[i] == decisions[i].repair)
                        && item in s.corrections
                        && exists key, d :: key in s.corrections[item] && d in decisions
                                            && d.sku == s.corrections[item][key].sku
                                            && d.repair == s.corrections[item][key].repair
  }

  lemma TriedExactly(s: State, item: Item, decisions: seq<Decision>)
    ensures TriedBefore(s, item, decisions) <==> AlreadyAttempted(s, item, decisions)
  {
    assert RepairsOf(decisions) ==
           seq(|decisions|, i requires 0 <= i < |decisions| => (decisions[i].sku, decisions[i].repair));
    assert SignatureOf(decisions) == BySku(RepairBag(decisions));
    forall list
      ensures Older(list) == OlderOf(decisions)
              <==> |list| == |decisions| && forall i :: 0 <= i < |list| ==> list[i] == decisions[i].repair
    {
      if |list| == |decisions| && forall i :: 0 <= i < |list| ==> list[i] == decisions[i].repair {
        assert list == OlderOf(decisions).list;
      }
    }
    if item in s.seen {
      TriedInSeen(s, item, decisions);
    }
  }

  lemma TriedInSeen(s: State, item: Item, decisions: seq<Decision>)
    requires item in s.seen
    requires SignatureOf(decisions) == BySku(RepairBag(decisions)) && OlderOf(decisions).Older?
    requires forall list :: Older(list) == OlderOf(decisions)
                            <==> |list| == |decisions| && forall i :: 0 <= i < |list| ==> list[i] == decisions[i].repair
    ensures TriedBefore(s, item, decisions) <==> AlreadyAttempted(s, item, decisions)
  {
    hide SignatureOf, OlderOf, RepairBag;
    if AlreadyAttempted(s, item, decisions) && SignatureOf(decisions) !in s.seen[item] {
      assert OlderOf(decisions) in s.seen[item];
      assert OlderOf(decisions) == Older(OlderOf(decisions).list);
    }
  }

  // ---------- one report and the repair that follows it ----------

  /** The products of this report whose repair is due: all repairable, and not tried before. */
  ghost function RepairsDue(s: State, errors: seq<Failure>): set<Item> {
    set e | e in errors && AllRepairable(errors, e.item)
            && !TriedBefore(s, e.item, DecisionsOf(errors, e.item)) :: e.item
  }

  /** Where a report and its repair end: the next call, why it stops, and what is tried again. */
  datatype Block = Block(end: nat, fault: Option<Fault>, again: set<Item>)

  /**
   * Call n must be the report of exactly these products in this batch. If a repair is due, the next call
   * must end it for exactly the products due; those whose change it verifies are tried again.
   */
  ghost function ReportThenRepair(o: Oracle, s: State, batch: string, items: set<Item>, text: bool, n: nat): Block {
    if !text || !Reports(o.report(n), batch, items) then Block(n + 1, Some(ReportRefused(n, batch, items, text)), {})
    else
      var due := RepairsDue(s, o.report(n).value);
      if due == {} then Block(n + 1, None, {})
      else if !Covers(o.rows(n + 1), due, false) || !ChangesAsText(o.rows(n + 1).value) then
        Block(n + 2, Some(RepairRefused(n + 1, due)), {})
      else Block(n + 2, None, set i | i in due && ChangeVerified(o.rows(n + 1).value, i))
  }

  /** Why a reported product is not tried again. */
  ghost function HeldFor(s: State, errors: seq<Failure>, item: Item): seq<Decision> {
    var decisions := DecisionsOf(errors, item);
    if !AllRepairable(errors, item) then decisions
    else
      [Decision(item, "", if TriedBefore(s, item, decisions) then SameCorrection else RepairUnverified, Manual, None)]
  }

  /** The state knows the same earlier repairs of these products. */
  ghost predicate SameTries(s: State, t: State, items: set<Item>) {
    forall i :: i in items ==> SeenOf(t, i) == SeenOf(s, i) && CorrectionsOf(t, i) == CorrectionsOf(s, i)
  }

  lemma SameAttempted(s: State, t: State, item: Item, decisions: seq<Decision>)
    requires SameTries(s, t, {item})
    ensures AlreadyAttempted(t, item, decisions) <==> AlreadyAttempted(s, item, decisions)
  {
    hide SignatureOf, OlderOf;
    assert item in {item};
    assert SeenOf(t, item) == SeenOf(s, item) && CorrectionsOf(t, item) == CorrectionsOf(s, item);
  }

  /** The repairs that are submitted are those due. */
  lemma DueExactly(s: State, t: State, errors: seq<Failure>)
    requires SameTries(s, t, ItemsOf(errors))
    ensures var repairs := RepairableOf(errors);
            (repairs - AttemptedIn(t, repairs)).Keys == RepairsDue(s, errors)
  {
    hide AlreadyAttempted, TriedBefore, Repairable, AllRepairable;
    forall i | i in ItemsOf(errors)
      ensures Repairable(DecisionsOf(errors, i)) <==> AllRepairable(errors, i)
      ensures AlreadyAttempted(t, i, DecisionsOf(errors, i)) <==> TriedBefore(s, i, DecisionsOf(errors, i))
    {
      RepairableExactly(errors, i);
      SameAttempted(s, t, i, DecisionsOf(errors, i));
      TriedExactly(s, i, DecisionsOf(errors, i));
    }
    forall i ensures i in RepairsDue(s, errors) <==>
              i in ItemsOf(errors) && AllRepairable(errors, i) && !TriedBefore(s, i, DecisionsOf(errors, i))
    {
    }
  }

  lemma ReadAll(reply: RowsReply)
    ensures ReadRows(reply, |reply.rows|) == |reply.rows| <==> ChangesAsText(reply)
    ensures VerifiedIn(reply, |reply.rows|) == set r | r in reply.rows && ChangeVerified(reply, r.item) :: r.item
  {
    assert reply.rows[..|reply.rows|] == reply.rows;
  }

  /** The repair call ends exactly so. */
  lemma CallExactly(o: Oracle, t: State, repairs: map<Item, seq<Decision>>, n: nat)
    ensures var p, due := CallRepair(o, t, repairs, n), repairs.Keys;
            if !Covers(o.rows(n), due, false) || !ChangesAsText(o.rows(n).value) then
              p.calls == n + 1 && p.fault == Some(RepairRefused(n, due)) && p.next == {}
            else
              && p.calls == n + 1 && p.fault == None
              && p.next == (set i | i in due && ChangeVerified(o.rows(n).value, i))
              && forall i :: (i in due && i !in p.next ==>
                                i in p.state.exceptions
                                && p.state.exceptions[i] == [Decision(i, "", RepairUnverified, Manual, None)])
                             && (i in p.next ==> i !in p.state.exceptions)
                             && (i !in due ==> SameHold(t, p.state, i))
  {
    hide ReadRows, NewCorrections, NewSeen, Entered;
    var reply := o.rows(n);
    CoversExactly(reply, repairs.Keys, false);
    if reply.Some? && TerminalScope(reply.value, repairs.Keys, false) {
      ReadAll(reply.value);
      assert reply.value.rows[..|reply.value.rows|] == reply.value.rows;
      assert forall r :: r in reply.value.rows ==> r.item in RowItems(reply.value.rows);
    }
  }

  /** The product is held in both states for the same reasons, or in neither. */
  predicate SameHold(s: State, t: State, item: Item) {
    (item in t.exceptions <==> item in s.exceptions)
    && (item in s.exceptions ==> t.exceptions[item] == s.exceptions[item])
  }

  /** What a report and its repair leave in the exceptions. */
  ghost predicate HeldRest(s: State, t: State, u: State, errors: seq<Failure>, items: set<Item>, again: set<Item>) {
    forall i :: && (i in again ==> i !in u.exceptions)
                && (i in items && i !in again ==> i in u.exceptions && u.exceptions[i] == HeldFor(s, errors, i))
                && (i !in items ==> SameHold(t, u, i))
  }

  /** The state before the repair call holds a product of the report that is not due. */
  lemma NotDueIsHeld(s: State, t: State, errors: seq<Failure>, i: Item)
    requires SameTries(s, t, ItemsOf(errors)) && i in ItemsOf(errors) && i !in RepairsDue(s, errors)
    ensures i in BeforeRepair(t, errors).exceptions && BeforeRepair(t, errors).exceptions[i] == HeldFor(s, errors, i)
  {
    hide AlreadyAttempted, TriedBefore, Repairable, AllRepairable;
    RepairableExactly(errors, i);
    SameAttempted(s, t, i, DecisionsOf(errors, i));
    TriedExactly(s, i, DecisionsOf(errors, i));
  }

  /** The state before the repair call: what is not due is held already. */
  lemma BeforeExactly(s: State, t: State, errors: seq<Failure>)
    requires SameTries(s, t, ItemsOf(errors))
    ensures var u := BeforeRepair(t, errors);
            u == t.(exceptions := u.exceptions) && HeldBefore(s, t, u, errors)
  {
    hide AlreadyAttempted, Repairable, RepairsDue, HeldFor;
    forall i
      ensures i in ItemsOf(errors) && i !in RepairsDue(s, errors) ==>
                i in BeforeRepair(t, errors).exceptions
                && BeforeRepair(t, errors).exceptions[i] == HeldFor(s, errors, i)
    {
      if i in ItemsOf(errors) && i !in RepairsDue(s, errors) {
        NotDueIsHeld(s, t, errors, i);
      }
    }
  }

  /** Why a product that is due but not verified is held. */
  lemma UnverifiedHold(s: State, errors: seq<Failure>, i: Item)
    requires i in RepairsDue(s, errors)
    ensures HeldFor(s, errors, i) == [Decision(i, "", RepairUnverified, Manual, None)] && i in ItemsOf(errors)
  {
  }

  lemma RepairFailedExactly(o: Oracle, s: State, t: State, errors: seq<Failure>, n: nat)
    requires SameTries(s, t, ItemsOf(errors))
    ensures var p, due := RepairFailed(o, t, errors, n), RepairsDue(s, errors);
            if due == {} then
              p.calls == n && p.fault.None? && p.next == {} && HeldRest(s, t, p.state, errors, ItemsOf(errors), {})
            else if !Covers(o.rows(n), due, false) || !ChangesAsText(o.rows(n).value) then
              p.calls == n + 1 && p.fault == Some(RepairRefused(n, due)) && p.next == {}
            else
              && p.calls == n + 1 && p.fault.None?
              && p.next == (set i | i in due && ChangeVerified(o.rows(n).value, i))
              && HeldRest(s, t, p.state, errors, ItemsOf(errors), p.next)
  {
    hide CallRepair, RepairsDue, HeldFor, HeldBefore, HeldRest, Covers, ChangesAsText, ChangeVerified, AlreadyAttempted;
    var repairs, u := RepairableOf(errors), BeforeRepair(t, errors);
    var due := RepairsDue(s, errors);
    DueExactly(s, t, errors);
    BeforeExactly(s, t, errors);
    var untried := repairs - AttemptedIn(t, repairs);
    assert untried.Keys == due;
    forall i | i in repairs && due == {} ensures i in AttemptedIn(t, repairs) {
      assert i !in untried.Keys;
    }
    if due == {} {
      AllHeld(s, t, u, errors);
    } else {
      var p := CallRepair(o, u, untried, n);
      CallExactly(o, u, untried, n);
      if p.fault.None? {
        RestHeld(s, t, u, p.state, errors, p.next);
      }
    }
  }

  /** Before the repair call: what is not due is held, and nothing else has changed. */
  ghost predicate HeldBefore(s: State, t: State, u: State, errors: seq<Failure>) {
    forall i :: && (i in ItemsOf(errors) && i !in RepairsDue(s, errors) ==>
                      i in u.exceptions && u.exceptions[i] == HeldFor(s, errors, i))
                && (i !in ItemsOf(errors) ==> SameHold(t, u, i))
  }

  lemma AllHeld(s: State, t: State, u: State, errors: seq<Failure>)
    requires HeldBefore(s, t, u, errors) && RepairsDue(s, errors) == {}
    ensures HeldRest(s, t, u, errors, ItemsOf(errors), {})
  {
    hide HeldFor, SameHold, RepairsDue;
  }

  lemma RestHeld(s: State, t: State, u: State, v: State, errors: seq<Failure>, again: set<Item>)
    requires HeldBefore(s, t, u, errors) && again <= RepairsDue(s, errors)
    requires forall i :: (i in RepairsDue(s, errors) && i !in again ==>
                            i in v.exceptions
                            && v.exceptions[i] == [Decision(i, "", RepairUnverified, Manual, None)])
                         && (i in again ==> i !in v.exceptions)
                         && (i !in RepairsDue(s, errors) ==> SameHold(u, v, i))
    ensures HeldRest(s, t, v, errors, ItemsOf(errors), again)
  {
    hide HeldFor, RepairsDue;
    forall i
      ensures i in again ==> i !in v.exceptions
      ensures i in ItemsOf(errors) && i !in again ==> i in v.exceptions && v.exceptions[i] == HeldFor(s, errors, i)
      ensures i !in ItemsOf(errors) ==> SameHold(t, v, i)
    {
      if i in RepairsDue(s, errors) {
        UnverifiedHold(s, errors, i);
      }
    }
  }

  /** A report and its repair, made in a state with the same earlier repairs, end exactly as told. */
  lemma ReportExactly(o: Oracle, s: State, t: State, batch: string, items: set<Item>, text: bool, n: nat)
    requires SameTries(s, t, items)
    ensures var p, b := ReportAndRepair(o, t, batch, items, text, n), ReportThenRepair(o, s, batch, items, text, n);
            && p.calls == b.end && p.fault == b.fault && p.next == b.again
            && (p.fault.None? ==> o.report(n).Some? && HeldRest(s, t, p.state, o.report(n).value, items, b.again))
  {
    hide RepairFailed, RepairsDue, Covers, ChangesAsText, ChangeVerified, HeldRest;
    ReportsExactly(o.report(n), batch, items);
    if text && Reports(o.report(n), batch, items) {
      assert ItemsOf(o.report(n).value) == items;
      RepairFailedExactly(o, s, t, o.report(n).value, n + 1);
    }
  }

  lemma RowsKeepTries(s: State, reply: RowsReply, k: nat, repairs: map<Item, seq<Decision>>, i: Item)
    requires k <= |reply.rows| && i !in repairs
    ensures var t := AfterRows(s, reply, k, repairs);
            SeenOf(t, i) == SeenOf(s, i) && CorrectionsOf(t, i) == CorrectionsOf(s, i)
  {
    hide HeldRows, VerifiedIn;
  }

  lemma CallKeepsTries(o: Oracle, s: State, repairs: map<Item, seq<Decision>>, n: nat, others: set<Item>)
    requires forall i :: i in others ==> i !in repairs
    ensures SameTries(s, CallRepair(o, s, repairs, n).state, others)
  {
    hide AfterRows, ReadRows, SeenOf, CorrectionsOf;
    var reply := o.rows(n);
    if reply.Some? {
      forall i | i in others
        ensures var t := AfterRows(s, reply.value, ReadRows(reply.value, |reply.value.rows|), repairs);
                SeenOf(t, i) == SeenOf(s, i) && CorrectionsOf(t, i) == CorrectionsOf(s, i)
      {
        RowsKeepTries(s, reply.value, ReadRows(reply.value, |reply.value.rows|), repairs, i);
      }
    }
  }

  lemma RepairKeepsTries(o: Oracle, s: State, errors: seq<Failure>, n: nat, others: set<Item>)
    requires forall i :: i in others ==> i !in ItemsOf(errors)
    ensures SameTries(s, RepairFailed(o, s, errors, n).state, others)
  {
    hide CallRepair, SeenOf, CorrectionsOf, AlreadyAttempted, Repairable;
    var t, repairs := BeforeRepair(s, errors), RepairableOf(errors);
    SameHistory(s, t, others);
    CallKeepsTries(o, t, repairs - AttemptedIn(s, repairs), n, others);
  }

  lemma SameHistory(s: State, t: State, items: set<Item>)
    requires t.seen == s.seen && t.corrections == s.corrections
    ensures SameTries(s, t, items)
  {
  }

  /** A report and its repair leave the tries of all other products as they are. */
  lemma ReportKeepsTries(o: Oracle, s: State, batch: string, items: set<Item>, text: bool, n: nat, others: set<Item>)
    requires items !! others
    ensures SameTries(s, ReportAndRepair(o, s, batch, items, text, n).state, others)
  {
    hide RepairFailed, SeenOf, CorrectionsOf;
    var report := o.report(n);
    if report.Some? && text && ReportFits(report.value, batch, items) {
      forall i | i in others ensures i !in ItemsOf(report.value) {
        assert i !in items * others ==> i !in items;
      }
      RepairKeepsTries(o, s, report.value, n + 1, others);
    }
  }

  // ---------- the discounts of a round ----------

  /** Partial products are reported and repaired only when their failure rows were verified. */
  ghost function AfterPartial(o: Oracle, s: State, reply: RowsReply, n: nat): Block {
    var partial := With(reply, PartialItem);
    if partial == {} || !reply.partialVerified then Block(n, None, {})
    else ReportThenRepair(o, s, reply.batch, partial, AsText(reply, partial), n)
  }

  /** Failed products are reported, and what is due is repaired. */
  ghost function AfterFailed(o: Oracle, s: State, reply: RowsReply, n: nat): Block {
    var failed := With(reply, FailedItem);
    if failed == {} then Block(n, None, {})
    else ReportThenRepair(o, s, reply.batch, failed, AsText(reply, failed), n)
  }

  /** The products that leave the round: the failed ones, and the partial ones given by text. */
  function LeftOut(reply: RowsReply): set<Item> {
    With(reply, FailedItem) + set r | r in reply.rows && r.outcome == PartialItem && r.text :: r.item
  }

  /** Where the discounts end: the next call, why they stop, and what of their products is tried again. */
  ghost function DiscountsEnd(o: Oracle, s: State, items: set<Item>, n: nat): Block {
    if !Covers(o.rows(n), items, true) then Block(n + 1, Some(DiscountRefused(n, items)), {})
    else
      var reply := o.rows(n).value;
      var first := AfterPartial(o, s, reply, n + 1);
      if first.fault.Some? then first
      else
        var second := AfterFailed(o, s, reply, first.end);
        if second.fault.Some? then second else Block(second.end, None, first.again + second.again)
  }

  lemma RowsDiffer(reply: RowsReply, items: set<Item>, a: Row, b: Row)
    requires Covers(Some(reply), items, true) && a in reply.rows && b in reply.rows && a.item == b.item
    ensures a == b
  {
    var i :| 0 <= i < |reply.rows| && reply.rows[i] == a;
    var j :| 0 <= j < |reply.rows| && reply.rows[j] == b;
    assert i == j;
  }

  lemma LeftOutExactly(reply: RowsReply, items: set<Item>)
    requires Covers(Some(reply), items, true)
    ensures RemovedBy(reply) == LeftOut(reply) && With(reply, PartialItem) !! With(reply, FailedItem)
    ensures LeftOut(reply) <= items
    ensures AsText(reply, With(reply, PartialItem)) ==> With(reply, PartialItem) <= LeftOut(reply)
  {
    forall i | i in With(reply, PartialItem) && i in With(reply, FailedItem) ensures false {
      var a :| a in reply.rows && a.outcome == PartialItem && a.item == i;
      var b :| b in reply.rows && b.outcome == FailedItem && b.item == i;
      RowsDiffer(reply, items, a, b);
    }
    forall r | r in reply.rows && r.outcome == PartialItem ensures r.item in Numeric(reply) <==> !r.text {
      if r.item in Numeric(reply) {
        var b :| b in reply.rows && !b.text && b.item == r.item;
        RowsDiffer(reply, items, r, b);
      }
    }
    assert ItemsWith(reply, PartialItem) == With(reply, PartialItem);
  }

  lemma PartialExactly(o: Oracle, s: State, reply: RowsReply, n: nat, others: set<Item>)
    requires With(reply, PartialItem) !! others || !reply.partialVerified
    ensures var p, b, partial := RepairPartial(o, s, reply, n), AfterPartial(o, s, reply, n), With(reply, PartialItem);
            && p.calls == b.end && p.fault == b.fault && p.next == b.again && SameTries(s, p.state, others)
  {
    hide ReportAndRepair, ReportThenRepair, HeldRest, HoldAll;
    var partial := With(reply, PartialItem);
    var t := Held(s, partial, PartialImport);
    assert ItemsWith(reply, PartialItem) == partial;
    TextExactly(reply, partial);
    ReportExactly(o, s, t, reply.batch, partial, AsText(reply, partial), n);
    if partial !! others {
      ReportKeepsTries(o, t, reply.batch, partial, AsText(reply, partial), n, others);
    }
  }

  lemma FailedExactly(o: Oracle, s: State, t: State, reply: RowsReply, n: nat, others: set<Item>)
    requires SameTries(s, t, With(reply, FailedItem) + others) && With(reply, FailedItem) !! others
    ensures var p, b := RepairRefusals(o, t, reply, n), AfterFailed(o, s, reply, n);
            && p.calls == b.end && p.fault == b.fault && p.next == b.again && SameTries(s, p.state, others)
  {
    hide ReportAndRepair, ReportThenRepair, HeldRest;
    var failed := With(reply, FailedItem);
    assert ItemsWith(reply, FailedItem) == failed;
    TextExactly(reply, failed);
    ReportExactly(o, s, t, reply.batch, failed, AsText(reply, failed), n);
    ReportKeepsTries(o, t, reply.batch, failed, AsText(reply, failed), n, others);
  }

  /** The discount phase ends exactly as told, and leaves the tries of the products that stay as they are. */
  lemma DiscountExactly(o: Oracle, s: State, items: set<Item>, n: nat, others: set<Item>)
    ensures var d, e := DiscountPhase(o, s, items, n), DiscountsEnd(o, s, items, n);
            && d.calls == e.end && d.fault == e.fault
            && (d.fault.None? ==>
                  var reply := o.rows(n).value;
                  && o.rows(n).Some? && d.retries == e.again && d.removed == LeftOut(reply)
                  && (d.refused <==> With(reply, FailedItem) + With(reply, PartialItem) != {})
                  && (LeftOut(reply) !! others ==> SameTries(s, d.state, others)))
  {
    hide RepairPartial, RepairRefusals, RemovedBy, AfterPartial, AfterFailed, LeftOut, With, Covers, TerminalScope;
    CoversExactly(o.rows(n), items, true);
    if Covers(o.rows(n), items, true) {
      DiscountOfReply(o, s, o.rows(n).value, items, n, others);
      assert With(o.rows(n).value, FailedItem) == ItemsWith(o.rows(n).value, FailedItem)
             && With(o.rows(n).value, PartialItem) == ItemsWith(o.rows(n).value, PartialItem) by {
        SameWith(o.rows(n).value);
      }
    }
  }

  lemma SameWith(reply: RowsReply)
    ensures forall outcome :: With(reply, outcome) == ItemsWith(reply, outcome)
  {
  }

  lemma DiscountOfReply(o: Oracle, s: State, reply: RowsReply, items: set<Item>, n: nat, others: set<Item>)
    requires Covers(Some(reply), items, true)
    ensures var p, first := RepairPartial(o, s, reply, n + 1), AfterPartial(o, s, reply, n + 1);
            var f, second := RepairRefusals(o, p.state, reply, p.calls), AfterFailed(o, s, reply, first.end);
            && p.calls == first.end && p.fault == first.fault && p.next == first.again
            && RemovedBy(reply) == LeftOut(reply)
            && (p.fault.None? ==>
                  && f.calls == second.end && f.fault == second.fault && f.next == second.again
                  && (LeftOut(reply) !! others ==> SameTries(s, f.state, others)))
  {
    hide RepairPartial, RepairRefusals, RemovedBy, AfterFailed, ReportThenRepair, Covers;
    var failed, partial := With(reply, FailedItem), With(reply, PartialItem);
    LeftOutExactly(reply, items);
    PartialExactly(o, s, reply, n + 1, failed);
    var p := RepairPartial(o, s, reply, n + 1);
    FailedExactly(o, s, p.state, reply, p.calls, {});
    if p.fault.None? && LeftOut(reply) !! others {
      if reply.partialVerified {
        VerifiedAsText(o, s, reply, n + 1);
      }
      assert failed <= LeftOut(reply);
      PartialExactly(o, s, reply, n + 1, failed + others);
      FailedExactly(o, s, p.state, reply, p.calls, others);
    }
  }

  /** A partial repair that goes through had its products given by text. */
  lemma VerifiedAsText(o: Oracle, s: State, reply: RowsReply, n: nat)
    requires AfterPartial(o, s, reply, n).fault.None? && reply.partialVerified
    ensures AsText(reply, With(reply, PartialItem))
  {
  }

  // ---------- the enrolment of a round ----------

  /**
   * Where a round ends: the next call, why it stops, and unless it stops the products of the next round;
   * also which call was the signup, and of which products.
   */
  datatype End = End(calls: nat, fault: Option<Fault>, pending: set<Item>, signup: Option<nat>, submitted: set<Item>)

  /** A round that ends before any signup. */
  function Before(calls: nat, fault: Option<Fault>, pending: set<Item>): End {
    End(calls, fault, pending, None, {})
  }

  predicate NewBundle(o: Oracle, n: nat, items: set<Item>) {
    o.bundle(n).Some? && o.bundle(n).value.valid && o.bundle(n).value.items == items
  }

  predicate AllCorrect(o: Oracle, n: nat, items: set<Item>) {
    && o.window(n).Some? && o.window(n).value.windowExact && o.window(n).value.allCorrect
    && o.window(n).value.items == items
  }

  /** Call n is the signup of exactly these products; its failed ones are reported, and repaired if due. */
  ghost function SignupEnd(o: Oracle, s: State, signup: set<Item>, again: set<Item>, n: nat): End {
    if !Covers(o.rows(n), signup, false) then End(n + 1, Some(SignupRefused(n, signup)), {}, Some(n), signup)
    else
      var reply := o.rows(n).value;
      var failed := With(reply, FailedItem);
      if failed == {} then End(n + 1, None, again, Some(n), signup)
      else
        var b := ReportThenRepair(o, s, reply.batch, failed, AsText(reply, failed), n + 1);
        End(b.end, b.fault, again + b.again, Some(n), signup)
  }

  /** Call n reads exactly this work back; what is not enrolled of it is signed up, with its own bundle. */
  ghost function EnrolEnd(o: Oracle, s: State, work: set<Item>, enrolled: set<Item>, again: set<Item>, n: nat): End {
    if !AllCorrect(o, n, work) then Before(n + 1, Some(WindowRefused(n, work)), {})
    else
      var signup := work - enrolled;
      if signup == {} then Before(n + 1, None, again)
      else if signup == work then SignupEnd(o, s, signup, again, n + 1)
      else if !NewBundle(o, n + 1, signup) then Before(n + 2, Some(SubsetRefused(n + 1, signup)), {})
      else SignupEnd(o, s, signup, again, n + 2)
  }

  /** After the discounts: with what is left, and a bundle for exactly that when some discount was refused. */
  ghost function WorkEnd(o: Oracle, s: State, work: set<Item>, enrolled: set<Item>, refused: bool, again: set<Item>,
                         n: nat): End
  {
    if work == {} then Before(n, None, again)
    else if !refused then EnrolEnd(o, s, work, enrolled, again, n)
    else if !NewBundle(o, n, work) then Before(n + 1, Some(SubsetRefused(n, work)), {})
    else EnrolEnd(o, s, work, enrolled, again, n + 1)
  }

  /** From the accepted bundle on: its discounts, if any, and then the rest. */
  ghost function SubmitEnd(o: Oracle, s: State, pending: set<Item>, enrolled: set<Item>, items: set<Item>, n: nat)
    : End
  {
    if items == {} then WorkEnd(o, s, pending, enrolled, false, {}, n)
    else
      var d := DiscountsEnd(o, s, items, n);
      if d.fault.Some? then Before(d.end, d.fault, {})
      else
        var reply := o.rows(n).value;
        WorkEnd(o, s, pending - LeftOut(reply), enrolled, With(reply, FailedItem) + With(reply, PartialItem) != {},
                d.again, d.end)
  }

  /** The products that a list of missing inputs names. */
  function Named(issues: seq<(Item, Decision)>): set<Item> {
    set x | x in issues :: x.0
  }

  /** A bundle for exactly these products: its discounts are distinct, among them, and include the required ones. */
  predicate Accepts(b: BundleReply, pending: set<Item>, required: set<Item>) {
    && b.valid && b.items == pending && (forall i :: i in required ==> i in b.discountItems)
    && (forall i :: i in b.discountItems ==> i in pending)
    && forall i, j :: 0 <= i < j < |b.discountItems| ==> b.discountItems[i] != b.discountItems[j]
  }

  /** The whole round, call by call, from the replies. */
  ghost function RoundEnd(o: Oracle, daily: bool, s: State, n: nat): End {
    if o.template.None? || !(o.template.value <= s.initial) then Before(n, Some(TemplateRefused), {})
    else
      var registered := o.template.value;
      var pending := if daily then PendingOf(s) else PendingOf(s) - registered;
      var enrolled := if daily then s.enrolled + registered else s.enrolled;
      if pending == {} then Before(n, None, {})
      else if o.bundle(n).None? then Before(n + 1, Some(BundleRefused(n, pending, s.required)), {})
      else
        var b := o.bundle(n).value;
        if b.issues != [] then
          if Named(b.issues) <= pending then Before(n + 1, None, pending - Named(b.issues))
          else Before(n + 1, Some(BundleRefused(n, pending, s.required)), {})
        else if !Accepts(b, pending, s.required) then Before(n + 1, Some(BundleRefused(n, pending, s.required)), {})
        else SubmitEnd(o, s, pending, enrolled, SetOf(b.discountItems), n + 1)
  }

  /** The round went as told. */
  ghost predicate Ended(r: Round, e: End) {
    && r.calls == e.calls && r.fault == e.fault && r.signup == e.signup && r.submitted == e.submitted
    && (r.fault.None? ==> PendingOf(r.state) == e.pending)
  }

  predicate Unsigned(r: Round) {
    r.signup.None? && r.submitted == {}
  }

  lemma SignupExactly(o: Oracle, s: State, r: Round, signup: set<Item>, retries: set<Item>, n: nat)
    requires SameTries(s, r.state, signup)
    ensures Ended(EnrolNow(o, r, signup, retries, n), SignupEnd(o, s, signup, retries, n))
  {
    hide ReportAndRepair, ReportThenRepair, HeldRest, Covers, TerminalScope;
    CoversExactly(o.rows(n), signup, false);
    if Covers(o.rows(n), signup, false) {
      var reply := o.rows(n).value;
      var failed, t := With(reply, FailedItem), r.state.(success := r.state.success + SignedUp(reply));
      SameWith(reply);
      TextExactly(reply, failed);
      FailedInScope(reply, signup);
      ReportExactly(o, s, t, reply.batch, failed, AsText(reply, failed), n + 1);
    }
  }

  lemma FailedInScope(reply: RowsReply, signup: set<Item>)
    requires Covers(Some(reply), signup, false)
    ensures With(reply, FailedItem) <= signup
  {
  }

  lemma EnrolExactly(o: Oracle, s: State, r: Round, work: set<Item>, retries: set<Item>)
    requires SameTries(s, r.state, work) && r.fault.None? && Unsigned(r)
    ensures Ended(Enrol(o, r, work, retries), EnrolEnd(o, s, work, r.state.enrolled, retries, r.calls))
  {
    hide EnrolNow, SignupEnd;
    var signup, n := work - r.state.enrolled, r.calls;
    var u := r.(calls := n + 1, window := Some(n));
    assert SameTries(s, u.state, signup);
    SignupExactly(o, s, u, signup, retries, n + 1);
    SignupExactly(o, s, u, signup, retries, n + 2);
  }

  lemma WorkExactly(o: Oracle, s: State, t: State, r: Round, d: Discounts, work: set<Item>)
    requires r.state == d.state && r.fault.None? && d.fault.None? && work == PendingOf(t) - d.removed
    requires SameTries(s, d.state, work) && Unsigned(r)
    ensures Ended(AfterDiscounts(o, t, r, d), WorkEnd(o, s, work, d.state.enrolled, d.refused, d.retries, r.calls))
  {
    hide Enrol, EnrolEnd;
    EnrolExactly(o, s, r, work, d.retries);
    EnrolExactly(o, s, r.(calls := r.calls + 1), work, d.retries);
  }

  lemma SubmitExactly(o: Oracle, s: State, t: State, items: set<Item>, r: Round)
    requires r.fault.None? && t.seen == s.seen && t.corrections == s.corrections && Unsigned(r)
    ensures Ended(Submit(o, t, items, r), SubmitEnd(o, s, PendingOf(t), t.enrolled, items, r.calls))
  {
    hide AfterDiscounts, WorkEnd, DiscountPhase, DiscountsEnd, LeftOut, With;
    var d := DiscountsOf(o, t, items, r.calls);
    var u := r.(state := d.state, calls := d.calls, discount := if items == {} then None else Some(r.calls));
    DiscountOnState(o, s, t, items, r.calls);
    var work := PendingOf(t) - d.removed;
    if items == {} {
      assert work == PendingOf(t);
      WorkExactly(o, s, t, u, d, work);
    } else {
      DiscountExactly(o, t, items, r.calls, work);
      EnrolledStays(o, t, items, r.calls);
      if d.fault.Some? {
        StoppedAfter(o, t, u, d);
      } else {
        assert SameTries(s, d.state, work) by {
          assert SameTries(t, d.state, work);
        }
        WorkExactly(o, s, t, u, d, work);
      }
    }
  }

  /** What the told end depends on of the state: the earlier repairs. */
  lemma DiscountOnState(o: Oracle, s: State, t: State, items: set<Item>, n: nat)
    requires t.seen == s.seen && t.corrections == s.corrections
    ensures DiscountsEnd(o, t, items, n) == DiscountsEnd(o, s, items, n)
  {
    forall batch, i, text, m
      ensures ReportThenRepair(o, t, batch, i, text, m) == ReportThenRepair(o, s, batch, i, text, m)
    {
      ReportOnState(o, s, t, batch, i, text, m);
    }
  }

  lemma ReportOnState(o: Oracle, s: State, t: State, batch: string, items: set<Item>, text: bool, n: nat)
    requires t.seen == s.seen && t.corrections == s.corrections
    ensures ReportThenRepair(o, t, batch, items, text, n) == ReportThenRepair(o, s, batch, items, text, n)
  {
    if o.report(n).Some? {
      var errors := o.report(n).value;
      forall e | e in errors
        ensures TriedBefore(t, e.item, DecisionsOf(errors, e.item))
                <==> TriedBefore(s, e.item, DecisionsOf(errors, e.item))
      {
      }
      assert RepairsDue(t, errors) == RepairsDue(s, errors);
    }
  }

  lemma EnrolledStays(o: Oracle, s: State, items: set<Item>, n: nat)
    requires items != {}
    ensures DiscountPhase(o, s, items, n).state.enrolled == s.enrolled
  {
    hide DiscountPhase;
    DiscountsGate(o, s, items, n);
  }

  lemma StoppedAfter(o: Oracle, s: State, r: Round, d: Discounts)
    requires d.fault.Some?
    ensures AfterDiscounts(o, s, r, d) == r.(fault := d.fault)
  {
  }

  /**
   * Every round ends exactly as its replies tell: the calls it makes, the one at which it stops, and
   * the products of the next round.
   */
  lemma RoundEndsExactly(o: Oracle, daily: bool, s: State, n: nat)
    requires s.pending.Some?
    ensures Ended(Turn(o, daily, s, n), RoundEnd(o, daily, s, n))
  {
    hide Submit, SubmitEnd;
    if o.template.Some? && o.template.value <= s.initial {
      var t, b := AfterTemplate(s, o.template.value, daily), o.bundle(n);
      if b.Some? {
        BundleExactly(b.value, PendingOf(t), t.required);
        SubmitExactly(o, s, t, SetOf(b.value.discountItems), Quiet(t, n + 1, None).(bundle := Some(n)));
      }
    }
  }

  lemma BundleExactly(b: BundleReply, pending: set<Item>, required: set<Item>)
    ensures BundleFits(b, pending, required)
            <==> if b.issues != [] then Named(b.issues) <= pending else Accepts(b, pending, required)
    ensures IssueItems(b.issues) == Named(b.issues)
  {
  }

  // ---------- the failed products of a signup ----------

  lemma AgainLeftOut(o: Oracle, s: State, items: set<Item>, n: nat)
    requires DiscountsEnd(o, s, items, n).fault.None?
    ensures o.rows(n).Some? && DiscountsEnd(o, s, items, n).again <= LeftOut(o.rows(n).value)
  {
    hide RepairsDue, Covers;
    CoversExactly(o.rows(n), items, true);
    var reply := o.rows(n).value;
    var first := AfterPartial(o, s, reply, n + 1);
    hide AfterPartial, AfterFailed;
    OneAgain(o, s, reply, n + 1);
    OneAgain(o, s, reply, first.end);
    LeftOutExactly(reply, items);
  }

  /** What is tried again after one report was reported in it. */
  lemma OneAgain(o: Oracle, s: State, reply: RowsReply, n: nat)
    ensures AfterFailed(o, s, reply, n).again <= With(reply, FailedItem)
    ensures AfterPartial(o, s, reply, n).again <= With(reply, PartialItem)
    ensures AfterPartial(o, s, reply, n).again != {} ==> AsText(reply, With(reply, PartialItem))
  {
    hide Covers, ChangesAsText, ChangeVerified, TriedBefore, AllRepairable;
  }

  /** The signup of a round: its end, when the products tried again so far are not among those submitted. */
  lemma SubmittedApart(o: Oracle, s: State, pending: set<Item>, enrolled: set<Item>, items: set<Item>, n: nat)
    returns (again: set<Item>)
    requires SubmitEnd(o, s, pending, enrolled, items, n).signup.Some?
    ensures var e := SubmitEnd(o, s, pending, enrolled, items, n);
            again !! e.submitted && e == SignupEnd(o, s, e.submitted, again, e.signup.value)
  {
    hide SignupEnd, DiscountsEnd, LeftOut, Covers;
    SignupKnown(o, s);
    again := {};
    if items != {} {
      AgainLeftOut(o, s, items, n);
      again := DiscountsEnd(o, s, items, n).again;
    }
  }

  lemma SignupKnown(o: Oracle, s: State)
    ensures forall signup, again, m: nat :: SignupEnd(o, s, signup, again, m).signup == Some(m)
                                       && SignupEnd(o, s, signup, again, m).submitted == signup
  {
  }

  /** What the report of the failed products and their repair tell of the rest of the round. */
  ghost predicate Retold(o: Oracle, s: State, reply: RowsReply, m: nat, calls: nat, fault: Option<Fault>,
                         pending: set<Item>)
  {
    var failed := With(reply, FailedItem);
    if !AsText(reply, failed) || !Reports(o.report(m + 1), reply.batch, failed) then
      calls == m + 2 && fault == Some(ReportRefused(m + 1, reply.batch, failed, AsText(reply, failed)))
    else
      var errors := o.report(m + 1).value;
      var due := RepairsDue(s, errors);
      if due != {} && (!Covers(o.rows(m + 2), due, false) || !ChangesAsText(o.rows(m + 2).value)) then
        calls == m + 3 && fault == Some(RepairRefused(m + 2, due))
      else
        && fault.None? && calls == (if due == {} then m + 2 else m + 3)
        && forall item :: item in failed ==>
             (item in pending
              <==> AllRepairable(errors, item) && !TriedBefore(s, item, DecisionsOf(errors, item))
                   && o.rows(m + 2).Some? && ChangeVerified(o.rows(m + 2).value, item))
  }

  lemma SignupTells(o: Oracle, s: State, signup: set<Item>, again: set<Item>, m: nat)
    requires Covers(o.rows(m), signup, false) && again !! signup
    requires With(o.rows(m).value, FailedItem) != {}
    ensures var e := SignupEnd(o, s, signup, again, m);
            Retold(o, s, o.rows(m).value, m, e.calls, e.fault, e.pending)
  {
    hide Covers, AllRepairable, TriedBefore, ChangeVerified, ChangesAsText, RepairsDue, AsText;
    CoversExactly(o.rows(m), signup, false);
    var reply := o.rows(m).value;
    var failed := With(reply, FailedItem);
    FailedInScope(reply, signup);
    if Reports(o.report(m + 1), reply.batch, failed) {
      var errors := o.report(m + 1).value;
      CoversExactly(o.rows(m + 2), RepairsDue(s, errors), false);
      forall item | item in failed
        ensures item in RepairsDue(s, errors)
                <==> AllRepairable(errors, item) && !TriedBefore(s, item, DecisionsOf(errors, item))
        ensures item !in again
      {
        DueMember(s, errors, item);
        assert item !in again * signup;
      }
    }
  }

  /**
   * When the signup reply of a round reports failed products, the next call is their report, and the
   * round stops there if it does not name exactly them. If some of them are due for a repair, the call
   * after that is their repair, at which the round stops if its terminal does not fit. Otherwise a failed
   * product is in the next round if and only if all its failures are repairable, the repair was not tried
   * before, and the repair reply verifies its change.
   */
  lemma FailedSignupsAreRepaired(o: Oracle, daily: bool, s: State, n: nat)
    requires s.pending.Some? && Turn(o, daily, s, n).signup.Some?
    requires var r := Turn(o, daily, s, n); Covers(o.rows(r.signup.value), r.submitted, false)
    requires With(o.rows(Turn(o, daily, s, n).signup.value).value, FailedItem) != {}
    ensures var r := Turn(o, daily, s, n);
            Retold(o, s, o.rows(r.signup.value).value, r.signup.value, r.calls, r.fault, PendingOf(r.state))
  {
    hide Turn, Covers, RoundEnd, SignupEnd, Retold;
    RoundEndsExactly(o, daily, s, n);
    var r := Turn(o, daily, s, n);
    var again := SignedApart(o, daily, s, n);
    SignupTells(o, s, r.submitted, again, r.signup.value);
    CoversExactly(o.rows(r.signup.value), r.submitted, false);
    if r.fault.Some? {
      var e := RoundEnd(o, daily, s, n);
      StoppedIsRetold(o, s, o.rows(r.signup.value).value, r.signup.value, r.calls, r.fault, e.pending,
                      PendingOf(r.state));
    }
  }

  /** Of a round that stops it does not matter what is pending. */
  lemma StoppedIsRetold(o: Oracle, s: State, reply: RowsReply, m: nat, calls: nat, fault: Option<Fault>,
                        pending: set<Item>, other: set<Item>)
    requires Retold(o, s, reply, m, calls, fault, pending) && fault.Some?
    ensures Retold(o, s, reply, m, calls, fault, other)
  {
    hide Covers, AllRepairable, TriedBefore, ChangeVerified, ChangesAsText, RepairsDue, AsText, Reports;
  }

  lemma DueMember(s: State, errors: seq<Failure>, item: Item)
    requires exists e :: e in errors && e.item == item
    ensures item in RepairsDue(s, errors)
            <==> AllRepairable(errors, item) && !TriedBefore(s, item, DecisionsOf(errors, item))
  {
    hide AllRepairable, TriedBefore;
  }

  lemma SignedApart(o: Oracle, daily: bool, s: State, n: nat) returns (again: set<Item>)
    requires RoundEnd(o, daily, s, n).signup.Some?
    ensures var e := RoundEnd(o, daily, s, n);
            again !! e.submitted && e == SignupEnd(o, s, e.submitted, again, e.signup.value)
  {
    hide SubmitEnd, SignupEnd;
    var registered := o.template.value;
    var pending := if daily then PendingOf(s) else PendingOf(s) - registered;
    var enrolled := if daily then s.enrolled + registered else s.enrolled;
    again := SubmittedApart(o, s, pending, enrolled, SetOf(o.bundle(n).value.discountItems), n + 1);
  }

  // ---------- the refused products of the discounts ----------

  /** What is left of a round adds only its own work to the products that are tried again. */
  lemma WorkAdds(o: Oracle, s: State, work: set<Item>, enrolled: set<Item>, refused: bool, again: set<Item>, n: nat)
    requires WorkEnd(o, s, work, enrolled, refused, again, n).fault.None?
    ensures again <= WorkEnd(o, s, work, enrolled, refused, again, n).pending <= again + work
  {
    hide SignupEnd;
    forall m: nat | SignupEnd(o, s, work - enrolled, again, m).fault.None?
      ensures again <= SignupEnd(o, s, work - enrolled, again, m).pending <= again + work
    {
      SignupAdds(o, s, work - enrolled, again, m);
    }
  }

  lemma SignupAdds(o: Oracle, s: State, signup: set<Item>, again: set<Item>, n: nat)
    requires SignupEnd(o, s, signup, again, n).fault.None?
    ensures again <= SignupEnd(o, s, signup, again, n).pending <= again + signup
  {
    hide ReportThenRepair, Covers;
    CoversExactly(o.rows(n), signup, false);
    if Covers(o.rows(n), signup, false) {
      var reply := o.rows(n).value;
      FailedInScope(reply, signup);
      OneAgain(o, s, reply, n + 1);
    }
  }

  lemma TurnDiscounts(o: Oracle, daily: bool, s: State, n: nat)
    requires Turn(o, daily, s, n).discount.Some?
    ensures var r := Turn(o, daily, s, n);
            && o.template.Some? && o.template.value <= s.initial && o.bundle(n).Some? && r.discount == Some(n + 1)
            && var t, b := AtStart(o, daily, s), o.bundle(n).value;
            && PendingOf(t) != {} && b.issues == [] && BundleFits(b, PendingOf(t), t.required) && b.discountItems != []
  {
    hide AfterDiscounts, DiscountPhase;
    var t, b := AtStart(o, daily, s), o.bundle(n);
    if b.Some? {
      var r := Quiet(t, n + 1, None).(bundle := Some(n));
      var items := SetOf(b.value.discountItems);
      var d := DiscountsOf(o, t, items, n + 1);
      AfterDiscountsGate(o, t, r.(state := d.state, calls := d.calls,
                                  discount := if items == {} then None else Some(r.calls)), d);
    }
  }

  /**
   * When the discount reply of a round refuses products, a partial one is in the next round if and only if
   * its failure rows were verified and its report and repair say so, and a failed one if and only if its own
   * report and repair, made after those, say so; none of the others that leave the round is. The round stops
   * where one of these replies does not fit.
   */
  lemma RefusedDiscountsAreRepaired(o: Oracle, daily: bool, s: State, n: nat)
    requires s.pending.Some? && Turn(o, daily, s, n).discount.Some?
    requires Covers(o.rows(n + 1), SetOf(o.bundle(n).value.discountItems), true)
    ensures var r, reply := Turn(o, daily, s, n), o.rows(n + 1).value;
            && r.discount == Some(n + 1) && o.rows(n + 1).Some?
            && var first := AfterPartial(o, s, reply, n + 2);
            var second := AfterFailed(o, s, reply, first.end);
            if first.fault.Some? then r.calls == first.end && r.fault == first.fault
            else if second.fault.Some? then r.calls == second.end && r.fault == second.fault
            else
              r.fault.None? ==>
                forall i :: i in LeftOut(reply) ==> (i in PendingOf(r.state) <==> i in first.again || i in second.again)
  {
    hide Turn, Covers, AfterPartial, AfterFailed, LeftOut, WorkEnd, With, AtStart;
    TurnDiscounts(o, daily, s, n);
    RoundEndsExactly(o, daily, s, n);
    var items := SetOf(o.bundle(n).value.discountItems);
    CoversExactly(o.rows(n + 1), items, true);
    TurnIsSubmit(o, daily, s, n);
    var t, r, reply := AtStart(o, daily, s), Turn(o, daily, s, n), o.rows(n + 1).value;
    var d := DiscountsEnd(o, s, items, n + 1);
    if d.fault.None? && r.fault.None? {
      WorkAdds(o, s, PendingOf(t) - LeftOut(reply), t.enrolled,
               With(reply, FailedItem) + With(reply, PartialItem) != {},
               d.again, d.end);
    }
  }

  lemma TurnIsSubmit(o: Oracle, daily: bool, s: State, n: nat)
    requires o.template.Some? && o.template.value <= s.initial && o.bundle(n).Some? && s.pending.Some?
    requires var t, b := AtStart(o, daily, s), o.bundle(n).value;
             PendingOf(t) != {} && b.issues == [] && BundleFits(b, PendingOf(t), t.required) && b.discountItems != []
    ensures var t, items := AtStart(o, daily, s), SetOf(o.bundle(n).value.discountItems);
            items != {} && RoundEnd(o, daily, s, n) == SubmitEnd(o, s, PendingOf(t), t.enrolled, items, n + 1)
  {
    hide SubmitEnd;
    var t, b := AtStart(o, daily, s), o.bundle(n).value;
    BundleExactly(b, PendingOf(t), t.required);
    assert b.discountItems[0] in SetOf(b.discountItems);
  }
}
