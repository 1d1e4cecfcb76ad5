/**
 * The controller's steps before its rounds, told from the replies alone: which products are waiting for
 * what, which reply is taken, where each product of the scope goes, and what becomes of an imported batch.
 */
module ImportFates {
  import opened CampaignTypes
  import opened Policy
  import opened Rounds
  import opened RoundProofs
  import opened RoundFates
  import opened ScopeProofs

  // ---------- imports ----------

  /** Held for exactly this: some decisions, and all of them for one of these reasons. */
  predicate OnlyFor(s: State, item: Item, a: Code, b: Code) {
    && item in s.exceptions && s.exceptions[item] != []
    && forall i :: 0 <= i < |s.exceptions[item]| ==>
                      s.exceptions[item][i].reason == a || s.exceptions[item][i].reason == b
  }

  /** Held, for one reason among others because its readback is missing. */
  predicate LacksReadback(s: State, item: Item) {
    item in s.exceptions && exists d :: d in s.exceptions[item] && d.reason == ReadbackMissing
  }

  /** An official failure of exactly this product, in one batch and with evidence throughout. */
  predicate Bound(item: Item, legacy: Legacy) {
    && legacy.batch != ""
    && match legacy.errors
       case Records(list) =>
         && list != []
         && forall i :: 0 <= i < |list| ==>
              list[i].item == item && list[i].batch == legacy.batch && list[i].proof.failed && list[i].proof.evidence
       case _ => false
  }

  lemma BoundExactly(item: Item, legacy: Legacy)
    ensures Bound(item, legacy) <==> ValidImport(item, legacy)
  {
    if legacy.errors.Records? {
      assert forall i :: 0 <= i < |legacy.errors.list| ==> legacy.errors.list[i] in legacy.errors.list;
    }
  }

  /** The imported failures wait in their own table, their products are held no more, and the run is open again. */
  ghost predicate Imported(s: State, t: State, imported: map<Item, Legacy>) {
    && t == s.(legacy := t.legacy, exceptions := t.exceptions, status := t.status)
    && (forall i :: i in t.legacy <==> i in s.legacy || i in imported)
    && (forall i :: i in t.legacy ==> t.legacy[i] == if i in imported then imported[i] else s.legacy[i])
    && (forall i :: i in t.exceptions <==> i in s.exceptions && i !in imported)
    && (forall i :: i in t.exceptions ==> t.exceptions[i] == s.exceptions[i])
    && t.status == if imported == map[] then s.status else Ready
  }

  lemma ImportedExactly(s: State, imported: map<Item, Legacy>)
    ensures Imported(s, AfterImport(s, imported), imported)
  {
  }

  /**
   * Earlier failures are asked for when no action is open and some product waits for nothing else. The
   * reply is taken whole if it is about such products only and every failure is bound; else the run stops.
   */
  lemma PriorExactly(o: Oracle, s: State, n: nat)
    ensures var p, waiting := RecoverPrior(o, s, n), set i | i in s.exceptions && OnlyFor(s, i, LegacyImportNeeded,
                                                                                        LegacyImportNeeded);
            if o.openActions(n) || waiting == {} then p == Step(s, n, None, {})
            else if o.priorFailures(n).Some? && (forall i :: i in o.priorFailures(n).value ==>
                                                   i in waiting && Bound(i, o.priorFailures(n).value[i])) then
              && p.calls == n + 1 && p.fault.None? && p.next == {} && Imported(s, p.state, o.priorFailures(n).value)
            else p == Step(s, n + 1, Some(PriorRefused(n, waiting)), {})
  {
    hide ValidImport, Bound, AfterImport, Imported;
    var waiting := set i | i in s.exceptions && OnlyFor(s, i, LegacyImportNeeded, LegacyImportNeeded);
    assert WaitingForImport(s) == waiting;
    if o.priorFailures(n).Some? {
      var imported := o.priorFailures(n).value;
      forall i | i in imported ensures Bound(i, imported[i]) <==> ValidImport(i, imported[i]) {
        BoundExactly(i, imported[i]);
      }
      ImportedExactly(s, imported);
    }
  }

  /**
   * Price-gap reports are asked for when nothing is pending, imported or open and some product lacks its
   * readback. The reply is taken as it comes if it is about such products only.
   */
  lemma PriceGapsExactly(o: Oracle, s: State, n: nat)
    ensures var p, lacking := RecoverPriceGaps(o, s, n), set i | i in s.exceptions && LacksReadback(s, i);
            if PendingOf(s) != {} || s.legacy != map[] || o.openActions(n) || lacking == {} then
                                                                                p == Step(s, n, None, {})
            else if o.priceGaps(n).Some? && (forall i :: i in o.priceGaps(n).value ==> i in lacking) then
              && p.calls == n + 1 && p.fault.None? && p.next == {} && Imported(s, p.state, o.priceGaps(n).value)
            else p == Step(s, n + 1, Some(GapsRefused(n, lacking)), {})
  {
    hide AfterImport, Imported;
    assert WaitingForReadback(s) == set i | i in s.exceptions && LacksReadback(s, i);
    if o.priceGaps(n).Some? {
      ImportedExactly(s, o.priceGaps(n).value);
    }
  }

  /**
   * Corrected inputs are asked for when nothing is pending, imported or open and some product waits for
   * nothing else. Those restored, if they wait and have no success, are the work of a further round.
   */
  lemma InputsExactly(o: Oracle, s: State, n: nat)
    ensures var p := RecoverInputs(o, s, n);
            var waiting := set i | i in s.exceptions && OnlyFor(s, i, ErpMappingNotUnique, DiscountSkuMissing);
            if PendingOf(s) != {} || s.legacy != map[] || o.openActions(n) || waiting == {} then
                                       p == Step(s, n, None, {})
            else if o.inputs(n).Some? && (forall i :: i in o.inputs(n).value ==> i in waiting && i !in s.success) then
              && p.calls == n + 1 && p.fault.None? && p.next == {}
              && (if o.inputs(n).value == {} then p.state == s
                  else
                    && p.state == s.(exceptions := p.state.exceptions, pending := Some(o.inputs(n).value),
                                     round := s.round + 1, status := Ready)
                    && (forall i :: i in p.state.exceptions <==> i in s.exceptions && i !in o.inputs(n).value)
                    && (forall i :: i in p.state.exceptions ==> p.state.exceptions[i] == s.exceptions[i]))
            else p == Step(s, n + 1, Some(InputsRefused(n, waiting, s.success)), {})
  {
    var waiting := set i | i in s.exceptions && OnlyFor(s, i, ErpMappingNotUnique, DiscountSkuMissing);
    assert WaitingForInputs(s) == waiting;
    if o.inputs(n).Some? {
      var restored := o.inputs(n).value;
      if exists i :: i in restored && i in s.success {
        assert restored * s.success != {} by {
          var i :| i in restored && i in s.success;
          assert i in restored * s.success;
        }
      }
    }
  }

  // ---------- the scope and its history ----------

  /** An earlier failure comes with a report that names a batch. */
  predicate Comes(r: ScopeReply, item: Item) {
    item in r.prior && r.prior[item] == PriorFailed && item in r.imported && r.imported[item].batch != ""
  }

  /** Reading the history stops at this product. */
  predicate StopsHere(r: ScopeReply, item: Item) {
    Comes(r, item) && !r.imported[item].errors.Records?
  }

  /** Where one product of the scope goes by its earlier outcome. */
  ghost predicate Placed(s: State, t: State, r: ScopeReply, daily: bool, item: Item) {
    var done := item in r.prior && r.prior[item] == PriorSuccess;
    var waits := item in r.prior && r.prior[item] == PriorFailed && item in r.imported && Bound(item, r.imported[item]);
    var held := item in r.prior && !done && !waits;
    && (item in PendingOf(t) <==> item !in r.prior || (done && daily))
    && (item in t.success <==> item in s.success || done)
    && (item in t.enrolled <==> item in s.enrolled || (done && daily))
    && (item in t.legacy <==> waits) && (waits ==> t.legacy[item] == r.imported[item])
    && (item in t.exceptions <==> item in s.exceptions || held)
    && (held ==> t.exceptions[item] == [Decision(item, "", if r.prior[item] == PriorUnknown then PreviousUnknown
                                                           else LegacyImportNeeded, Manual, None)])
    && (item in s.exceptions && !held ==> t.exceptions[item] == s.exceptions[item])
  }

  /** Nothing has been taken over for this product: it is pending if it is in scope. */
  ghost predicate Untouched(s: State, t: State, r: ScopeReply, item: Item) {
    && (item in PendingOf(t) <==> item in r.scope) && (item in t.success <==> item in s.success)
    && (item in t.enrolled <==> item in s.enrolled) && item !in t.legacy
    && (item in t.exceptions <==> item in s.exceptions)
    && (item in s.exceptions ==> t.exceptions[item] == s.exceptions[item])
  }

  lemma WhereExactly(s: State, t: State, r: ScopeReply, daily: bool, done: set<Item>, item: Item)
    requires Taken(s, t, r, daily, done) && item in r.scope
    ensures item in done ==> Placed(s, t, r, daily, item)
    ensures item !in done ==> Untouched(s, t, r, item)
  {
    hide ValidImport, Bound;
    if item in r.imported {
      BoundExactly(item, r.imported[item]);
      if Bound(item, r.imported[item]) {
        BoundHasBatch(item, r.imported[item]);
      }
    }
    assert item in SetOf(r.scope);
  }

  lemma BoundHasBatch(item: Item, legacy: Legacy)
    requires Bound(item, legacy)
    ensures legacy.batch != "" && legacy.errors.Records?
  {
  }

  /**
   * Reading the scope places its products by their earlier outcomes, in the order of the reply, up to the
   * first one whose earlier report cannot be read; that one and all later ones stay pending, and the run
   * stops there, saved or not.
   */
  lemma ScopeExactly(o: Oracle, daily: bool, s: State, n: nat)
    ensures var p, r := InitScope(o, daily, s, n), o.scope(n);
            && p.calls == n + 1
            && if r.None? || !r.value.valid || !NoDuplicates(r.value.scope) then
                 p == Step(s, n + 1, Some(ScopeRefused(n)), {})
               else exists m :: StopsAt(r.value, m) && ReadUpTo(s, p, r.value, daily, m, n)
  {
    hide Taken, TakeHistory, Placed, Untouched, StopsHere;
    if UsableScope(o, n) {
      var r := o.scope(n).value;
      var p, m := InitScope(o, daily, s, n), ReadHistory(r, |r.scope|);
      HistoryTaken(s, r, daily, |r.scope|, n);
      StopsExactly(r);
      forall i | 0 <= i < |r.scope|
        ensures i < m ==> Placed(s, p.state, r, daily, r.scope[i])
        ensures i >= m ==> Untouched(s, p.state, r, r.scope[i])
      {
        assert i < m ==> r.scope[..m][i] == r.scope[i];
        assert i >= m ==> forall j :: 0 <= j < m ==> r.scope[..m][j] == r.scope[j] != r.scope[i];
        WhereExactly(s, p.state, r, daily, SetOf(r.scope[..m]), r.scope[i]);
      }
      TakenRest(s, p.state, r, daily, SetOf(r.scope[..m]));
      assert StopsAt(r, m) && ReadUpTo(s, p, r, daily, m, n);
    }
  }

  /** The first product at which reading stops, or the end of the scope. */
  predicate StopsAt(r: ScopeReply, m: nat) {
    && m <= |r.scope| && (forall i :: 0 <= i < m ==> !StopsHere(r, r.scope[i]))
    && (m < |r.scope| ==> StopsHere(r, r.scope[m]))
  }

  ghost predicate ReadUpTo(s: State, p: Step, r: ScopeReply, daily: bool, m: nat, n: nat)
    requires StopsAt(r, m)
  {
    && p.state.initial == SetOf(r.scope) && p.next == {}
    && (forall i :: 0 <= i < |r.scope| ==>
          if i < m then Placed(s, p.state, r, daily, r.scope[i]) else Untouched(s, p.state, r, r.scope[i]))
    && p.fault == if m == |r.scope| then None
                  else if r.imported[r.scope[m]].errors.NotIterable? then Some(HistoryUnreadable(n, r.scope[m]))
                  else Some(HistoryCrashes(n, r.scope[m]))
  }

  lemma StopsExactly(r: ScopeReply)
    ensures StopsAt(r, ReadHistory(r, |r.scope|))
    ensures var m := ReadHistory(r, |r.scope|);
            m < |r.scope| ==>
              (StopAt(r, r.scope[m], 0).HistoryUnreadable? <==> r.imported[r.scope[m]].errors.NotIterable?)
  {
    assert forall item :: Stops(r, item) <==> StopsHere(r, item);
  }

  lemma TakenRest(s: State, t: State, r: ScopeReply, daily: bool, done: set<Item>)
    requires Taken(s, t, r, daily, done)
    ensures t.initial == SetOf(r.scope)
  {
  }

  // ---------- imported batches ----------

  /**
   * An imported batch is decided like a report: what is due is repaired in one call, and unless it stops
   * the products whose change is verified are pending, all others of the report are held, and the batch
   * leaves the table. A record that cannot be read stops the run, saved or not.
   */
  lemma RetireExactly(o: Oracle, s: State, batch: string, items: seq<Item>, n: nat)
    requires Lists(s, batch, items)
    ensures var p, errors := RetireBatch(o, s, batch, items, n), ErrorsOf(s, items);
            if exists i :: i in s.legacy && s.legacy[i].batch == batch && s.legacy[i].errors.NotIterable? then
              p == Step(s, n, Some(LegacyUnreadable(batch)), {})
            else if exists i :: i in s.legacy && s.legacy[i].batch == batch && s.legacy[i].errors.NotRecords? then
              p == Step(s, n, Some(LegacyCrashes(batch)), {})
            else
              var due := RepairsDue(s, errors);
              if due != {} && (!Covers(o.rows(n), due, false) || !ChangesAsText(o.rows(n).value)) then
                p.calls == n + 1 && p.fault == Some(RepairRefused(n, due))
              else
                var again := set i | i in due && o.rows(n).Some? && ChangeVerified(o.rows(n).value, i);
                && p.fault.None? && p.calls == (if due == {} then n else n + 1)
                && PendingOf(p.state) == PendingOf(s) + again
                && (forall i :: i in p.state.legacy <==> i in s.legacy && s.legacy[i].batch != batch)
                && (forall i :: i in p.state.legacy ==> p.state.legacy[i] == s.legacy[i])
                && HeldRest(s, s, p.state, errors, ItemsOf(errors), again)
  {
    hide RepairFailed, RepairsDue, Covers, ChangesAsText, ChangeVerified, HeldFor;
    var errors, due := ErrorsOf(s, items), RepairsDue(s, ErrorsOf(s, items));
    RepairFailedExactly(o, s, s, errors, n);
    CoversExactly(o.rows(n), due, false);
    assert forall i :: i in BatchItems(s, batch) <==> i in s.legacy && s.legacy[i].batch == batch;
  }

  /** The errors of a batch are those of the records of its products. */
  lemma BatchErrorsExactly(s: State, batch: string, items: seq<Item>, e: Failure)
    requires Lists(s, batch, items)
    ensures e in ErrorsOf(s, items)
            <==> exists i :: i in s.legacy && s.legacy[i].batch == batch && s.legacy[i].errors.Records?
                             && e in s.legacy[i].errors.list
  {
    ErrorsOfMembers(s, items);
    hide ErrorsOf;
    assert forall i :: i in items <==> i in SetOf(items);
    assert forall i :: i in BatchItems(s, batch) <==> i in s.legacy && s.legacy[i].batch == batch;
    if i :| i in s.legacy && s.legacy[i].batch == batch && s.legacy[i].errors.Records? && e in s.legacy[i].errors.list {
      assert i in items && e in ListOf(s.legacy[i]);
    }
  }
}
