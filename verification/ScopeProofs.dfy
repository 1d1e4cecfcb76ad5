/**
 * What happens around the rounds: the initial scope takes over a history, earlier failures are
 * imported, and imported batches are retired. Two of these steps can go wrong, exactly as stated.
 */
module ScopeProofs {
  import opened CampaignTypes
  import opened Policy
  import opened Rounds
  import opened RoundProofs

  // ---------- the history of the initial scope ----------

  /** An imported record on which reading the history stops. */
  predicate Stops(r: ScopeReply, item: Item) {
    Unreadable(r, item) || CrashesOn(r, item)
  }

  function HoldOf(r: ScopeReply, item: Item): seq<Decision> {
    [Decision(item, "", if PriorIs(r, item, PriorUnknown) then PreviousUnknown else LegacyImportNeeded, Manual, None)]
  }

  function DoneBefore(r: ScopeReply, done: set<Item>): set<Item> {
    set i | i in done && PriorIs(r, i, PriorSuccess)
  }

  function Settled(r: ScopeReply, daily: bool, done: set<Item>): set<Item> {
    set i | i in done && !Works(r, i, daily)
  }

  function HeldIn(r: ScopeReply, done: set<Item>): map<Item, seq<Decision>> {
    map i | i in done && HeldBack(r, i) :: HoldOf(r, i)
  }

  function ImportedIn(r: ScopeReply, done: set<Item>): map<Item, Legacy> {
    map i | i in done && Importable(r, i) :: r.imported[i]
  }

  /** Exactly the history of these products has been taken over. */
  ghost predicate Taken(s: State, t: State, r: ScopeReply, daily: bool, done: set<Item>) {
    && t == s.(pending := t.pending, initial := SetOf(r.scope), success := t.success, enrolled := t.enrolled,
               exceptions := t.exceptions, legacy := t.legacy)
    && t.pending.Some? && t.pending.value == SetOf(r.scope) - Settled(r, daily, done)
    && t.success == s.success + DoneBefore(r, done)
    && t.enrolled == s.enrolled + (if daily then DoneBefore(r, done) else {})
    && t.exceptions == s.exceptions + HeldIn(r, done)
    && t.legacy == ImportedIn(r, done)
  }

  lemma HoldOne(item: Item, reason: Code)
    ensures HoldAll({item}, reason) == map[item := [Decision(item, "", reason, Manual, None)]]
  {
  }

  /** One product: what its earlier outcome adds and removes. */
  lemma TakePriorFields(t: State, item: Item, r: ScopeReply, daily: bool)
    requires t.pending.Some?
    ensures var u, success := TakePrior(t, item, r, daily), PriorIs(r, item, PriorSuccess);
            && u == t.(pending := u.pending, success := u.success, enrolled := u.enrolled, exceptions := u.exceptions,
                       legacy := u.legacy)
            && u.pending == (if Works(r, item, daily) then t.pending else Some(t.pending.value - {item}))
            && u.success == (if success then t.success + {item} else t.success)
            && u.enrolled == (if daily && success then t.enrolled + {item} else t.enrolled)
            && u.exceptions == (if HeldBack(r, item) then t.exceptions + map[item := HoldOf(r, item)] else t.exceptions)
            && u.legacy == if Importable(r, item) then t.legacy[item := r.imported[item]] else t.legacy
  {
    hide ValidImport, HoldAll;
    HoldOne(item, PreviousUnknown);
    HoldOne(item, LegacyImportNeeded);
  }

  lemma TakenOne(s: State, t: State, r: ScopeReply, daily: bool, done: set<Item>, item: Item)
    requires Taken(s, t, r, daily, done)
    ensures Taken(s, TakePrior(t, item, r, daily), r, daily, done + {item})
  {
    hide DoneBefore, Settled, HeldIn, ImportedIn, TakePrior, PriorIs, HeldBack, Importable, Works, HoldOf;
    TakePriorFields(t, item, r, daily);
    TakenSets(r, daily, done, item);
    TakenMaps(r, done, item);
  }

  lemma TakenSets(r: ScopeReply, daily: bool, done: set<Item>, item: Item)
    ensures DoneBefore(r, done + {item})
            == if PriorIs(r, item, PriorSuccess) then DoneBefore(r, done) + {item} else DoneBefore(r, done)
    ensures Settled(r, daily, done + {item})
            == if Works(r, item, daily) then Settled(r, daily, done) else Settled(r, daily, done) + {item}
  {
  }

  lemma TakenMaps(r: ScopeReply, done: set<Item>, item: Item)
    ensures HeldIn(r, done + {item})
            == if HeldBack(r, item) then HeldIn(r, done) + map[item := HoldOf(r, item)] else HeldIn(r, done)
    ensures ImportedIn(r, done + {item})
            == if Importable(r, item) then ImportedIn(r, done)[item := r.imported[item]] else ImportedIn(r, done)
  {
  }

  /** How many of the first k products have been taken over when reading stops, if it does. */
  function ReadHistory(r: ScopeReply, k: nat): (n: nat)
    requires k <= |r.scope|
    ensures n <= k
    ensures forall i :: 0 <= i < n ==> !Stops(r, r.scope[i])
    ensures n < k ==> Stops(r, r.scope[n])
  {
    if k == 0 then 0
    else
      var n := ReadHistory(r, k - 1);
      if n < k - 1 || Stops(r, r.scope[k - 1]) then n else k
  }

  function StopAt(r: ScopeReply, item: Item, n: nat): Fault {
    if Unreadable(r, item) then HistoryUnreadable(n, item) else HistoryCrashes(n, item)
  }

  lemma NothingHeldIn(r: ScopeReply)
    ensures HeldIn(r, {}) == map[]
  {
  }

  lemma NothingImportedIn(r: ScopeReply)
    ensures ImportedIn(r, {}) == map[]
  {
  }

  lemma NothingTaken(s: State, r: ScopeReply, daily: bool)
    ensures Taken(s, Opened(s, r), r, daily, {})
  {
    hide HeldIn, ImportedIn;
    NothingHeldIn(r);
    NothingImportedIn(r);
    assert Settled(r, daily, {}) == {} && DoneBefore(r, {}) == {};
  }

  /** The history is taken over in the order of the scope, up to the first record that stops it. */
  lemma {:induction false} HistoryTaken(s: State, r: ScopeReply, daily: bool, k: nat, n: nat)
    requires k <= |r.scope|
    ensures var p, m := TakeHistory(s, r, daily, k, n), ReadHistory(r, k);
            && Taken(s, p.state, r, daily, SetOf(r.scope[..m])) && p.calls == n + 1 && p.next == {}
            && p.fault == if m < k then Some(StopAt(r, r.scope[m], n)) else None
  {
    hide Taken, TakePrior, Opened;
    if k == 0 {
      assert SetOf(r.scope[..0]) == {};
      NothingTaken(s, r, daily);
    } else {
      var before := TakeHistory(s, r, daily, k - 1, n);
      HistoryTaken(s, r, daily, k - 1, n);
      if ReadHistory(r, k) == k {
        assert r.scope[..k] == r.scope[..k - 1] + [r.scope[k - 1]];
        SetOfAppend(r.scope[..k - 1], r.scope[k - 1]);
        TakenOne(s, before.state, r, daily, SetOf(r.scope[..k - 1]), r.scope[k - 1]);
      }
    }
  }

  predicate UsableScope(o: Oracle, n: nat) {
    o.scope(n).Some? && o.scope(n).value.valid && NoDuplicates(o.scope(n).value.scope)
  }

  /** Some record cannot be iterated, and no earlier one ends the process. */
  ghost predicate StopsHalfway(r: ScopeReply) {
    exists j {:trigger r.scope[j]} ::
      0 <= j < |r.scope| && Unreadable(r, r.scope[j]) && forall i :: 0 <= i < j ==> !CrashesOn(r, r.scope[i])
  }

  /** What the code promises of a scope reply: its whole history is taken over, or nothing is saved. */
  ghost predicate WholeOrNothing(o: Oracle, daily: bool, s: State, n: nat)
    requires UsableScope(o, n)
  {
    var p, r := InitScope(o, daily, s, n), o.scope(n).value;
    if p.fault.Some? then Crashes(p.fault.value) else Taken(s, p.state, r, daily, SetOf(r.scope))
  }

  /**
   * The history is taken over as a whole or not at all if and only if no imported record of an
   * earlier failure, with a batch and before any record that ends the process, has errors that
   * cannot be iterated.
   */
  lemma WholeOrNothingExactly(o: Oracle, daily: bool, s: State, n: nat)
    requires UsableScope(o, n)
    ensures WholeOrNothing(o, daily, s, n) <==> !StopsHalfway(o.scope(n).value)
  {
    var r := o.scope(n).value;
    var m := ReadHistory(r, |r.scope|);
    HistoryTaken(s, r, daily, |r.scope|, n);
    if m == |r.scope| {
      assert r.scope[..m] == r.scope;
    } else if StopsHalfway(r) {
      var j :| 0 <= j < |r.scope| && Unreadable(r, r.scope[j]) && forall i :: 0 <= i < j ==> !CrashesOn(r, r.scope[i]);
      assert m <= j && !CrashesOn(r, r.scope[m]);
    } else if Unreadable(r, r.scope[m]) {
      assert false;
    }
  }

  /** Then every product from that record on is left pending, whatever its earlier outcome was. */
  lemma RestIsLeftPending(o: Oracle, daily: bool, s: State, n: nat)
    requires UsableScope(o, n) && InitScope(o, daily, s, n).fault.Some?
    ensures var r, t := o.scope(n).value, InitScope(o, daily, s, n).state;
            var m := ReadHistory(r, |r.scope|);
            && m < |r.scope| && SetOf(r.scope[m..]) <= PendingOf(t)
            && t.exceptions.Keys <= s.exceptions.Keys + SetOf(r.scope[..m]) && t.legacy.Keys <= SetOf(r.scope[..m])
  {
    var r := o.scope(n).value;
    var m := ReadHistory(r, |r.scope|);
    HistoryTaken(s, r, daily, |r.scope|, n);
    forall i | i in r.scope[m..] ensures i !in r.scope[..m] {
      var b :| m <= b < |r.scope| && r.scope[b] == i;
      assert forall a :: 0 <= a < m ==> r.scope[a] != r.scope[b];
    }
  }

  lemma InitScopeKeeps(o: Oracle, daily: bool, s: State, n: nat)
    requires Consistent(s) && s.pending.None?
    ensures var p := InitScope(o, daily, s, n);
            Consistent(p.state) && Safe(p.state) && (p.fault.None? ==> p.state.pending.Some?)
            && p.state.status == s.status
  {
    if UsableScope(o, n) {
      var r := o.scope(n).value;
      HistoryTaken(s, r, daily, |r.scope|, n);
      TakenIsSafe(s, InitScope(o, daily, s, n).state, r, daily, ReadHistory(r, |r.scope|));
    }
  }

  lemma TakenIsSafe(s: State, t: State, r: ScopeReply, daily: bool, m: nat)
    requires m <= |r.scope| && Taken(s, t, r, daily, SetOf(r.scope[..m])) && Consistent(s) && s.pending.None?
    ensures Consistent(t) && Safe(t)
  {
    forall i | i in t.legacy ensures Named(i, t.legacy[i]) {
      ValidImportIsNamed(i, r.imported[i]);
    }
  }

  // ---------- imports ----------

  /** The report that a price-gap import takes as it comes names each of its products. */
  ghost predicate GapsNamed(o: Oracle) {
    forall n :: o.priceGaps(n).Some? ==>
                  forall i :: i in o.priceGaps(n).value ==> Named(i, o.priceGaps(n).value[i])
  }

  /** What a step before the rounds keeps. */
  ghost predicate StepKeeps(s: State, t: State) {
    && Consistent(t) && Keeps(s, t) && t.success == s.success && t.enrolled == s.enrolled
    && (s.pending.Some? ==> t.pending.Some?) && (s.pending.None? ==> t == s)
    && (t.status == s.status || t.status.Ready?)
  }

  lemma AfterImportKeeps(s: State, imported: map<Item, Legacy>)
    requires Consistent(s) && imported.Keys <= s.exceptions.Keys
    ensures StepKeeps(s, AfterImport(s, imported))
  {
    if s.pending.None? {
      assert imported == map[];
    }
  }

  /** Imported are only products that wait for exactly this, and only while no action is open. */
  lemma RecoverPriorKeeps(o: Oracle, s: State, n: nat)
    requires Consistent(s)
    ensures var p := RecoverPrior(o, s, n);
            && StepKeeps(s, p.state) && p.state.legacy.Keys <= s.legacy.Keys + WaitingForImport(s)
            && (p.state != s ==> !o.openActions(n)) && (LegacyNamed(s) ==> LegacyNamed(p.state))
  {
    var imported, p := o.priorFailures(n), RecoverPrior(o, s, n);
    if p.state != s {
      AfterImportKeeps(s, imported.value);
      forall i | i in imported.value ensures Named(i, imported.value[i]) {
        ValidImportIsNamed(i, imported.value[i]);
      }
    }
  }

  lemma RecoverPriceGapsKeeps(o: Oracle, s: State, n: nat)
    requires Consistent(s)
    ensures var p := RecoverPriceGaps(o, s, n);
            && StepKeeps(s, p.state) && p.state.legacy.Keys <= s.legacy.Keys + WaitingForReadback(s)
            && (p.state != s ==> !o.openActions(n)) && (LegacyNamed(s) && GapsNamed(o) ==> LegacyNamed(p.state))
  {
    if RecoverPriceGaps(o, s, n).state != s {
      AfterImportKeeps(s, o.priceGaps(n).value);
    }
  }

  /** Restored are only held products without a success record; they leave the exceptions. */
  lemma RecoverInputsKeeps(o: Oracle, s: State, n: nat)
    requires Consistent(s)
    ensures var p := RecoverInputs(o, s, n);
            && StepKeeps(s, p.state) && p.state.legacy == s.legacy
            && (p.state != s ==>
                  && !o.openActions(n) && PendingOf(s) == {} && p.state.exceptions == s.exceptions - PendingOf(p.state)
                  && PendingOf(p.state) <= s.exceptions.Keys - s.success)
  {
  }

  // ---------- imported batches ----------

  lemma {:induction false} ErrorsOfMembers(s: State, items: seq<Item>)
    requires SetOf(items) <= s.legacy.Keys
    ensures forall e :: e in ErrorsOf(s, items) <==> exists i :: i in items && e in ListOf(s.legacy[i])
  {
    if items != [] {
      var n := |items| - 1;
      assert items == items[..n] + [items[n]];
      assert items[n] in SetOf(items) && SetOf(items[..n]) <= SetOf(items);
      ErrorsOfMembers(s, items[..n]);
    }
  }

  /**
   * Retiring a batch keeps a product of it exactly when an error of the batch names the product
   * or it is accounted for elsewhere.
   */
  lemma RetirementKeepsExactly(o: Oracle, s: State, batch: string, items: seq<Item>, n: nat, item: Item)
    requires Lists(s, batch, items) && item in items && RetireBatch(o, s, batch, items, n).fault.None?
    ensures Accounted(RetireBatch(o, s, batch, items, n).state, item)
            <==> item in ItemsOf(ErrorsOf(s, items)) || item in s.success || item in s.exceptions
                 || item in PendingOf(s)
  {
    hide RepairFailed;
    var errors := ErrorsOf(s, items);
    RepairFailedFacts(o, s, errors, n);
    assert item in SetOf(items);
  }

  lemma ErrorNamesBatch(s: State, items: seq<Item>, e: Failure)
    requires SetOf(items) <= s.legacy.Keys && LegacyNamed(s) && e in ErrorsOf(s, items)
    requires forall i :: i in items ==> i in s.legacy && s.legacy[i].errors.Records?
    ensures e.item in SetOf(items)
  {
    ErrorsOfMembers(s, items);
    hide ErrorsOf;
    var i :| i in items && e in ListOf(s.legacy[i]);
    assert e.item in ItemsOf(s.legacy[i].errors.list) && i in SetOf(items);
  }

  lemma ProductIsNamed(s: State, items: seq<Item>, i: Item)
    requires SetOf(items) <= s.legacy.Keys && LegacyNamed(s) && i in items && i in s.legacy
    requires s.legacy[i].errors.Records?
    ensures i in ItemsOf(ErrorsOf(s, items))
  {
    ErrorsOfMembers(s, items);
    hide ErrorsOf;
    assert i in ItemsOf(s.legacy[i].errors.list);
    var e :| e in s.legacy[i].errors.list && e.item == i;
    assert e in ListOf(s.legacy[i]);
  }

  lemma NamedErrors(s: State, batch: string, items: seq<Item>)
    requires Lists(s, batch, items) && LegacyNamed(s)
    requires forall i :: i in BatchItems(s, batch) ==> s.legacy[i].errors.Records?
    ensures ItemsOf(ErrorsOf(s, items)) == SetOf(items)
  {
    hide ErrorsOf, LegacyNamed;
    var errors := ErrorsOf(s, items);
    forall i | i in items ensures i in ItemsOf(errors) {
      assert i in SetOf(items);
      ProductIsNamed(s, items, i);
    }
    forall e | e in errors ensures e.item in SetOf(items) {
      assert forall i :: i in items ==> i in SetOf(items);
      ErrorNamesBatch(s, items, e);
    }
  }

  /** With every import naming its product, a batch is retired without losing any. */
  lemma NamedBatchIsKept(o: Oracle, s: State, batch: string, items: seq<Item>, n: nat)
    requires Lists(s, batch, items) && LegacyNamed(s)
    ensures Keeps(s, RetireBatch(o, s, batch, items, n).state)
  {
    hide RepairFailed, Attempts, AttemptsOf, ErrorsOf, LegacyNamed, Grown;
    if forall i :: i in BatchItems(s, batch) ==> s.legacy[i].errors.Records? {
      var errors := ErrorsOf(s, items);
      NamedErrors(s, batch, items);
      RepairFailedFacts(o, s, errors, n);
    } else {
      RetireBatchStops(o, s, batch, items, n);
    }
  }

  lemma RetireBatchStops(o: Oracle, s: State, batch: string, items: seq<Item>, n: nat)
    requires Lists(s, batch, items)
    requires exists i :: i in BatchItems(s, batch) && !s.legacy[i].errors.Records?
    ensures var p := RetireBatch(o, s, batch, items, n); p.fault.Some? && p.state == s
  {
  }

  lemma {:induction false} Enumerate(items: set<Item>) returns (list: seq<Item>)
    ensures NoDuplicates(list) && SetOf(list) == items
  {
    if items == {} {
      list := [];
    } else {
      var i :| i in items;
      var rest := Enumerate(items - {i});
      assert i in SetOf(rest) <==> i in rest;
      AppendDistinct(rest, i);
      SetOfAppend(rest, i);
      list := rest + [i];
    }
  }

  /** Retiring keeps the rest: the run's scope, its successes, and every other import. */
  lemma RetireBatchFrame(o: Oracle, s: State, batch: string, items: seq<Item>, n: nat)
    requires Lists(s, batch, items) && Consistent(s) && s.pending.Some? && !s.status.Complete?
    ensures var p := RetireBatch(o, s, batch, items, n);
            && Consistent(p.state) && p.state.pending.Some? && p.state.status == s.status
            && p.state.initial == s.initial && p.state.success == s.success && p.state.enrolled == s.enrolled
            && p.state.legacy == if p.fault.None? then s.legacy - SetOf(items) else s.legacy
  {
    hide RepairFailed;
    RepairFailedFacts(o, s, ErrorsOf(s, items), n);
  }
}
