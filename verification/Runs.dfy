/**
 * A whole run as a history of steps: which step comes next, what every state of the history
 * keeps, what every success rests on, and why a run ends.
 */
module Runs {
  import opened CampaignTypes
  import opened Policy
  import opened Rounds
  import opened RoundProofs
  import opened RoundGate
  import opened ScopeProofs

  /** The steps of a run. The products of a retired batch come in the order of the table. */
  datatype Op = ImportPrior | ImportGaps | RestoreInputs | ReadScope | RetireOne(batch: string, items: seq<Item>)
    | OneTurn

  datatype Entry = Entry(op: Op, before: State, calls: nat, after: State, end: nat, fault: Option<Fault>)

  predicate Does(e: Entry, p: Step) {
    e.after == p.state && e.end == p.calls && e.fault == p.fault
  }

  function TurnOf(o: Oracle, daily: bool, e: Entry): Round {
    Turn(o, daily, e.before, e.calls)
  }

  /** The step did exactly what its replies say. */
  predicate Fits(o: Oracle, daily: bool, e: Entry) {
    match e.op
    case ImportPrior => Does(e, RecoverPrior(o, e.before, e.calls))
    case ImportGaps => Does(e, RecoverPriceGaps(o, e.before, e.calls))
    case RestoreInputs => Does(e, RecoverInputs(o, e.before, e.calls))
    case ReadScope => e.before.pending.None? && Does(e, InitScope(o, daily, e.before, e.calls))
    case RetireOne(batch, items) =>
      items != [] && Lists(e.before, batch, items) && Does(e, RetireBatch(o, e.before, batch, items, e.calls))
    case OneTurn =>
      var r := TurnOf(o, daily, e);
      && e.before.pending.Some? && PendingOf(e.before) != {}
      && e.after == r.state && e.end == r.calls && e.fault == r.fault
  }

  /** The second step starts where the first one ended, which was not stopped. */
  predicate Linked(a: Entry, b: Entry) {
    a.fault.None? && b.before == a.after && b.calls == a.end
  }

  /** Every step starts where the one before it ended; only the last one may stop the run. */
  ghost predicate Chained(log: seq<Entry>, s: State, n: nat) {
    && (log != [] ==> log[0].before == s && log[0].calls == n)
    && forall k {:trigger log[k]} :: 0 < k < |log| ==> Linked(log[k - 1], log[k])
  }

  /** Whether the program, after these first three steps, still has to read its scope. */
  function Prelude(log: seq<Entry>): nat
    requires |log| >= 3
  {
    if log[2].after.pending.None? then 4 else 3
  }

  /** The program's order: imports, the scope if it is not known, imports again, batches, rounds. */
  predicate RightOp(log: seq<Entry>, k: nat)
    requires k < |log|
  {
    var op := log[k].op;
    if k == 0 then op.ImportPrior?
    else if k == 1 then op.ImportGaps?
    else if k == 2 then op.RestoreInputs?
    else
      && !log[2].after.status.Complete?
      && if k < Prelude(log) then op.ReadScope?
         else if k == Prelude(log) then op.ImportPrior?
         else if log[k].before.legacy != map[] then op.RetireOne?
         else op.OneTurn?
  }

  /** A history that the program can produce from this state. */
  ghost predicate History(o: Oracle, daily: bool, log: seq<Entry>, s: State, n: nat) {
    && Chained(log, s, n)
    && forall k {:trigger log[k]} :: 0 <= k < |log| ==> Fits(o, daily, log[k]) && RightOp(log, k)
  }

  /** The step follows the history: it starts where that ended, and nothing stopped it. */
  predicate Follows(log: seq<Entry>, s: State, n: nat, e: Entry) {
    if log == [] then e.before == s && e.calls == n else Linked(log[|log| - 1], e)
  }

  lemma NoHistory(o: Oracle, daily: bool, s: State, n: nat)
    ensures History(o, daily, [], s, n)
  {
  }

  lemma RightOpStays(log: seq<Entry>, e: Entry, k: nat)
    requires k < |log|
    ensures RightOp(log + [e], k) == RightOp(log, k)
  {
    assert (log + [e])[k] == log[k] && (k >= 2 ==> (log + [e])[2] == log[2]);
  }

  lemma HistoryGrows(o: Oracle, daily: bool, log: seq<Entry>, s: State, n: nat, e: Entry)
    requires History(o, daily, log, s, n) && Follows(log, s, n, e) && Fits(o, daily, e) && RightOp(log + [e], |log|)
    ensures History(o, daily, log + [e], s, n)
  {
    hide Fits, Linked, RightOp;
    var l := log + [e];
    forall k | 0 <= k < |log| ensures Fits(o, daily, l[k]) && RightOp(l, k) {
      assert l[k] == log[k];
      RightOpStays(log, e, k);
    }
    forall k | 0 < k < |l| ensures Linked(l[k - 1], l[k]) {
      assert l[k - 1] == log[k - 1] && (k < |log| ==> l[k] == log[k]);
    }
  }

  /** Nothing is left to do: the run was complete, or no batch and no pending product remains. */
  predicate Ended(log: seq<Entry>) {
    && |log| >= 3 && log[|log| - 1].fault.None?
    && if |log| == 3 then log[2].after.status.Complete?
       else |log| > Prelude(log) && log[|log| - 1].after.legacy == map[] && log[|log| - 1].after.pending == Some({})
  }

  // ---------- every state of a history ----------

  lemma TurnKeeps(o: Oracle, daily: bool, e: Entry)
    requires Fits(o, daily, e) && e.op.OneTurn? && Consistent(e.before)
    ensures Consistent(e.after) && Keeps(e.before, e.after) && e.after.legacy == e.before.legacy
  {
    hide Turn;
    TurnFacts(o, daily, e.before, e.calls);
  }

  lemma RetireKeeps(o: Oracle, daily: bool, e: Entry)
    requires Fits(o, daily, e) && e.op.RetireOne? && Consistent(e.before)
    ensures Consistent(e.after) && e.after.initial == e.before.initial
    ensures Safe(e.before) ==> Safe(e.after)
  {
    hide RetireBatch;
    var items := e.op.items;
    assert items[0] in SetOf(items);
    RetireBatchFrame(o, e.before, e.op.batch, items, e.calls);
    if Safe(e.before) {
      NamedBatchIsKept(o, e.before, e.op.batch, items, e.calls);
    }
  }

  lemma ImportKeeps(o: Oracle, daily: bool, e: Entry)
    requires Fits(o, daily, e) && Consistent(e.before)
    requires e.op.ImportPrior? || e.op.ImportGaps? || e.op.RestoreInputs?
    ensures Consistent(e.after) && Keeps(e.before, e.after)
    ensures LegacyNamed(e.before) && GapsNamed(o) ==> LegacyNamed(e.after)
  {
    hide RecoverPrior, RecoverPriceGaps, RecoverInputs;
    match e.op {
      case ImportPrior => RecoverPriorKeeps(o, e.before, e.calls);
      case ImportGaps => RecoverPriceGapsKeeps(o, e.before, e.calls);
      case RestoreInputs => RecoverInputsKeeps(o, e.before, e.calls);
    }
  }

  /** One step keeps the state consistent, and with named price-gap imports loses no product. */
  lemma EntryKeeps(o: Oracle, daily: bool, e: Entry)
    requires Fits(o, daily, e) && Consistent(e.before)
    ensures Consistent(e.after) && (Safe(e.before) && GapsNamed(o) ==> Safe(e.after))
  {
    hide InitScope, Turn, RetireBatch, RecoverPrior, RecoverPriceGaps, RecoverInputs, Fits;
    match e.op {
      case ReadScope => ScopeKeeps(o, daily, e);
      case RetireOne(_, _) => RetireKeeps(o, daily, e);
      case OneTurn => TurnKeeps(o, daily, e);
      case _ => ImportKeeps(o, daily, e);
    }
  }

  lemma ScopeKeeps(o: Oracle, daily: bool, e: Entry)
    requires Fits(o, daily, e) && e.op.ReadScope? && Consistent(e.before)
    ensures Consistent(e.after) && Safe(e.after)
  {
    hide InitScope;
    InitScopeKeeps(o, daily, e.before, e.calls);
  }

  /**
   * Every state that a run saves is consistent. It accounts for every product of the initial
   * scope, provided that the first one does and every price-gap import names its product.
   */
  lemma {:induction false} EveryStateKeeps(o: Oracle, daily: bool, log: seq<Entry>, s: State, n: nat, k: nat)
    requires History(o, daily, log, s, n) && k < |log| && Consistent(s)
    ensures Consistent(log[k].before) && Consistent(log[k].after)
    ensures Safe(s) && GapsNamed(o) ==> Safe(log[k].before) && Safe(log[k].after)
  {
    hide Fits, RightOp, Safe, Consistent;
    if k > 0 {
      EveryStateKeeps(o, daily, log, s, n, k - 1);
    }
    EntryKeeps(o, daily, log[k]);
  }

  /** A run that ends with no exception has a success record for every product of its scope. */
  lemma AllSignedUp(o: Oracle, daily: bool, log: seq<Entry>, s: State, n: nat)
    requires History(o, daily, log, s, n) && Ended(log) && Consistent(s) && Safe(s) && GapsNamed(o)
    ensures var t := log[|log| - 1].after; t.exceptions == map[] ==> t.initial <= t.success
  {
    hide Fits, RightOp;
    EveryStateKeeps(o, daily, log, s, n, |log| - 1);
  }

  /**
   * However a run ends, what it leaves in the database is again a state to start from: stopped,
   * complete, or ended by an error before the last step was saved. So all this holds over any
   * number of runs.
   */
  lemma EveryRunCanFollow(o: Oracle, daily: bool, log: seq<Entry>, s: State, n: nat)
    requires History(o, daily, log, s, n) && log != [] && Consistent(s)
    ensures var e := log[|log| - 1];
            var stopped, complete := e.after.(status := Status.Blocked), e.after.(status := Complete);
            && Consistent(e.before) && Consistent(stopped) && (Ended(log) ==> Consistent(complete))
            && (Safe(s) && GapsNamed(o) ==> Safe(e.before) && Safe(stopped) && Safe(complete))
  {
    hide Fits, RightOp;
    EveryStateKeeps(o, daily, log, s, n, |log| - 1);
  }

  // ---------- a run never gets stuck ----------

  function StepEntry(op: Op, s: State, n: nat, p: Step): Entry {
    Entry(op, s, n, p.state, p.calls, p.fault)
  }

  /** What the step makes of this state. */
  function EntryOf(o: Oracle, daily: bool, op: Op, s: State, n: nat): Entry
    requires op.RetireOne? ==> Lists(s, op.batch, op.items)
  {
    match op
    case ImportPrior => StepEntry(op, s, n, RecoverPrior(o, s, n))
    case ImportGaps => StepEntry(op, s, n, RecoverPriceGaps(o, s, n))
    case RestoreInputs => StepEntry(op, s, n, RecoverInputs(o, s, n))
    case ReadScope => StepEntry(op, s, n, InitScope(o, daily, s, n))
    case RetireOne(batch, items) => StepEntry(op, s, n, RetireBatch(o, s, batch, items, n))
    case OneTurn =>
      var r := Turn(o, daily, s, n);
      Entry(op, s, n, r.state, r.calls, r.fault)
  }

  lemma EntryFits(o: Oracle, daily: bool, op: Op, s: State, n: nat)
    requires op.RetireOne? ==> op.items != [] && Lists(s, op.batch, op.items)
    requires op.ReadScope? ==> s.pending.None?
    requires op.OneTurn? ==> s.pending.Some? && PendingOf(s) != {}
    ensures var e := EntryOf(o, daily, op, s, n); Fits(o, daily, e) && e.op == op && e.before == s && e.calls == n
  {
    hide InitScope, Turn, RetireBatch, RecoverPrior, RecoverPriceGaps, RecoverInputs;
  }

  lemma ScopeIsKnown(o: Oracle, daily: bool, e: Entry)
    requires Fits(o, daily, e) && e.op.ReadScope? && Consistent(e.before) && e.fault.None?
    ensures e.after.pending.Some?
  {
    hide InitScope;
    InitScopeKeeps(o, daily, e.before, e.calls);
  }

  lemma EntryKeepsPending(o: Oracle, daily: bool, e: Entry)
    requires Fits(o, daily, e) && Consistent(e.before) && e.before.pending.Some?
    ensures e.after.pending.Some?
  {
    hide InitScope, Turn, RetireBatch, RecoverPrior, RecoverPriceGaps, RecoverInputs;
    match e.op {
      case ImportPrior => RecoverPriorKeeps(o, e.before, e.calls);
      case ImportGaps => RecoverPriceGapsKeeps(o, e.before, e.calls);
      case RestoreInputs => RecoverInputsKeeps(o, e.before, e.calls);
      case RetireOne(batch, items) =>
        assert items[0] in SetOf(items);
        RetireBatchFrame(o, e.before, batch, items, e.calls);
      case OneTurn => TurnFacts(o, daily, e.before, e.calls);
      case ReadScope =>
    }
  }

  /** Once the imports and the scope are done, the pending products are known. */
  lemma {:induction false} PendingIsKnown(o: Oracle, daily: bool, log: seq<Entry>, s: State, n: nat, k: nat)
    requires History(o, daily, log, s, n) && Consistent(s) && |log| > k >= 3 && k >= Prelude(log)
    ensures log[k].after.pending.Some?
  {
    hide Fits, Consistent;
    EveryStateKeeps(o, daily, log, s, n, k);
    EveryStateKeeps(o, daily, log, s, n, 3);
    if k > Prelude(log) {
      PendingIsKnown(o, daily, log, s, n, k - 1);
    } else if k == 4 {
      assert log[3].op.ReadScope?;
      ScopeIsKnown(o, daily, log[3]);
    }
    EntryKeepsPending(o, daily, log[k]);
  }

  /** The step that comes next, unless the run has ended. */
  lemma NextOp(o: Oracle, daily: bool, log: seq<Entry>, s: State, n: nat) returns (op: Op)
    requires History(o, daily, log, s, n) && Consistent(s) && log != [] && log[|log| - 1].fault.None? && !Ended(log)
    ensures var t := log[|log| - 1].after;
            && (op.RetireOne? ==> op.items != [] && Lists(t, op.batch, op.items))
            && (op.ReadScope? ==> t.pending.None?) && (op.OneTurn? ==> t.pending.Some? && PendingOf(t) != {})
    ensures forall e: Entry :: e.op == op && e.before == log[|log| - 1].after ==> RightOp(log + [e], |log|)
  {
    hide Fits, Consistent;
    var t := log[|log| - 1].after;
    if |log| < 3 {
      op := if |log| == 1 then ImportGaps else RestoreInputs;
    } else if |log| < Prelude(log) {
      op := ReadScope;
    } else if |log| == Prelude(log) {
      op := ImportPrior;
    } else {
      PendingIsKnown(o, daily, log, s, n, |log| - 1);
      op := OneTurn;
      if t.legacy != map[] {
        var item :| item in t.legacy;
        var items := Enumerate(BatchItems(t, t.legacy[item].batch));
        assert item in SetOf(items);
        op := RetireOne(t.legacy[item].batch, items);
      }
    }
  }

  lemma StepFollows(o: Oracle, daily: bool, log: seq<Entry>, s: State, n: nat) returns (e: Entry)
    requires History(o, daily, log, s, n) && Consistent(s) && !Ended(log)
    requires log != [] ==> log[|log| - 1].fault.None?
    ensures History(o, daily, log + [e], s, n)
  {
    hide Fits, RightOp, EntryOf, Consistent, Ended;
    if log == [] {
      EntryFits(o, daily, ImportPrior, s, n);
      e := EntryOf(o, daily, ImportPrior, s, n);
      ImportsFirst(e);
    } else {
      var last := log[|log| - 1];
      var op := NextOp(o, daily, log, s, n);
      EntryFits(o, daily, op, last.after, last.end);
      e := EntryOf(o, daily, op, last.after, last.end);
    }
    HistoryGrows(o, daily, log, s, n, e);
  }

  lemma ImportsFirst(e: Entry)
    requires e.op.ImportPrior?
    ensures RightOp([] + [e], 0)
  {
  }

  lemma FollowedIsOpen(o: Oracle, daily: bool, log: seq<Entry>, s: State, n: nat, e: Entry)
    requires History(o, daily, log + [e], s, n) && log != []
    ensures log[|log| - 1].fault.None? && !Ended(log)
  {
    hide Turn, InitScope, RetireBatch, RecoverPrior, RecoverPriceGaps, RecoverInputs;
    var l, k := log + [e], |log|;
    assert l[k] == e && l[k - 1] == log[k - 1] && (k >= 3 ==> l[2] == log[2]);
    assert Linked(l[k - 1], l[k]) && Fits(o, daily, l[k]) && RightOp(l, k);
  }

  /**
   * Whatever the transport replies, a run takes another step if and only if nothing stopped it and
   * something is left. A transport that goes on reporting new repairs can keep it running for ever,
   * and all its states are kept as above.
   */
  lemma RunGoesOnExactly(o: Oracle, daily: bool, log: seq<Entry>, s: State, n: nat)
    requires History(o, daily, log, s, n) && Consistent(s)
    ensures (exists e :: History(o, daily, log + [e], s, n))
            <==> log == [] || (log[|log| - 1].fault.None? && !Ended(log))
  {
    hide History;
    if log == [] || (log[|log| - 1].fault.None? && !Ended(log)) {
      var e := StepFollows(o, daily, log, s, n);
    } else if e :| History(o, daily, log + [e], s, n) {
      FollowedIsOpen(o, daily, log, s, n, e);
    }
  }

  // ---------- gates, evidence and stops ----------

  /**
   * Every signup of a run passed its gate: the accepted bundle, the discounts and the readback of
   * its own round, for exactly the products submitted and none that was enrolled before.
   */
  lemma EverySignupIsGated(o: Oracle, daily: bool, log: seq<Entry>, s: State, n: nat, k: nat)
    requires History(o, daily, log, s, n) && k < |log| && log[k].op.OneTurn?
    ensures var r := TurnOf(o, daily, log[k]);
            r.signup.Some? ==>
              && Gate(o, AtStart(o, daily, log[k].before), r) && r.submitted !! log[k].before.enrolled
              && r.submitted !! RefusedIn(o, r, FailedItem)
  {
    hide Turn, RightOp;
    TurnGate(o, daily, log[k].before, log[k].calls);
    if TurnOf(o, daily, log[k]).signup.Some? {
      RefusedProductsStayOut(o, daily, log[k].before, log[k].calls);
    }
  }

  /** A reply that this step got shows the product as enrolled. */
  predicate Shown(o: Oracle, daily: bool, e: Entry, item: Item) {
    match e.op
    case ReadScope =>
      UsableScope(o, e.calls) && item in o.scope(e.calls).value.scope
      && PriorIs(o.scope(e.calls).value, item, PriorSuccess)
    case OneTurn =>
      || (o.template.Some? && o.template.value <= e.before.initial && item in o.template.value)
      || item in SignedUpIn(o, TurnOf(o, daily, e))
    case _ => false
  }

  lemma ScopeEvidence(o: Oracle, daily: bool, e: Entry, item: Item)
    requires Fits(o, daily, e) && e.op.ReadScope? && item in e.after.success && item !in e.before.success
    ensures Shown(o, daily, e, item)
  {
    hide TakeHistory;
    if UsableScope(o, e.calls) {
      var r := o.scope(e.calls).value;
      HistoryTaken(e.before, r, daily, |r.scope|, e.calls);
    }
  }

  lemma TurnShows(o: Oracle, daily: bool, e: Entry, item: Item)
    requires Fits(o, daily, e) && e.op.OneTurn? && item in e.after.success && item !in e.before.success
    ensures Shown(o, daily, e, item)
  {
    hide Turn;
    TurnEvidence(o, daily, e.before, e.calls);
  }

  /** No step records a success that none of its own replies shows. */
  lemma EntryEvidence(o: Oracle, daily: bool, e: Entry, item: Item)
    requires Fits(o, daily, e) && item in e.after.success && item !in e.before.success
    ensures Shown(o, daily, e, item)
  {
    hide InitScope, Turn, RetireBatch, Shown;
    match e.op {
      case ReadScope => ScopeEvidence(o, daily, e, item);
      case OneTurn => TurnShows(o, daily, e, item);
      case RetireOne(batch, items) => RetireSucceedsNothing(o, e.before, batch, items, e.calls);
      case _ =>
    }
  }

  lemma RetireSucceedsNothing(o: Oracle, s: State, batch: string, items: seq<Item>, n: nat)
    requires Lists(s, batch, items)
    ensures RetireBatch(o, s, batch, items, n).state.success == s.success
  {
    hide RepairFailed;
    RepairFailedFrame(o, s, ErrorsOf(s, items), n);
  }

  /** Every success of a run was recorded before it, or a reply to one of its own calls shows it. */
  lemma {:induction false} EverySuccessIsShown(o: Oracle, daily: bool, log: seq<Entry>, s: State, n: nat, k: nat,
                                               item: Item)
    requires History(o, daily, log, s, n) && k < |log| && item in log[k].after.success
    ensures item in s.success || exists j :: 0 <= j <= k && Shown(o, daily, log[j], item)
  {
    hide Fits, RightOp, Shown;
    if item !in log[k].before.success {
      EntryEvidence(o, daily, log[k], item);
    } else if k > 0 {
      EverySuccessIsShown(o, daily, log, s, n, k - 1, item);
    }
  }

  lemma RetireStops(o: Oracle, s: State, batch: string, items: seq<Item>, n: nat)
    requires Lists(s, batch, items)
    ensures StopsRightly(o, s, RetireBatch(o, s, batch, items, n).fault)
  {
    hide RepairFailed;
    RepairStops(o, s, s, ErrorsOf(s, items), n);
  }

  lemma ScopeStops(o: Oracle, daily: bool, s: State, n: nat)
    ensures StopsRightly(o, s, InitScope(o, daily, s, n).fault)
  {
    hide TakeHistory;
    if UsableScope(o, n) {
      var r := o.scope(n).value;
      HistoryTaken(s, r, daily, |r.scope|, n);
    }
  }

  lemma ImportStops(o: Oracle, s: State, n: nat)
    ensures StopsRightly(o, s, RecoverPrior(o, s, n).fault)
    ensures StopsRightly(o, s, RecoverPriceGaps(o, s, n).fault)
    ensures StopsRightly(o, s, RecoverInputs(o, s, n).fault)
  {
  }

  lemma OnlyLastStops(log: seq<Entry>, s: State, n: nat)
    requires Chained(log, s, n)
    ensures forall k {:trigger log[k]} :: 0 <= k < |log| && log[k].fault.Some? ==> k == |log| - 1
  {
    forall k | 0 <= k < |log| - 1 ensures log[k].fault.None? {
      assert log[k + 1].before == log[k].after;
    }
  }

  /** A run stops only because a call failed or its reply does not fit what was asked. */
  lemma EveryStopIsRefused(o: Oracle, daily: bool, log: seq<Entry>, s: State, n: nat, k: nat)
    requires History(o, daily, log, s, n) && k < |log| && log[k].fault.Some?
    ensures k == |log| - 1 && Refused(o, log[k].before, log[k].fault.value)
  {
    hide InitScope, Turn, RetireBatch, RecoverPrior, RecoverPriceGaps, RecoverInputs, Refused, RightOp;
    var e := log[k];
    OnlyLastStops(log, s, n);
    match e.op {
      case ReadScope => ScopeStops(o, daily, e.before, e.calls);
      case OneTurn => TurnStops(o, daily, e.before, e.calls);
      case RetireOne(batch, items) => RetireStops(o, e.before, batch, items, e.calls);
      case _ => ImportStops(o, e.before, e.calls);
    }
  }
}
