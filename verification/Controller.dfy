/**
 * The controller: an untrusted transport answers every call, the state moves on step by step and
 * is saved after every step that was not stopped. Each method does exactly what the function of
 * the same name says about the old state and the replies.
 */
module Controller {
  import opened CampaignTypes
  import opened Policy
  import opened Rounds
  import opened RoundProofs
  import opened ScopeProofs
  import opened Runs

  /** How a run ends: a result, or an error that leaves the last saved state in the database. */
  datatype Outcome = Finished(allSignedUp: bool) | Stopped | Crashed

  class Controller {
    const oracle: Oracle
    const daily: bool
    var state: State
    /** The saved row of this run. */
    var stored: State
    var calls: nat
    ghost var log: seq<Entry>

    constructor (oracle: Oracle, daily: bool, loaded: State, calls: nat)
      ensures this.oracle == oracle && this.daily == daily
      ensures state == stored == loaded && this.calls == calls && log == []
    {
      this.oracle, this.daily := oracle, daily;
      state, stored := loaded, loaded;
      this.calls, log := calls, [];
    }

    // ---------- repairs ----------

    method Hold(items: set<Item>, reason: Code)
      modifies this`state
      ensures state == Held(old(state), items, reason)
    {
      state := state.(exceptions := state.exceptions + HoldAll(items, reason));
    }

    /** Products with any unrepairable SKU become exceptions with all their decisions. */
    method TakeExceptions(errors: seq<Failure>) returns (repairs: map<Item, seq<Decision>>)
      modifies this`state
      ensures repairs == RepairableOf(errors)
      ensures state == old(state).(exceptions := old(state.exceptions) + ManualOf(errors))
    {
      var exceptions;
      repairs, exceptions := ClassifyItems(errors);
      assert repairs == RepairableOf(errors);
      assert exceptions == ManualOf(errors);
      state := state.(exceptions := state.exceptions + exceptions);
    }

    /** A product whose repair was attempted before is held and not repaired again. */
    method DropAttempted(repairs: map<Item, seq<Decision>>) returns (untried: map<Item, seq<Decision>>)
      modifies this`state
      ensures untried == repairs - AttemptedIn(old(state), repairs)
      ensures state == Held(old(state), AttemptedIn(old(state), repairs), SameCorrection)
    {
      hide AlreadyAttempted;
      untried := repairs;
      var rest := repairs.Keys;
      ghost var dropped: set<Item> := {};
      assert state.exceptions + HoldAll({}, SameCorrection) == state.exceptions;
      while rest != {}
        invariant rest <= repairs.Keys && dropped == AttemptedIn(old(state), repairs) - rest
        invariant untried == repairs - dropped && state == Held(old(state), dropped, SameCorrection)
      {
        var item :| item in rest;
        rest := rest - {item};
        AttemptedFrame(old(state), state, item, repairs[item]);
        if AlreadyAttempted(state, item, repairs[item]) {
          HeldTwice(old(state), dropped, item, SameCorrection);
          Hold({item}, SameCorrection);
          untried := untried - {item};
          dropped := dropped + {item};
        }
      }
      assert dropped == AttemptedIn(old(state), repairs);
    }

    /** The last correction per SKU and kind counts, and the attempt is recorded. */
    method AcceptRepair(item: Item, decisions: seq<Decision>)
      modifies this`state
      ensures state == old(state).(
                         exceptions := old(state.exceptions) - {item},
                         corrections := old(state.corrections)[
                                                     item := Corrected(CorrectionsOf(old(state), item), decisions)],
                         seen := old(state.seen)[item := SeenOf(old(state), item) + {SignatureOf(decisions)}])
    {
      var merged := Merge(CorrectionsOf(state, item), decisions);
      state := state.(exceptions := state.exceptions - {item}, corrections := state.corrections[item := merged],
                      seen := state.seen[item := SeenOf(state, item) + {SignatureOf(decisions)}]);
    }

    method Merge(prior: Corrections, decisions: seq<Decision>) returns (merged: Corrections)
      ensures merged == Corrected(prior, decisions)
    {
      merged := prior;
      for k := 0 to |decisions|
        invariant merged == Corrected(prior, decisions[..k])
      {
        assert decisions[..k + 1][..k] == decisions[..k];
        var d := decisions[k];
        if d.repair.Some? {
          merged := merged[(d.sku, KindOf(d.repair.value)) := d];
        }
      }
      assert decisions[..|decisions|] == decisions;
    }

    /**
     * Each verified change goes on with its attempt recorded, every other row is held. Reading
     * stops at a verified change whose product number is not text.
     */
    method ApplyRepairRows(reply: RowsReply, repairs: map<Item, seq<Decision>>) returns (read: nat, next: set<Item>)
      requires TerminalScope(reply, repairs.Keys, false)
      modifies this`state
      ensures read == ReadRows(reply, |reply.rows|) && next == VerifiedIn(reply, read)
      ensures state == AfterRows(old(state), reply, read, repairs)
    {
      hide AfterRows, TerminalScope;
      read, next := 0, {};
      NoRows(state, reply, repairs);
      while read < |reply.rows| && (reply.rows[read].text || !Verified(reply, reply.rows[read]))
        invariant read <= |reply.rows| && ReadRows(reply, read) == read && next == VerifiedIn(reply, read)
        invariant state == AfterRows(old(state), reply, read, repairs)
      {
        var row := reply.rows[read];
        NextRow(old(state), reply, read, repairs);
        if Verified(reply, row) {
          next := next + {row.item};
          AcceptRepair(row.item, repairs[row.item]);
        } else {
          Hold({row.item}, RepairUnverified);
        }
        read := read + 1;
      }
      ReadingStops(reply, read, |reply.rows|);
    }

    method CallRepair(repairs: map<Item, seq<Decision>>) returns (fault: Option<Fault>, next: set<Item>)
      modifies this`state, this`calls
      ensures Step(state, calls, fault, next) == Rounds.CallRepair(oracle, old(state), repairs, old(calls))
    {
      var n, reply := calls, oracle.rows(calls);
      calls := calls + 1;
      if reply.None? || !TerminalScope(reply.value, repairs.Keys, false) {
        return Some(RepairRefused(n, repairs.Keys)), {};
      }
      var read;
      read, next := ApplyRepairRows(reply.value, repairs);
      if read < |reply.value.rows| {
        return Some(RepairRefused(n, repairs.Keys)), {};
      }
      fault := None;
    }

    static lemma SameAttempts(s: State, t: State, repairs: map<Item, seq<Decision>>)
      requires t.seen == s.seen && t.corrections == s.corrections
      ensures AttemptedIn(t, repairs) == AttemptedIn(s, repairs)
    {
      forall i | i in repairs ensures AlreadyAttempted(t, i, repairs[i]) == AlreadyAttempted(s, i, repairs[i]) {
      }
    }

    static lemma NoneUntried(repairs: map<Item, seq<Decision>>, attempted: set<Item>)
      ensures repairs - attempted == map[] <==> repairs.Keys <= attempted
    {
      assert (repairs - attempted).Keys == repairs.Keys - attempted;
      if repairs.Keys <= attempted {
        assert (repairs - attempted).Keys == {};
      } else {
        var i :| i in repairs && i !in attempted;
        assert i in repairs - attempted;
      }
    }

    /** Unrepairable and repeated products are held, the others are repaired in one call. */
    method RepairFailed(errors: seq<Failure>) returns (fault: Option<Fault>, next: set<Item>)
      modifies this`state, this`calls
      ensures Step(state, calls, fault, next) == Rounds.RepairFailed(oracle, old(state), errors, old(calls))
    {
      hide Rounds.CallRepair, ManualOf, RepairableOf, AlreadyAttempted;
      var repairs := TakeExceptions(errors);
      label Classified:
      var untried := DropAttempted(repairs);
      SameAttempts(old(state), old@Classified(state), repairs);
      hide AttemptedIn, Held;
      NoneUntried(repairs, AttemptedIn(old(state), repairs));
      if untried == map[] {
        return None, {};
      }
      fault, next := CallRepair(untried);
    }

    /** A report is used only when it names exactly these products, in this batch. */
    method FailedReport(batch: string, items: set<Item>, text: bool) returns (errors: Option<seq<Failure>>)
      modifies this`calls
      ensures calls == old(calls) + 1
      ensures errors.Some? <==> text && oracle.report(old(calls)).Some?
                                && ReportFits(oracle.report(old(calls)).value, batch, items)
      ensures errors.Some? ==> errors == oracle.report(old(calls)) && forall e :: e in errors.value ==> e.batch == batch
    {
      errors := oracle.report(calls);
      calls := calls + 1;
      if errors.Some? && (!text || !ReportFits(errors.value, batch, items)) {
        errors := None;
      }
    }

    method ReportAndRepair(batch: string, items: set<Item>, text: bool) returns (fault: Option<Fault>, next: set<Item>)
      modifies this`state, this`calls
      ensures Step(state, calls, fault, next)
              == Rounds.ReportAndRepair(oracle, old(state), batch, items, text, old(calls))
    {
      hide Rounds.RepairFailed;
      var n := calls;
      var errors := FailedReport(batch, items, text);
      if errors.None? {
        return Some(ReportRefused(n, batch, items, text)), {};
      }
      fault, next := RepairFailed(errors.value);
    }

    // ---------- one round ----------

    method RepairPartial(reply: RowsReply) returns (fault: Option<Fault>, next: set<Item>)
      modifies this`state, this`calls
      ensures Step(state, calls, fault, next) == Rounds.RepairPartial(oracle, old(state), reply, old(calls))
    {
      hide Rounds.ReportAndRepair;
      var partial := ItemsWith(reply, PartialItem);
      Hold(partial, PartialImport);
      if partial == {} || !reply.partialVerified {
        return None, {};
      }
      fault, next := ReportAndRepair(reply.batch, partial, partial !! Numeric(reply));
    }

    method RepairRefusals(reply: RowsReply) returns (fault: Option<Fault>, next: set<Item>)
      modifies this`state, this`calls
      ensures Step(state, calls, fault, next) == Rounds.RepairRefusals(oracle, old(state), reply, old(calls))
    {
      hide Rounds.ReportAndRepair;
      var failed := ItemsWith(reply, FailedItem);
      if failed == {} {
        return None, {};
      }
      fault, next := ReportAndRepair(reply.batch, failed, failed !! Numeric(reply));
    }

    /** Products whose discount was refused are held or repaired, and leave the round. */
    method DiscountPhase(items: set<Item>)
      returns (fault: Option<Fault>, removed: set<Item>, refused: bool, retries: set<Item>)
      modifies this`state, this`calls
      ensures Discounts(state, calls, fault, removed, refused, retries)
              == Rounds.DiscountPhase(oracle, old(state), items, old(calls))
    {
      hide Rounds.RepairPartial, Rounds.RepairRefusals;
      var n, reply := calls, oracle.rows(calls);
      calls := calls + 1;
      if reply.None? || !TerminalScope(reply.value, items, true) {
        return Some(DiscountRefused(n, items)), {}, false, {};
      }
      var partialRetries, discountRetries;
      fault, partialRetries := RepairPartial(reply.value);
      if fault.Some? {
        return fault, {}, false, {};
      }
      fault, discountRetries := RepairRefusals(reply.value);
      if fault.Some? {
        return fault, {}, false, {};
      }
      state := state.(required := discountRetries);
      removed := RemovedBy(reply.value);
      refused := ItemsWith(reply.value, FailedItem) + ItemsWith(reply.value, PartialItem) != {};
      retries := partialRetries + discountRetries;
    }

    /** Signup of exactly these products; only the successes of its terminal are recorded. */
    method SignupPhase(signup: set<Item>) returns (fault: Option<Fault>, next: set<Item>)
      modifies this`state, this`calls
      ensures Step(state, calls, fault, next) == Rounds.SignupPhase(oracle, old(state), signup, old(calls))
    {
      hide Rounds.ReportAndRepair;
      var n, reply := calls, oracle.rows(calls);
      calls := calls + 1;
      if reply.None? || !TerminalScope(reply.value, signup, false) {
        return Some(SignupRefused(n, signup)), {};
      }
      state := state.(success := state.success + SignedUp(reply.value));
      var failed := ItemsWith(reply.value, FailedItem);
      if failed == {} {
        return None, {};
      }
      fault, next := ReportAndRepair(reply.value.batch, failed, failed !! Numeric(reply.value));
    }

    method Reschedule(next: set<Item>)
      modifies this`state
      ensures state == Rescheduled(old(state), next)
    {
      state := state.(pending := Some(next), round := state.round + 1);
    }

    /** Where a round stands: the state, the calls made and the fault that stopped it. */
    predicate At(r: Round, fault: Option<Fault>)
      reads this`state, this`calls
    {
      state == r.state && calls == r.calls && fault == r.fault
    }

    method EnrolNow(signup: set<Item>, retries: set<Item>, ghost start: Round)
      returns (fault: Option<Fault>, ghost r: Round)
      requires state == start.state
      modifies this`state, this`calls
      ensures r == Rounds.EnrolNow(oracle, start, signup, retries, old(calls)) && At(r, fault)
    {
      hide Rounds.SignupPhase;
      var next;
      r := Rounds.EnrolNow(oracle, start, signup, retries, calls);
      fault, next := SignupPhase(signup);
      if fault.None? {
        Reschedule(retries + next);
      }
    }

    /** Products enrolled before are left out, with a bundle for exactly the others. */
    method EnrolOthers(work: set<Item>, retries: set<Item>, ghost start: Round)
      returns (fault: Option<Fault>, ghost r: Round)
      requires At(start, None)
      modifies this`state, this`calls
      ensures r == Rounds.EnrolOthers(oracle, start, work, work - old(state.enrolled), retries) && At(r, fault)
    {
      hide Rounds.EnrolNow;
      var n, signup := calls, work - state.enrolled;
      r := Rounds.EnrolOthers(oracle, start, work, signup, retries);
      if signup == {} {
        Reschedule(retries);
        return None, r;
      }
      if signup != work {
        calls := calls + 1;
        if !Regenerated(oracle, n, signup) {
          return Some(SubsetRefused(n, signup)), r;
        }
      }
      fault, r := EnrolNow(signup, retries, start);
    }

    /** Window readback, then signup of the products not enrolled before. */
    method Enrol(work: set<Item>, retries: set<Item>, ghost start: Round)
      returns (fault: Option<Fault>, ghost r: Round)
      requires At(start, None)
      modifies this`state, this`calls
      ensures r == Rounds.Enrol(oracle, start, work, retries) && At(r, fault)
    {
      hide Rounds.EnrolOthers;
      var n := calls;
      r := Rounds.Enrol(oracle, start, work, retries);
      calls := calls + 1;
      if !WindowCorrect(oracle, n, work) {
        return Some(WindowRefused(n, work)), r;
      }
      fault, r := EnrolOthers(work, retries, start.(calls := calls, window := Some(n)));
    }

    /** The round after an accepted bundle: discounts, then enrolment of what is left. */
    method Submit(items: set<Item>, ghost start: Round) returns (fault: Option<Fault>, ghost r: Round)
      requires At(start, None)
      modifies this`state, this`calls
      ensures r == Rounds.Submit(oracle, old(state), items, start) && At(r, fault)
    {
      hide Rounds.DiscountPhase, Rounds.Enrol;
      var pending, removed, refused, retries := PendingOf(state), {}, false, {};
      ghost var d := DiscountsOf(oracle, state, items, calls);
      r := Rounds.Submit(oracle, state, items, start);
      ghost var after := start.(state := d.state, calls := d.calls,
                                discount := if items == {} then None else Some(calls));
      if items != {} {
        fault, removed, refused, retries := DiscountPhase(items);
        if fault.Some? {
          return;
        }
      }
      var work := pending - removed;
      if work == {} {
        Reschedule(retries);
        return None, r;
      }
      if refused {
        calls := calls + 1;
        if !Regenerated(oracle, calls - 1, work) {
          return Some(SubsetRefused(calls - 1, work)), r;
        }
        after := after.(calls := calls);
      }
      fault, r := Enrol(work, retries, after);
    }

    method Save()
      modifies this`stored
      ensures stored == state
    {
      stored := state;
    }

    /** Products with missing inputs leave the round with exactly their issues. */
    method SetAside(issues: seq<(Item, Decision)>)
      modifies this`state
      ensures state == AfterIssues(old(state), issues)
    {
      var bad, exceptions := IssueItems(issues), state.exceptions;
      var rest := bad;
      ghost var done: set<Item> := {};
      assert exceptions == state.exceptions + HeldIssues(issues, done);
      while rest != {}
        invariant state == old(state) && rest <= bad && done == bad - rest
        invariant exceptions == state.exceptions + HeldIssues(issues, done)
      {
        var item :| item in rest;
        var own := OwnIssues(issues, item);
        HeldIssuesOne(state.exceptions, issues, done, item);
        exceptions := exceptions[item := own];
        rest := rest - {item};
        done := done + {item};
      }
      assert done == bad;
      state := state.(exceptions := exceptions, pending := Some(PendingOf(state) - bad),
                      required := state.required - bad, round := state.round + 1);
    }

    method OwnIssues(issues: seq<(Item, Decision)>, item: Item) returns (own: seq<Decision>)
      ensures own == IssuesOf(issues, item)
    {
      own := [];
      for k := 0 to |issues|
        invariant own + IssuesOf(issues[k..], item) == IssuesOf(issues, item)
      {
        assert issues[k..][1..] == issues[k + 1..];
        if issues[k].0 == item {
          own := own + [issues[k].1];
        }
      }
    }

    /** What one step of the run leaves behind: its log entry, and a save unless it stopped. */
    twostate predicate Logged(new op: Op, new fault: Option<Fault>)
      reads this
    {
      var e := Entry(op, old(state), old(calls), state, calls, fault);
      && Fits(oracle, daily, e) && log == old(log) + [e]
      && stored == if fault.None? then state else old(stored)
    }

    /** One round, saved unless it was stopped. */
    method Turn() returns (fault: Option<Fault>)
      requires state.pending.Some? && PendingOf(state) != {} && stored == state
      modifies this
      ensures Logged(OneTurn, fault)
    {
      hide Rounds.Turn;
      fault := Round();
      if fault.None? {
        Save();
      }
      log := log + [Entry(OneTurn, old(state), old(calls), state, calls, fault)];
    }

    method Round() returns (fault: Option<Fault>)
      modifies this`state, this`calls
      ensures At(Rounds.Turn(oracle, daily, old(state), old(calls)), fault)
    {
      hide Rounds.Submit;
      if oracle.template.None? || !(oracle.template.value <= state.initial) {
        return Some(TemplateRefused);
      }
      state := AfterTemplate(state, oracle.template.value, daily);
      if PendingOf(state) == {} {
        return None;
      }
      var n, b := calls, oracle.bundle(calls);
      calls := calls + 1;
      if b.None? || !BundleFits(b.value, PendingOf(state), state.required) {
        return Some(BundleRefused(n, PendingOf(state), state.required));
      }
      if b.value.issues != [] {
        SetAside(b.value.issues);
        return None;
      }
      ghost var r;
      fault, r := Submit(SetOf(b.value.discountItems), Quiet(state, calls, None).(bundle := Some(n)));
    }

    // ---------- before the rounds ----------

    /** Imported failures replace the exceptions of their products and reopen the run. */
    method Import(imported: map<Item, Legacy>)
      requires stored == state
      modifies this`state, this`stored
      ensures state == AfterImport(old(state), imported) && stored == state
    {
      if imported != map[] {
        state := state.(legacy := state.legacy + imported, exceptions := state.exceptions - imported.Keys,
                        status := Ready);
        Save();
      }
    }

    /** Earlier failures that were held for their exact report; none while an action is open. */
    method RecoverPrior() returns (fault: Option<Fault>)
      requires stored == state
      modifies this
      ensures Logged(ImportPrior, fault)
    {
      fault := None;
      var n, wanted := calls, WaitingForImport(state);
      if !oracle.openActions(calls) && wanted != {} {
        var imported := oracle.priorFailures(calls);
        calls := calls + 1;
        if imported.None? || !(imported.value.Keys <= wanted)
           || exists i :: i in imported.value && !ValidImport(i, imported.value[i]) {
          fault := Some(PriorRefused(n, wanted));
        } else {
          Import(imported.value);
        }
      }
      log := log + [Entry(ImportPrior, old(state), old(calls), state, calls, fault)];
    }

    /** The same for products without a price readback; here the report is taken as it comes. */
    method RecoverPriceGaps() returns (fault: Option<Fault>)
      requires stored == state
      modifies this
      ensures Logged(ImportGaps, fault)
    {
      fault := None;
      var n, wanted := calls, WaitingForReadback(state);
      if Idle(state) && !oracle.openActions(calls) && wanted != {} {
        var imported := oracle.priceGaps(calls);
        calls := calls + 1;
        if imported.None? || !(imported.value.Keys <= wanted) {
          fault := Some(GapsRefused(n, wanted));
        } else {
          Import(imported.value);
        }
      }
      log := log + [Entry(ImportGaps, old(state), old(calls), state, calls, fault)];
    }

    /** Products whose missing inputs have since been proven are the work of the next round. */
    method RecoverInputs() returns (fault: Option<Fault>)
      requires stored == state
      modifies this
      ensures Logged(RestoreInputs, fault)
    {
      fault := None;
      var n, wanted := calls, WaitingForInputs(state);
      if Idle(state) && !oracle.openActions(calls) && wanted != {} {
        var restored := oracle.inputs(calls);
        calls := calls + 1;
        if restored.None? || !(restored.value <= wanted) || !(restored.value !! state.success) {
          fault := Some(InputsRefused(n, wanted, state.success));
        } else if restored.value != {} {
          state := AfterInputs(state, restored.value);
          Save();
        }
      }
      log := log + [Entry(RestoreInputs, old(state), old(calls), state, calls, fault)];
    }

    /** The earlier outcome of one product: done, held, imported, or left to work on. */
    method TakePrior(item: Item, r: ScopeReply)
      modifies this`state
      ensures state == Rounds.TakePrior(old(state), item, r, daily)
    {
      if item !in r.prior {
        return;
      }
      var left := Some(PendingOf(state) - {item});
      match r.prior[item] {
        case PriorSuccess =>
          state := state.(success := state.success + {item});
          if daily {
            state := state.(enrolled := state.enrolled + {item});
          } else {
            state := state.(pending := left);
          }
        case PriorUnknown =>
          Hold({item}, PreviousUnknown);
          state := state.(pending := left);
        case PriorFailed =>
          if Importable(r, item) {
            state := state.(legacy := state.legacy[item := r.imported[item]]);
          } else {
            Hold({item}, LegacyImportNeeded);
          }
          state := state.(pending := left);
      }
    }

    /** The history of the scope, product by product, up to a record that cannot be read. */
    method TakeHistory(r: ScopeReply, ghost n: nat) returns (fault: Option<Fault>)
      requires calls == n + 1
      modifies this`state
      ensures Step(state, calls, fault, {}) == Rounds.TakeHistory(old(state), r, daily, |r.scope|, n)
    {
      hide Rounds.TakePrior, Unreadable, CrashesOn;
      state := Opened(state, r);
      for k := 0 to |r.scope|
        invariant Step(state, calls, None, {}) == Rounds.TakeHistory(old(state), r, daily, k, n)
      {
        var item := r.scope[k];
        if Unreadable(r, item) || CrashesOn(r, item) {
          fault := Some(if Unreadable(r, item) then HistoryUnreadable(calls - 1, item)
                      else HistoryCrashes(calls - 1, item));
          HistoryEnds(old(state), r, daily, k + 1, |r.scope|, n);
          return;
        }
        TakePrior(item, r);
      }
      fault := None;
    }

    /** The scope of the run, and what earlier runs left of it. */
    method InitScope() returns (fault: Option<Fault>)
      requires stored == state && state.pending.None?
      modifies this
      ensures Logged(ReadScope, fault)
    {
      hide Rounds.TakeHistory;
      var n, reply := calls, oracle.scope(calls);
      calls := calls + 1;
      if reply.None? || !reply.value.valid || !NoDuplicates(reply.value.scope) {
        fault := Some(ScopeRefused(n));
      } else {
        fault := TakeHistory(reply.value, n);
        if fault.None? {
          Save();
        }
      }
      log := log + [Entry(ReadScope, old(state), old(calls), state, calls, fault)];
    }

    /** All errors of these imported failures. */
    method BatchErrors(items: seq<Item>) returns (errors: seq<Failure>)
      requires SetOf(items) <= state.legacy.Keys
      ensures errors == ErrorsOf(state, items)
    {
      errors := [];
      for k := 0 to |items|
        invariant SetOf(items[..k]) <= state.legacy.Keys && errors == ErrorsOf(state, items[..k])
      {
        assert items[k] in SetOf(items) && items[..k + 1] == items[..k] + [items[k]];
        SetOfAppend(items[..k], items[k]);
        assert items[..k + 1][..k] == items[..k];
        errors := errors + ListOf(state.legacy[items[k]]);
      }
      assert items[..|items|] == items;
    }

    /** One imported batch is decided and retired; when the repair is refused, nothing is retired. */
    method RetireBatch(batch: string, items: seq<Item>) returns (fault: Option<Fault>)
      requires stored == state && items != [] && Lists(state, batch, items)
      modifies this
      ensures Logged(RetireOne(batch, items), fault)
    {
      hide Rounds.RepairFailed, ErrorsOf;
      fault := None;
      if exists i | i in BatchItems(state, batch) :: state.legacy[i].errors.NotIterable? {
        fault := Some(LegacyUnreadable(batch));
      } else if exists i | i in BatchItems(state, batch) :: state.legacy[i].errors.NotRecords? {
        fault := Some(LegacyCrashes(batch));
      } else {
        var errors := BatchErrors(items);
        var next;
        var pending, legacy := PendingOf(state), state.legacy;
        fault, next := RepairFailed(errors);
        if fault.None? {
          state := state.(pending := Some(pending + next), legacy := legacy - SetOf(items));
          Save();
        }
      }
      log := log + [Entry(RetireOne(batch, items), old(state), old(calls), state, calls, fault)];
    }

    // ---------- a whole run ----------

    /** The steps so far are a history from this state, and the last one was saved. */
    ghost predicate Running(s: State, n: nat)
      reads this
    {
      && History(oracle, daily, log, s, n) && stored == state
      && if log == [] then state == s && calls == n
         else log[|log| - 1].fault.None? && state == log[|log| - 1].after && calls == log[|log| - 1].end
    }

    /** The last step was stopped, and the database still holds what was saved before it. */
    ghost predicate Halted(s: State, n: nat, fault: Fault)
      reads this
    {
      && History(oracle, daily, log, s, n) && log != [] && log[|log| - 1].fault == Some(fault)
      && state == log[|log| - 1].after && stored == log[|log| - 1].before
    }

    ghost predicate Goes(s: State, n: nat, fault: Option<Fault>)
      reads this
    {
      if fault.None? then Running(s, n) else Halted(s, n, fault.value)
    }

    /** The step just logged, after the history that it was logged to, continues that history. */
    lemma Continue(before: seq<Entry>, s: State, n: nat, fault: Option<Fault>)
      requires History(oracle, daily, before, s, n) && |log| > 0
      requires var e := log[|log| - 1];
               && log == before + [e] && Follows(before, s, n, e) && Fits(oracle, daily, e) && RightOp(log, |before|)
               && e.fault == fault && e.after == state && e.end == calls
               && stored == if fault.None? then state else e.before
      ensures Goes(s, n, fault)
    {
      hide Fits, RightOp, History;
      HistoryGrows(oracle, daily, before, s, n, log[|log| - 1]);
    }

    /** Earlier failures, missing price readbacks and missing inputs, in this order. */
    method Recover(ghost s: State, ghost n: nat) returns (fault: Option<Fault>)
      requires Running(s, n) && log == []
      modifies this
      ensures Goes(s, n, fault) && (fault.None? ==> |log| == 3)
    {
      hide Fits, History;
      ghost var before := log;
      fault := RecoverPrior();
      Continue(before, s, n, fault);
      if fault.None? {
        before := log;
        fault := RecoverPriceGaps();
        Continue(before, s, n, fault);
      }
      if fault.None? {
        before := log;
        fault := RecoverInputs();
        Continue(before, s, n, fault);
      }
    }

    /** The scope is known and the earlier failures were asked for: batches and rounds remain. */
    ghost predicate Working(s: State, n: nat)
      reads this
    {
      && Running(s, n) && |log| > 3 && |log| > Prelude(log) && !log[2].after.status.Complete?
      && Consistent(state) && state.pending.Some? && !state.status.Complete?
    }

    /** The products of one batch, in the order of the table. */
    method ListBatch(batch: string) returns (items: seq<Item>)
      ensures Lists(state, batch, items)
    {
      items := [];
      var rest := BatchItems(state, batch);
      while rest != {}
        invariant NoDuplicates(items) && rest <= BatchItems(state, batch)
        invariant SetOf(items) == BatchItems(state, batch) - rest
      {
        var item :| item in rest;
        assert item !in SetOf(items);
        AppendDistinct(items, item);
        SetOfAppend(items, item);
        items := items + [item];
        rest := rest - {item};
      }
    }

    /** The imported batches, one after the other. */
    method RetireAll(ghost s: State, ghost n: nat) returns (fault: Option<Fault>)
      requires Working(s, n)
      modifies this
      ensures Goes(s, n, fault) && (fault.None? ==> Working(s, n) && state.legacy == map[])
    {
      hide History, Rounds.RetireBatch, Consistent;
      fault := None;
      while fault.None? && state.legacy != map[]
        invariant Goes(s, n, fault) && (fault.None? ==> Working(s, n))
        decreases fault.None?, state.legacy.Keys
      {
        var item :| item in state.legacy;
        var batch := state.legacy[item].batch;
        var items := ListBatch(batch);
        assert item in SetOf(items);
        RetireBatchFrame(oracle, state, batch, items, calls);
        ghost var before := log;
        fault := RetireBatch(batch, items);
        assert log[2] == before[2];
        Continue(before, s, n, fault);
      }
    }

    /** The rounds: they end because each one shrinks the work or uses up a repair attempt. */
    method Loop(ghost s: State, ghost n: nat, ghost universe: set<(Item, Signature)>) returns (fault: Option<Fault>)
      requires Working(s, n) && state.legacy == map[] && Bounded(oracle, universe)
      modifies this
      ensures Goes(s, n, fault)
      ensures fault.None? ==> Working(s, n) && state.legacy == map[] && PendingOf(state) == {}
    {
      hide History, Rounds.Turn, Unused, Bounded, Grown, Attempts, Reported;
      fault := None;
      while fault.None? && PendingOf(state) != {}
        invariant Goes(s, n, fault) && (fault.None? ==> Working(s, n) && state.legacy == map[])
        decreases fault.None?, Unused(universe, state), PendingOf(state)
      {
        TurnFacts(oracle, daily, state, calls);
        RoundSpends(oracle, state, Rounds.Turn(oracle, daily, state, calls), universe);
        ghost var before := log;
        fault := Turn();
        assert log[2] == before[2];
        Continue(before, s, n, fault);
      }
    }

    /** The scope unless it is known, and the earlier failures that it holds. */
    method Begin(ghost s: State, ghost n: nat) returns (fault: Option<Fault>)
      requires Running(s, n) && |log| == 3 && Consistent(state) && !state.status.Complete?
      modifies this
      ensures Goes(s, n, fault) && (fault.None? ==> Working(s, n))
    {
      hide History, Rounds.InitScope, Rounds.RecoverPrior;
      fault := None;
      ghost var before := log;
      if state.pending.None? {
        InitScopeKeeps(oracle, daily, state, calls);
        fault := InitScope();
        assert log[2] == before[2];
        Continue(before, s, n, fault);
        if fault.Some? {
          return;
        }
      }
      before := log;
      RecoverPriorKeeps(oracle, state, calls);
      fault := RecoverPrior();
      assert log[2] == before[2];
      Continue(before, s, n, fault);
    }

    method Process(ghost s: State, ghost n: nat, ghost universe: set<(Item, Signature)>) returns (fault: Option<Fault>)
      requires Running(s, n) && |log| == 3 && Consistent(state) && !state.status.Complete? && Bounded(oracle, universe)
      modifies this
      ensures Goes(s, n, fault)
      ensures fault.None? ==> Working(s, n) && state.legacy == map[] && PendingOf(state) == {}
    {
      fault := Begin(s, n);
      if fault.None? {
        fault := RetireAll(s, n);
      }
      if fault.None? {
        fault := Loop(s, n, universe);
      }
    }

    /**
     * Runs until everything is processed or some reply is refused. What it did is a history of
     * exactly the steps that the replies call for, in the program's order. It is complete exactly
     * when nothing stopped it and nothing is left; an error that ends the process leaves the
     * database as the last step before it saved it. It ends when the repair attempts are finite.
     */
    method Run(ghost universe: set<(Item, Signature)>) returns (outcome: Outcome)
      requires stored == state && log == [] && Consistent(state) && Bounded(oracle, universe)
      modifies this
      ensures History(oracle, daily, log, old(state), old(calls)) && log != []
      ensures var e := log[|log| - 1];
              match outcome
              case Finished(all) =>
                && Ended(log) && state == e.after.(status := Complete) && stored == state
                && (all <==> state.exceptions == map[])
              case Stopped =>
                e.fault.Some? && !Crashes(e.fault.value) && state == e.after.(status := Status.Blocked)
                && stored == state
              case Crashed => e.fault.Some? && Crashes(e.fault.value) && stored == e.before
    {
      hide History, Fits;
      ghost var s, n := state, calls;
      NoHistory(oracle, daily, s, n);
      var fault := Recover(s, n);
      if fault.None? && !state.status.Complete? {
        AfterPrelude(oracle, daily, log, s, n);
        fault := Process(s, n, universe);
      }
      if fault.Some? && Crashes(fault.value) {
        return Crashed;
      }
      state := state.(status := if fault.None? then Complete else Status.Blocked);
      Save();
      outcome := if fault.None? then Finished(state.exceptions == map[]) else Stopped;
    }
  }

  lemma HeldTwice(s: State, items: set<Item>, item: Item, reason: Code)
    ensures Held(Held(s, items, reason), {item}, reason) == Held(s, items + {item}, reason)
  {
    assert s.exceptions + HoldAll(items, reason) + HoldAll({item}, reason)
        == s.exceptions + HoldAll(items + {item}, reason);
  }

  lemma NothingEntered<T>(table: map<Item, T>, values: map<Item, T>)
    ensures Entered(table, values, {}) == table
  {
  }

  lemma NothingHeld(table: map<Item, seq<Decision>>)
    ensures HeldRows(table, {}, {}) == table
  {
  }

  lemma NoRows(s: State, reply: RowsReply, repairs: map<Item, seq<Decision>>)
    ensures AfterRows(s, reply, 0, repairs) == s && VerifiedIn(reply, 0) == {} && ReadRows(reply, 0) == 0
  {
    hide HeldRows, Entered;
    assert RowItems(reply.rows[..0]) == {} && VerifiedIn(reply, 0) == {};
    NothingHeld(s.exceptions);
    NothingEntered(s.corrections, NewCorrections(s, repairs));
    NothingEntered(s.seen, NewSeen(s, repairs));
  }

  lemma HeldIssuesOne(table: map<Item, seq<Decision>>, issues: seq<(Item, Decision)>, done: set<Item>, item: Item)
    ensures table + HeldIssues(issues, done + {item}) ==
            (table + HeldIssues(issues, done))[item := IssuesOf(issues, item)]
  {
  }

  /** One more row: what it adds to the rows read so far. */
  lemma RowSets(reply: RowsReply, n: nat, items: set<Item>)
    requires n < |reply.rows| && TerminalScope(reply, items, false)
    ensures var row := reply.rows[n];
            && row.item in items && row.item !in RowItems(reply.rows[..n])
            && VerifiedIn(reply, n) <= RowItems(reply.rows[..n])
            && RowItems(reply.rows[..n + 1]) == RowItems(reply.rows[..n]) + {row.item}
            && VerifiedIn(reply, n + 1) == if Verified(reply, row) then VerifiedIn(reply, n) + {row.item}
                                           else VerifiedIn(reply, n)
  {
    assert reply.rows[..n + 1] == reply.rows[..n] + [reply.rows[n]];
    assert reply.rows[n] in reply.rows;
    forall r | r in reply.rows[..n] ensures r.item != reply.rows[n].item {
      var j :| 0 <= j < n && reply.rows[j] == r;
    }
  }

  lemma EnteredOne<T>(table: map<Item, T>, values: map<Item, T>, done: set<Item>, item: Item)
    requires item in values && item !in done
    ensures Entered(table, values, done + {item}) == Entered(table, values, done)[item := values[item]]
    ensures item in Entered(table, values, done) <==> item in table
    ensures item in table ==> Entered(table, values, done)[item] == table[item]
  {
  }

  lemma HeldRowsOne(table: map<Item, seq<Decision>>, read: set<Item>, done: set<Item>, item: Item)
    requires done <= read && item !in read
    ensures HeldRows(table, read + {item}, done + {item}) == HeldRows(table, read, done) - {item}
  {
    assert (read + {item}) - (done + {item}) == read - done;
  }

  lemma HeldRowsMore(table: map<Item, seq<Decision>>, read: set<Item>, done: set<Item>, item: Item)
    requires done <= read && item !in read
    ensures HeldRows(table, read + {item}, done) == HeldRows(table, read, done) + HoldAll({item}, RepairUnverified)
  {
    assert (read + {item}) - done == (read - done) + {item};
  }

  lemma AttemptedFrame(s: State, t: State, item: Item, decisions: seq<Decision>)
    requires s.seen == t.seen && s.corrections == t.corrections
    ensures AlreadyAttempted(s, item, decisions) == AlreadyAttempted(t, item, decisions)
  {
  }

  lemma NextRow(s: State, reply: RowsReply, n: nat, repairs: map<Item, seq<Decision>>)
    requires n < |reply.rows| && TerminalScope(reply, repairs.Keys, false) && ReadRows(reply, n) == n
    requires reply.rows[n].text || !Verified(reply, reply.rows[n])
    ensures var t, u, row := AfterRows(s, reply, n, repairs), AfterRows(s, reply, n + 1, repairs), reply.rows[n];
            && row.item in repairs && ReadRows(reply, n + 1) == n + 1
            && VerifiedIn(reply, n + 1) == (if Verified(reply, row) then VerifiedIn(reply, n) + {row.item}
                                            else VerifiedIn(reply, n))
            && if Verified(reply, row) then
                 u == t.(exceptions := t.exceptions - {row.item},
                         corrections := t.corrections[
                                           row.item := Corrected(CorrectionsOf(t, row.item), repairs[row.item])],
                         seen := t.seen[row.item := SeenOf(t, row.item) + {SignatureOf(repairs[row.item])}])
               else u == Held(t, {row.item}, RepairUnverified)
  {
    hide TerminalScope, HeldRows, Entered, HoldAll, Corrected, SignatureOf, VerifiedIn, RowItems;
    var item, read, done := reply.rows[n].item, RowItems(reply.rows[..n]), VerifiedIn(reply, n);
    RowSets(reply, n, repairs.Keys);
    HeldRowsOne(s.exceptions, read, done, item);
    HeldRowsMore(s.exceptions, read, done, item);
    EnteredOne(s.corrections, NewCorrections(s, repairs), done, item);
    EnteredOne(s.seen, NewSeen(s, repairs), done, item);
  }

  lemma {:induction false} ReadingStops(reply: RowsReply, n: nat, k: nat)
    requires n <= k <= |reply.rows| && ReadRows(reply, n) == n
    requires n < |reply.rows| ==> !reply.rows[n].text && Verified(reply, reply.rows[n])
    ensures ReadRows(reply, k) == n
  {
    if n < k {
      ReadingStops(reply, n, k - 1);
    }
  }

  /** Once reading the history has stopped, the rest of the scope changes nothing. */
  lemma {:induction false} HistoryEnds(s: State, r: ScopeReply, daily: bool, j: nat, k: nat, n: nat)
    requires j <= k <= |r.scope| && Rounds.TakeHistory(s, r, daily, j, n).fault.Some?
    ensures Rounds.TakeHistory(s, r, daily, k, n) == Rounds.TakeHistory(s, r, daily, j, n)
  {
    if j < k {
      HistoryEnds(s, r, daily, j, k - 1, n);
    }
  }

  lemma AfterPrelude(o: Oracle, daily: bool, log: seq<Entry>, s: State, n: nat)
    requires History(o, daily, log, s, n) && log != [] && Consistent(s)
    ensures Consistent(log[|log| - 1].after)
  {
    EveryStateKeeps(o, daily, log, s, n, |log| - 1);
  }
}
