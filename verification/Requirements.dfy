/**
 * A product whose discount failed and was repaired must have its discount in the next bundle.
 * The template takes registered products out of the round, but not out of that requirement.
 */
module Requirements {
  import opened CampaignTypes
  import opened Policy
  import opened Rounds
  import opened RoundProofs
  import opened RoundGate
  import opened ScopeProofs
  import opened Runs

  /** Every required product is still worked on. */
  predicate RequiredPending(s: State) { s.required <= PendingOf(s) }

  /**
   * When the template's registered products are known, some bundle can still be accepted if and
   * only if no required product was registered; a daily segment keeps registered products pending.
   */
  lemma RegistrationBlocks(s: State, registered: set<Item>, daily: bool)
    requires RequiredPending(s)
    ensures var t := AfterTemplate(s, registered, daily);
            (exists b :: BundleAccepted(b, PendingOf(t), t.required)) <==> daily || s.required !! registered
  {
    var t := AfterTemplate(s, registered, daily);
    if daily || s.required !! registered {
      var list := Enumerate(s.required);
      assert BundleAccepted(BundleReply([], true, PendingOf(t), list), PendingOf(t), t.required);
    }
  }

  // ---------- one run keeps required products pending ----------

  lemma EnrolNowRequires(o: Oracle, r: Round, signup: set<Item>, retries: set<Item>, n: nat)
    requires RequiredPending(r.state) && r.state.required <= retries
    ensures RequiredPending(EnrolNow(o, r, signup, retries, n).state)
  {
    hide ReportAndRepair;
    var reply := o.rows(n);
    if reply.Some? && TerminalScope(reply.value, signup, false) {
      var t, failed := r.state.(success := r.state.success + SignedUp(reply.value)), ItemsWith(reply.value, FailedItem);
      ReportFrame(o, t, reply.value.batch, failed, failed !! Numeric(reply.value), n + 1);
    }
  }

  lemma EnrolRequires(o: Oracle, r: Round, work: set<Item>, retries: set<Item>)
    requires RequiredPending(r.state) && r.state.required <= retries
    ensures RequiredPending(Enrol(o, r, work, retries).state)
  {
    hide EnrolNow, WindowCorrect, Regenerated;
    var signup, n := work - r.state.enrolled, r.calls + 1;
    EnrolNowRequires(o, r.(calls := n, window := Some(r.calls)), signup, retries, if signup == work then n else n + 1);
  }

  /** What the discounts require is tried again, and is among the discounted products. */
  lemma DiscountRequires(o: Oracle, s: State, items: set<Item>, n: nat)
    ensures var d := DiscountsOf(o, s, items, n);
            && PendingOf(d.state) == PendingOf(s)
            && (items == {} || d.fault.Some? ==> d.state.required == s.required)
            && (items != {} && d.fault.None? ==> d.state.required <= d.retries && d.state.required <= items)
  {
    hide RepairPartial, RepairRefusals, RemovedBy;
    var reply := o.rows(n);
    if items != {} && reply.Some? && TerminalScope(reply.value, items, true) {
      RepairPartialFrame(o, s, reply.value, n + 1);
      var p := RepairPartial(o, s, reply.value, n + 1);
      RepairRefusalsFrame(o, p.state, reply.value, p.calls);
      RefusalsInScope(o, p.state, reply.value, p.calls);
    }
  }

  lemma RefusalsInScope(o: Oracle, s: State, reply: RowsReply, n: nat)
    ensures RepairRefusals(o, s, reply, n).next <= ItemsWith(reply, FailedItem)
  {
    hide CallRepair;
    var failed, report := ItemsWith(reply, FailedItem), o.report(n);
    if failed != {} && report.Some? && ReportFits(report.value, reply.batch, failed) {
      var repairs := RepairableOf(report.value);
      var t := BeforeRepair(s, report.value);
      CallRepairFacts(o, t, repairs - AttemptedIn(s, repairs), n + 1);
    }
  }

  lemma SubmitRequires(o: Oracle, t: State, items: set<Item>, r: Round)
    requires RequiredPending(t) && t.required <= items <= PendingOf(t)
    ensures RequiredPending(Submit(o, t, items, r).state)
  {
    hide Enrol, Regenerated, DiscountPhase;
    var d := DiscountsOf(o, t, items, r.calls);
    DiscountRequires(o, t, items, r.calls);
    if d.fault.None? {
      var u := r.(state := d.state, calls := if d.refused then d.calls + 1 else d.calls,
                  discount := if items == {} then None else Some(r.calls));
      assert RequiredPending(d.state) && (items == {} ==> d.state.required == {});
      EnrolRequires(o, u, PendingOf(t) - d.removed, d.retries);
    }
  }

  /** A round keeps required products pending, unless the template takes one of them away. */
  lemma TurnRequires(o: Oracle, daily: bool, s: State, n: nat)
    requires RequiredPending(s)
    requires !daily && o.template.Some? ==> s.required !! o.template.value
    ensures RequiredPending(Turn(o, daily, s, n).state)
  {
    hide Submit;
    if o.template.Some? && o.template.value <= s.initial {
      var t, b := AtStart(o, daily, s), o.bundle(n);
      if b.Some? && BundleFits(b.value, PendingOf(t), t.required) && b.value.issues == [] {
        SubmitRequires(o, t, SetOf(b.value.discountItems), Quiet(t, n + 1, None).(bundle := Some(n)));
      }
    }
  }

  /** After one round that did not stop, no registered product is pending any more. */
  lemma RegisteredLeave(o: Oracle, s: State, n: nat)
    requires s.pending.Some? && s.enrolled <= s.success
    requires Turn(o, false, s, n).fault.None?
    ensures PendingOf(Turn(o, false, s, n).state) !! o.template.value
  {
    hide Submit;
    var t, b := AtStart(o, false, s), o.bundle(n);
    if PendingOf(t) != {} && BundleFits(b.value, PendingOf(t), t.required) && b.value.issues == [] {
      AfterTemplateKeeps(s, o.template.value, false);
      SubmitFacts(o, t, SetOf(b.value.discountItems), Quiet(t, n + 1, None).(bundle := Some(n)));
    }
  }

  /**
   * Within one run the requirement is therefore blocked by the template in the first round or
   * never: from the second round on, some bundle can be accepted in every round.
   */
  lemma LaterRoundsCanContinue(o: Oracle, s: State, n: nat)
    requires s.pending.Some? && s.enrolled <= s.success && RequiredPending(s)
    requires s.required !! (if o.template.Some? then o.template.value else {})
    requires Turn(o, false, s, n).fault.None?
    ensures var u := Turn(o, false, s, n).state;
            var t := AfterTemplate(u, o.template.value, false);
            && RequiredPending(u) && u.required !! o.template.value
            && exists b :: BundleAccepted(b, PendingOf(t), t.required)
  {
    TurnRequires(o, false, s, n);
    RegisteredLeave(o, s, n);
    RegistrationBlocks(Turn(o, false, s, n).state, o.template.value, false);
  }

  /** So do all steps before the rounds. */
  lemma ImportsRequire(o: Oracle, s: State, n: nat)
    requires RequiredPending(s)
    ensures RequiredPending(RecoverPrior(o, s, n).state) && RequiredPending(RecoverPriceGaps(o, s, n).state)
    ensures RequiredPending(RecoverInputs(o, s, n).state)
  {
    hide WaitingForImport, WaitingForReadback, WaitingForInputs, ValidImport;
  }

  lemma ScopeRequires(o: Oracle, daily: bool, s: State, n: nat)
    requires RequiredPending(s) && s.pending.None?
    ensures RequiredPending(InitScope(o, daily, s, n).state)
  {
    if UsableScope(o, n) {
      hide TakeHistory, Settled, DoneBefore, HeldIn, ImportedIn;
      var r := o.scope(n).value;
      HistoryTaken(s, r, daily, |r.scope|, n);
    }
  }

  lemma RetirementRequires(o: Oracle, s: State, batch: string, items: seq<Item>, n: nat)
    requires RequiredPending(s) && Lists(s, batch, items)
    ensures RequiredPending(RetireBatch(o, s, batch, items, n).state)
  {
    hide RepairFailed;
    RepairFailedFrame(o, s, ErrorsOf(s, items), n);
  }

  // ---------- over a whole run ----------

  /** No required product is one that the template of this run lists as registered. */
  predicate Unregistered(o: Oracle, daily: bool, s: State) {
    daily || o.template.None? || s.required !! o.template.value
  }

  lemma TurnStaysUnregistered(o: Oracle, daily: bool, s: State, n: nat)
    requires s.pending.Some? && s.enrolled <= s.success
    requires RequiredPending(s) && Unregistered(o, daily, s)
    ensures var r := Turn(o, daily, s, n);
            RequiredPending(r.state) && (r.fault.None? ==> Unregistered(o, daily, r.state))
  {
    hide Turn;
    TurnRequires(o, daily, s, n);
    if !daily && Turn(o, false, s, n).fault.None? {
      RegisteredLeave(o, s, n);
    }
  }

  lemma RetirementKeepsRequired(o: Oracle, s: State, batch: string, items: seq<Item>, n: nat)
    requires Lists(s, batch, items)
    ensures RetireBatch(o, s, batch, items, n).state.required == s.required
  {
    hide RepairFailed;
    RepairFailedFrame(o, s, ErrorsOf(s, items), n);
  }

  lemma ScopeKeepsRequired(o: Oracle, daily: bool, s: State, n: nat)
    ensures InitScope(o, daily, s, n).state.required == s.required
  {
    if UsableScope(o, n) {
      hide TakeHistory, Settled, DoneBefore, HeldIn, ImportedIn;
      HistoryTaken(s, o.scope(n).value, daily, |o.scope(n).value.scope|, n);
    }
  }

  lemma EntryStaysUnregistered(o: Oracle, daily: bool, e: Entry)
    requires Fits(o, daily, e) && Consistent(e.before)
    requires RequiredPending(e.before) && Unregistered(o, daily, e.before)
    ensures RequiredPending(e.after) && (e.fault.None? ==> Unregistered(o, daily, e.after))
  {
    hide InitScope, Turn, RetireBatch, WaitingForImport, WaitingForReadback, WaitingForInputs, ValidImport;
    match e.op {
      case OneTurn => TurnStaysUnregistered(o, daily, e.before, e.calls);
      case RetireOne(batch, items) =>
        RetirementRequires(o, e.before, batch, items, e.calls);
        RetirementKeepsRequired(o, e.before, batch, items, e.calls);
      case ReadScope =>
        ScopeRequires(o, daily, e.before, e.calls);
        ScopeKeepsRequired(o, daily, e.before, e.calls);
      case _ => ImportsRequire(o, e.before, e.calls);
    }
  }

  /**
   * A run that starts from a state whose required products are pending and not registered keeps it
   * so: in each of its rounds some bundle can be accepted.
   */
  lemma {:induction false} EveryRoundCanContinue(o: Oracle, daily: bool, log: seq<Entry>, s: State, n: nat, k: nat)
    requires History(o, daily, log, s, n) && k < |log| && Consistent(s)
    requires RequiredPending(s) && Unregistered(o, daily, s)
    ensures RequiredPending(log[k].before) && Unregistered(o, daily, log[k].before)
    ensures o.template.Some? ==>
              var t := AfterTemplate(log[k].before, o.template.value, daily);
              exists b :: BundleAccepted(b, PendingOf(t), t.required)
  {
    hide Fits, RightOp, Consistent, BundleAccepted;
    if k > 0 {
      EveryRoundCanContinue(o, daily, log, s, n, k - 1);
      EveryStateKeeps(o, daily, log, s, n, k - 1);
      EntryStaysUnregistered(o, daily, log[k - 1]);
    }
    if o.template.Some? {
      RegistrationBlocks(log[k].before, o.template.value, daily);
    }
  }
}
