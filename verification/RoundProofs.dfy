/**
 * What every step of the controller keeps: no product is lost, no success without evidence,
 * every round makes progress, and every signup is gated by the replies of its own round.
 */
module RoundProofs {
  import opened CampaignTypes
  import opened Policy
  import opened Rounds

  // ---------- coverage ----------

  /** The product is accounted for somewhere in the state. */
  predicate Accounted(s: State, item: Item) {
    item in s.success || item in s.exceptions || item in s.legacy || item in PendingOf(s)
  }

  /** No product of the initial scope has been lost. */
  ghost predicate Covered(s: State) {
    forall i :: i in s.initial ==> Accounted(s, i)
  }

  /** A readable import names its product and no other one. */
  predicate Named(item: Item, legacy: Legacy) {
    legacy.errors.Records? ==> ItemsOf(legacy.errors.list) == {item}
  }

  ghost predicate LegacyNamed(s: State) {
    forall i :: i in s.legacy ==> Named(i, s.legacy[i])
  }

  /** Nothing is lost, and every imported failure that can be read decides its own product. */
  ghost predicate Safe(s: State) {
    Covered(s) && LegacyNamed(s)
  }

  /** What every state keeps besides the coverage. */
  ghost predicate Consistent(s: State) {
    && s.enrolled <= s.success
    && (s.pending.None? ==> s.initial == {} && s.exceptions == map[] && s.legacy == map[])
    && (s.status.Complete? ==> s.pending == Some({}) && s.legacy == map[])
  }

  /** No product that was accounted for has been lost since. */
  ghost predicate Keeps(before: State, after: State) {
    && after.initial == before.initial
    && forall i :: Accounted(before, i) ==> Accounted(after, i)
  }

  lemma ValidImportIsNamed(item: Item, legacy: Legacy)
    requires ValidImport(item, legacy)
    ensures Named(item, legacy)
  {
    assert legacy.errors.list[0] in legacy.errors.list;
  }

  // ---------- repairs ----------

  /** Only repair bookkeeping has changed, and only these products may have left the exceptions. */
  ghost predicate Moved(before: State, after: State, items: set<Item>) {
    && after == before.(exceptions := after.exceptions, corrections := after.corrections, seen := after.seen)
    && before.exceptions.Keys <= after.exceptions.Keys + items
  }

  /** The repair attempts that the state remembers. */
  ghost function Attempts(s: State): iset<(Item, Signature)> {
    iset u: (Item, Signature) | u.1 in SeenOf(s, u.0)
  }

  ghost function AttemptsIn(repairs: map<Item, seq<Decision>>): iset<(Item, Signature)> {
    iset i | i in repairs :: (i, SignatureOf(repairs[i]))
  }

  /** Every repair that these errors can lead to. */
  ghost function AttemptsOf(errors: seq<Failure>): iset<(Item, Signature)> {
    AttemptsIn(RepairableOf(errors))
  }

  /** Every repair that a report of this transport can lead to. */
  ghost function Reported(o: Oracle): iset<(Item, Signature)> {
    iset n: nat, u | o.report(n).Some? && u in AttemptsOf(o.report(n).value) :: u
  }

  /** No attempt has been forgotten, and every new one is of a reported repair. */
  ghost predicate Grown(before: State, after: State, reported: iset<(Item, Signature)>) {
    Attempts(before) <= Attempts(after) <= Attempts(before) + reported
  }

  /** Exactly the products of next have gained the signature of their decisions. */
  ghost predicate SeenGrew(before: State, after: State, next: set<Item>, repairs: map<Item, seq<Decision>>) {
    forall i {:trigger SeenOf(after, i)} ::
      SeenOf(after, i) == if i in next && i in repairs then SeenOf(before, i) + {SignatureOf(repairs[i])}
                          else SeenOf(before, i)
  }

  lemma RowsOfPrefix(reply: RowsReply, n: nat)
    requires n <= |reply.rows|
    ensures VerifiedIn(reply, n) <= RowItems(reply.rows[..n]) <= RowItems(reply.rows)
  {
    assert forall r :: r in reply.rows[..n] ==> r in reply.rows;
  }

  lemma AfterRowsMoves(s: State, reply: RowsReply, n: nat, repairs: map<Item, seq<Decision>>)
    requires n <= |reply.rows| && RowItems(reply.rows) <= repairs.Keys
    ensures var t := AfterRows(s, reply, n, repairs);
            Moved(s, t, repairs.Keys)
            && t.exceptions.Keys == s.exceptions.Keys - VerifiedIn(reply, n)
                                   + (RowItems(reply.rows[..n]) - VerifiedIn(reply, n))
  {
    hide Entered, NewCorrections, NewSeen;
    RowsOfPrefix(reply, n);
  }

  lemma AfterRowsSeen(s: State, reply: RowsReply, n: nat, repairs: map<Item, seq<Decision>>)
    requires n <= |reply.rows| && RowItems(reply.rows) <= repairs.Keys
    ensures VerifiedIn(reply, n) <= repairs.Keys
    ensures SeenGrew(s, AfterRows(s, reply, n, repairs), VerifiedIn(reply, n), repairs)
  {
    hide HeldRows, NewCorrections;
    RowsOfPrefix(reply, n);
  }

  /** The products whose attempt one repair call records. */
  function RecordedBy(o: Oracle, repairs: map<Item, seq<Decision>>, n: nat): set<Item> {
    var reply := o.rows(n);
    if reply.None? || !TerminalScope(reply.value, repairs.Keys, false) then {}
    else VerifiedIn(reply.value, ReadRows(reply.value, |reply.value.rows|))
  }

  /** One repair call: its verified products leave the exceptions, all others of it are held. */
  lemma CallRepairFacts(o: Oracle, s: State, repairs: map<Item, seq<Decision>>, n: nat)
    ensures var p := CallRepair(o, s, repairs, n);
            && Moved(s, p.state, repairs.Keys) && p.next <= RecordedBy(o, repairs, n) <= repairs.Keys
            && p.calls == n + 1
            && (p.fault.Some? ==> p.next == {})
            && (p.fault.None? ==> p.state.exceptions.Keys == s.exceptions.Keys + repairs.Keys - p.next)
            && SeenGrew(s, p.state, RecordedBy(o, repairs, n), repairs)
  {
    hide AfterRows;
    var reply := o.rows(n);
    if reply.Some? && TerminalScope(reply.value, repairs.Keys, false) {
      var k := ReadRows(reply.value, |reply.value.rows|);
      AfterRowsMoves(s, reply.value, k, repairs);
      AfterRowsSeen(s, reply.value, k, repairs);
      assert reply.value.rows[..|reply.value.rows|] == reply.value.rows;
    }
  }

  /** Every product scheduled again records an attempt that was never made before. */
  lemma AttemptsAreUsed(before: State, after: State, next: set<Item>, done: set<Item>,
                        repairs: map<Item, seq<Decision>>)
    requires SeenGrew(before, after, done, repairs) && next <= done <= repairs.Keys
    requires forall i :: i in repairs ==> SignatureOf(repairs[i]) !in SeenOf(before, i)
    ensures Grown(before, after, AttemptsIn(repairs)) && (next != {} ==> Attempts(before) < Attempts(after))
  {
    forall u | u in Attempts(after) ensures u in Attempts(before) + AttemptsIn(repairs) {
      assert u.1 in SeenOf(after, u.0);
    }
    forall u | u in Attempts(before) ensures u in Attempts(after) {
      assert u.1 in SeenOf(after, u.0);
    }
    if next != {} {
      var i :| i in next;
      var u := (i, SignatureOf(repairs[i]));
      assert u !in Attempts(before) && u.1 in SeenOf(after, i);
    }
  }

  /** A recorded attempt is known again, in whatever order its decisions come. */
  lemma AttemptIsRemembered(o: Oracle, s: State, repairs: map<Item, seq<Decision>>, n: nat, item: Item,
                            again: seq<Decision>)
    requires item in CallRepair(o, s, repairs, n).next && item in repairs
    requires multiset(RepairsOf(again)) == multiset(RepairsOf(repairs[item]))
    ensures AlreadyAttempted(CallRepair(o, s, repairs, n).state, item, again)
  {
    hide CallRepair;
    CallRepairFacts(o, s, repairs, n);
    assert SignatureOf(again) == SignatureOf(repairs[item]);
  }

  function KeyOf(d: Decision): (Sku, RepairKind)
    requires d.repair.Some?
  {
    (d.sku, KindOf(d.repair.value))
  }

  /** The corrections hold the last decision for each SKU and kind of repair, and nothing else is touched. */
  lemma {:induction false} LastCorrectionCounts(prior: Corrections, decisions: seq<Decision>, key: (Sku, RepairKind),
                                                i: nat)
    requires i <= |decisions|
    requires i < |decisions| ==> decisions[i].repair.Some? && KeyOf(decisions[i]) == key
    requires forall j :: (if i == |decisions| then 0 else i + 1) <= j < |decisions| && decisions[j].repair.Some? ==>
                           KeyOf(decisions[j]) != key
    ensures var after := Corrected(prior, decisions);
            if i < |decisions| then key in after && after[key] == decisions[i]
            else (key in after <==> key in prior) && (key in prior ==> after[key] == prior[key])
  {
    if decisions != [] {
      var n := |decisions| - 1;
      if i != n {
        LastCorrectionCounts(prior, decisions[..n], key, if i == |decisions| then n else i);
      }
    }
  }

  /** What a repair of these products may do, and what it needs. */
  ghost predicate Repaired(s: State, p: Step, items: set<Item>, reported: iset<(Item, Signature)>) {
    && Moved(s, p.state, items) && p.next <= items
    && (p.fault.Some? ==> p.next == {})
    && (p.fault.None? ==> p.state.exceptions.Keys == s.exceptions.Keys + items - p.next)
    && Grown(s, p.state, reported)
    && (p.next != {} ==> Attempts(s) < Attempts(p.state))
  }

  /** The state before the repair call: unrepairable and repeated products are held. */
  function BeforeRepair(s: State, errors: seq<Failure>): State {
    Held(s.(exceptions := s.exceptions + ManualOf(errors)), AttemptedIn(s, RepairableOf(errors)), SameCorrection)
  }

  lemma BeforeRepairFacts(s: State, errors: seq<Failure>)
    ensures var t := BeforeRepair(s, errors);
            && t == s.(exceptions := t.exceptions)
            && t.exceptions.Keys == s.exceptions.Keys + (ItemsOf(errors) - (RepairableOf(errors).Keys
                                                                            - AttemptedIn(s, RepairableOf(errors))))
  {
  }

  lemma RepairedAfterHold(s: State, t: State, p: Step, untried: set<Item>, items: set<Item>,
                          reported: iset<(Item, Signature)>)
    requires t == s.(exceptions := t.exceptions) && untried <= items
    requires t.exceptions.Keys == s.exceptions.Keys + (items - untried)
    requires Repaired(t, p, untried, reported)
    ensures Repaired(s, p, items, reported)
  {
    SameSeen(s, t);
  }

  lemma CallRepairRepairs(o: Oracle, s: State, repairs: map<Item, seq<Decision>>, n: nat)
    requires forall i :: i in repairs ==> SignatureOf(repairs[i]) !in SeenOf(s, i)
    ensures Repaired(s, CallRepair(o, s, repairs, n), repairs.Keys, AttemptsIn(repairs))
  {
    var p := CallRepair(o, s, repairs, n);
    CallRepairFacts(o, s, repairs, n);
    AttemptsAreUsed(s, p.state, p.next, RecordedBy(o, repairs, n), repairs);
  }

  /** Every reported product is held, or a repair of it that was never tried before has been verified. */
  lemma RepairFailedFacts(o: Oracle, s: State, errors: seq<Failure>, n: nat)
    ensures Repaired(s, RepairFailed(o, s, errors, n), ItemsOf(errors), AttemptsOf(errors))
  {
    hide SignatureOf, SeenOf, CallRepair;
    var repairs := RepairableOf(errors);
    var attempted := AttemptedIn(s, repairs);
    var t, p := BeforeRepair(s, errors), RepairFailed(o, s, errors, n);
    BeforeRepairFacts(s, errors);
    if repairs.Keys <= attempted {
      assert p == Step(t, n, None, {}) && repairs.Keys - attempted == {};
      RepairedAfterHold(s, t, p, {}, ItemsOf(errors), AttemptsOf(errors));
    } else {
      assert p == CallRepair(o, t, repairs - attempted, n);
      UntriedAreNew(s, t, repairs);
      CallRepairRepairs(o, t, repairs - attempted, n);
      assert AttemptsIn(repairs - attempted) <= AttemptsOf(errors);
      RepairedAfterHold(s, t, p, (repairs - attempted).Keys, ItemsOf(errors), AttemptsOf(errors));
    }
  }

  lemma SameSeen(s: State, t: State)
    requires s.seen == t.seen
    ensures Attempts(s) == Attempts(t)
  {
    assert forall i :: SeenOf(s, i) == SeenOf(t, i);
  }

  lemma UntriedAreNew(s: State, t: State, repairs: map<Item, seq<Decision>>)
    requires t.seen == s.seen
    ensures forall i :: i in repairs - AttemptedIn(s, repairs) ==> SignatureOf(repairs[i]) !in SeenOf(t, i)
  {
    forall i | i in repairs - AttemptedIn(s, repairs) ensures SignatureOf(repairs[i]) !in SeenOf(t, i) {
      assert !AlreadyAttempted(s, i, repairs[i]);
    }
  }

  lemma ReportFacts(o: Oracle, s: State, batch: string, items: set<Item>, text: bool, n: nat)
    ensures Repaired(s, ReportAndRepair(o, s, batch, items, text, n), items, Reported(o))
  {
    hide RepairFailed, AttemptsOf;
    var errors := o.report(n);
    if errors.Some? && text && ReportFits(errors.value, batch, items) {
      RepairFailedFacts(o, s, errors.value, n + 1);
      assert AttemptsOf(errors.value) <= Reported(o);
    }
  }

  // ---------- the phases of a round ----------

  /** These products may have left the exceptions, and no success is taken back. */
  ghost predicate PhaseKeeps(s: State, t: State, items: set<Item>, reported: iset<(Item, Signature)>) {
    && t == s.(success := t.success, exceptions := t.exceptions, corrections := t.corrections, seen := t.seen,
               required := t.required)
    && s.success <= t.success && s.exceptions.Keys <= t.exceptions.Keys + items
    && Grown(s, t, reported)
  }

  ghost predicate Uses(s: State, t: State, next: set<Item>) {
    next != {} ==> Attempts(s) < Attempts(t)
  }

  /** Products of failed and partial rows that are removed are held or scheduled again. */
  ghost predicate DiscountKeeps(s: State, d: Discounts, items: set<Item>, reported: iset<(Item, Signature)>) {
    && PhaseKeeps(s, d.state, items, reported) && d.state.success == s.success
    && (d.fault.None? ==>
          && d.removed <= items && d.retries <= items && d.removed <= d.state.exceptions.Keys + d.retries
          && s.exceptions.Keys <= d.state.exceptions.Keys + d.retries
          && Uses(s, d.state, d.retries))
  }

  lemma RepairPartialFacts(o: Oracle, s: State, reply: RowsReply, n: nat)
    ensures var p, partial := RepairPartial(o, s, reply, n), ItemsWith(reply, PartialItem);
            && Moved(s, p.state, partial) && p.next <= partial
            && Grown(s, p.state, Reported(o)) && Uses(s, p.state, p.next)
            && (p.fault.None? ==> p.state.exceptions.Keys == s.exceptions.Keys + partial - p.next)
  {
    hide ReportAndRepair;
    var partial := ItemsWith(reply, PartialItem);
    var t := Held(s, partial, PartialImport);
    SameSeen(s, t);
    ReportFacts(o, t, reply.batch, partial, partial !! Numeric(reply), n);
  }

  lemma RepairRefusalsFacts(o: Oracle, s: State, reply: RowsReply, n: nat)
    ensures var p, failed := RepairRefusals(o, s, reply, n), ItemsWith(reply, FailedItem);
            && Moved(s, p.state, failed) && p.next <= failed
            && Grown(s, p.state, Reported(o)) && Uses(s, p.state, p.next)
            && (p.fault.None? ==> p.state.exceptions.Keys == s.exceptions.Keys + failed - p.next)
  {
    hide ReportAndRepair;
    var failed := ItemsWith(reply, FailedItem);
    ReportFacts(o, s, reply.batch, failed, failed !! Numeric(reply), n);
  }

  lemma OutcomesAreExclusive(reply: RowsReply, requested: set<Item>, allowPartial: bool)
    requires TerminalScope(reply, requested, allowPartial)
    ensures ItemsWith(reply, PartialItem) !! ItemsWith(reply, FailedItem)
    ensures ItemsWith(reply, Succeeded) !! ItemsWith(reply, FailedItem)
    ensures !allowPartial ==> requested == ItemsWith(reply, Succeeded) + ItemsWith(reply, FailedItem)
  {
  }

  /** A repair of some products, and nothing else, is a phase that stopped. */
  lemma MovedIsPhase(s: State, t: State, moved: set<Item>, items: set<Item>, reported: iset<(Item, Signature)>)
    requires Moved(s, t, moved) && moved <= items && Grown(s, t, reported)
    ensures PhaseKeeps(s, t, items, reported) && t.success == s.success
  {
  }

  /** Two repairs, of the partial and of the failed products. */
  ghost predicate TwoRepairs(s: State, m: State, t: State, partial: set<Item>, failed: set<Item>, first: set<Item>,
                             second: set<Item>, reported: iset<(Item, Signature)>) {
    && Moved(s, m, partial) && first <= partial && m.exceptions.Keys == s.exceptions.Keys + partial - first
    && Moved(m, t, failed) && second <= failed && t.exceptions.Keys == m.exceptions.Keys + failed - second
    && Grown(s, m, reported) && Grown(m, t, reported)
    && Uses(s, m, first) && Uses(m, t, second)
  }

  lemma TwoRepairsKeep(s: State, m: State, t: State, partial: set<Item>, failed: set<Item>, first: set<Item>,
                       second: set<Item>, reported: iset<(Item, Signature)>)
    requires TwoRepairs(s, m, t, partial, failed, first, second, reported) && partial !! failed
    ensures PhaseKeeps(s, t, partial + failed, reported) && t.success == s.success
    ensures first + second <= partial + failed <= t.exceptions.Keys + first + second
    ensures s.exceptions.Keys <= t.exceptions.Keys + first + second && Uses(s, t, first + second)
  {
  }

  lemma DiscountFacts(o: Oracle, s: State, items: set<Item>, n: nat)
    ensures DiscountKeeps(s, DiscountPhase(o, s, items, n), items, Reported(o))
  {
    hide RepairPartial, RepairRefusals, RemovedBy;
    var reply := o.rows(n);
    if reply.Some? && TerminalScope(reply.value, items, true) {
      var partial, failed := ItemsWith(reply.value, PartialItem), ItemsWith(reply.value, FailedItem);
      OutcomesAreExclusive(reply.value, items, true);
      RepairPartialFacts(o, s, reply.value, n + 1);
      var p := RepairPartial(o, s, reply.value, n + 1);
      MovedIsPhase(s, p.state, partial, items, Reported(o));
      if p.fault.None? {
        DiscountRefusals(o, s, reply.value, items, p);
      }
    }
  }

  /** The second half of the discount phase, once the partial products are settled. */
  lemma DiscountRefusals(o: Oracle, s: State, reply: RowsReply, items: set<Item>, p: Step)
    requires TerminalScope(reply, items, true) && p.fault.None?
    requires var partial := ItemsWith(reply, PartialItem);
             && Moved(s, p.state, partial) && p.next <= partial
             && Grown(s, p.state, Reported(o)) && Uses(s, p.state, p.next)
             && p.state.exceptions.Keys == s.exceptions.Keys + partial - p.next
    ensures var f := RepairRefusals(o, p.state, reply, p.calls);
            && PhaseKeeps(s, f.state, items, Reported(o)) && f.state.success == s.success
            && (f.fault.None? ==>
                  DiscountKeeps(s, Discounts(f.state.(required := f.next), f.calls, None, RemovedBy(reply), true,
                                             p.next + f.next), items, Reported(o)))
  {
    var partial, failed := ItemsWith(reply, PartialItem), ItemsWith(reply, FailedItem);
    OutcomesAreExclusive(reply, items, true);
    RepairRefusalsFacts(o, p.state, reply, p.calls);
    var f := RepairRefusals(o, p.state, reply, p.calls);
    if f.fault.None? {
      TwoRepairsKeep(s, p.state, f.state, partial, failed, p.next, f.next, Reported(o));
      SameSeen(f.state, f.state.(required := f.next));
    }
  }

  /** Every product of a signup ends in success, exceptions or the next round. */
  ghost predicate SignupKeeps(s: State, p: Step, signup: set<Item>, reported: iset<(Item, Signature)>) {
    && PhaseKeeps(s, p.state, signup, reported)
    && (p.fault.None? ==>
          && p.next <= signup && signup <= p.state.success + p.state.exceptions.Keys + p.next
          && s.exceptions.Keys <= p.state.exceptions.Keys + p.next && Uses(s, p.state, p.next))
  }

  /** The failed products of a signup after its successes were recorded. */
  lemma SignupSettles(s: State, t: State, p: Step, succeeded: set<Item>, failed: set<Item>, signup: set<Item>,
                      reported: iset<(Item, Signature)>)
    requires t == s.(success := s.success + succeeded) && signup == succeeded + failed
    requires Repaired(t, p, failed, reported)
    ensures SignupKeeps(s, p, signup, reported)
  {
    SameSeen(s, t);
  }

  lemma SignupFacts(o: Oracle, s: State, signup: set<Item>, n: nat)
    ensures SignupKeeps(s, SignupPhase(o, s, signup, n), signup, Reported(o))
  {
    hide ReportAndRepair;
    var reply := o.rows(n);
    if reply.Some? && TerminalScope(reply.value, signup, false) {
      var failed, t := ItemsWith(reply.value, FailedItem), s.(success := s.success + SignedUp(reply.value));
      OutcomesAreExclusive(reply.value, signup, false);
      ReportFacts(o, t, reply.value.batch, failed, failed !! Numeric(reply.value), n + 1);
      if failed == {} {
        SignupSettles(s, t, Step(t, n + 1, None, {}), SignedUp(reply.value), failed, signup, Reported(o));
      } else {
        SignupSettles(s, t, ReportAndRepair(o, t, reply.value.batch, failed, failed !! Numeric(reply.value), n + 1),
                      SignedUp(reply.value), failed, signup, Reported(o));
      }
    }
  }

  // ---------- one round ----------

  /** What a round keeps of the state it started from, and the progress it makes unless it stops. */
  ghost predicate Ends(s: State, t: State, stopped: bool, reported: iset<(Item, Signature)>) {
    && Keeps(s, t) && t.pending.Some? && t.legacy == s.legacy && t.status == s.status
    && (s.enrolled <= s.success ==> t.enrolled <= t.success)
    && PendingOf(t) <= PendingOf(s)
    && Grown(s, t, reported)
    && (stopped || PendingOf(t) < PendingOf(s) || Attempts(s) < Attempts(t))
  }

  ghost predicate RoundKeeps(s: State, r: Round, reported: iset<(Item, Signature)>) {
    Ends(s, r.state, r.fault.Some?, reported)
  }

  /** Where the products of a round are when it ends: the new pending set is what is tried again. */
  lemma RescheduledKeeps(s: State, t: State, next: set<Item>, reported: iset<(Item, Signature)>)
    requires PhaseKeeps(s, t, PendingOf(s), reported) && next <= PendingOf(s) && PendingOf(s) != {}
    requires s.exceptions.Keys <= t.exceptions.Keys + next && PendingOf(s) <= t.success + t.exceptions.Keys + next
    requires Uses(s, t, next)
    ensures Ends(s, Rescheduled(t, next), false, reported)
  {
    SameSeen(t, Rescheduled(t, next));
  }

  lemma StoppedKeeps(s: State, t: State, reported: iset<(Item, Signature)>)
    requires PhaseKeeps(s, t, PendingOf(s), reported) && s.pending.Some?
    ensures Ends(s, t, true, reported)
  {
  }

  /** How far a round has come: what is left to enrol, and what is tried again. */
  ghost predicate Underway(s: State, t: State, work: set<Item>, retries: set<Item>, reported: iset<(Item, Signature)>) {
    && PhaseKeeps(s, t, PendingOf(s), reported) && Uses(s, t, retries)
    && work + retries <= PendingOf(s) <= work + t.exceptions.Keys + retries
    && s.exceptions.Keys <= t.exceptions.Keys + retries
  }

  lemma SignupKeepsRound(s: State, t: State, p: Step, work: set<Item>, retries: set<Item>, signup: set<Item>,
                         reported: iset<(Item, Signature)>)
    requires Underway(s, t, work, retries, reported) && SignupKeeps(t, p, signup, reported)
    requires signup <= work <= signup + s.enrolled && s.enrolled <= s.success
    ensures PhaseKeeps(s, p.state, PendingOf(s), reported)
    ensures p.fault.None? ==>
              && Uses(s, p.state, retries + p.next) && retries + p.next <= PendingOf(s)
              && s.exceptions.Keys <= p.state.exceptions.Keys + (retries + p.next)
              && PendingOf(s) <= p.state.success + p.state.exceptions.Keys + (retries + p.next)
  {
  }

  lemma AllEnrolledAlready(s: State, t: State, work: set<Item>, retries: set<Item>, reported: iset<(Item, Signature)>)
    requires Underway(s, t, work, retries, reported) && work <= s.enrolled <= s.success
    ensures PendingOf(s) <= t.success + t.exceptions.Keys + retries
  {
  }

  lemma RoundEnds(s: State, r: Round, t: State, stopped: bool, reported: iset<(Item, Signature)>)
    requires Ends(s, t, stopped, reported) && r.state == t && (stopped ==> r.fault.Some?)
    ensures RoundKeeps(s, r, reported)
  {
  }

  lemma StoppedRound(s: State, r: Round, t: State, reported: iset<(Item, Signature)>)
    requires PhaseKeeps(s, t, PendingOf(s), reported) && s.pending.Some? && r.state == t && r.fault.Some?
    ensures RoundKeeps(s, r, reported)
  {
    StoppedKeeps(s, t, reported);
    RoundEnds(s, r, t, true, reported);
  }

  lemma RescheduledRound(s: State, r: Round, t: State, next: set<Item>, reported: iset<(Item, Signature)>)
    requires PhaseKeeps(s, t, PendingOf(s), reported) && next <= PendingOf(s) && PendingOf(s) != {}
    requires s.exceptions.Keys <= t.exceptions.Keys + next && PendingOf(s) <= t.success + t.exceptions.Keys + next
    requires Uses(s, t, next) && r.state == Rescheduled(t, next)
    ensures RoundKeeps(s, r, reported)
  {
    RescheduledKeeps(s, t, next, reported);
    RoundEnds(s, r, Rescheduled(t, next), false, reported);
  }

  lemma EnrolNowFacts(o: Oracle, s: State, r: Round, work: set<Item>, signup: set<Item>, retries: set<Item>, n: nat)
    requires s.pending.Some? && PendingOf(s) != {} && s.enrolled <= s.success
    requires Underway(s, r.state, work, retries, Reported(o)) && signup <= work <= signup + s.enrolled
    ensures RoundKeeps(s, EnrolNow(o, r, signup, retries, n), Reported(o))
  {
    hide SignupPhase;
    var t := r.state;
    var p, end := SignupPhase(o, t, signup, n), EnrolNow(o, r, signup, retries, n);
    SignupFacts(o, t, signup, n);
    SignupKeepsRound(s, t, p, work, retries, signup, Reported(o));
    if p.fault.Some? {
      StoppedRound(s, end, p.state, Reported(o));
    } else {
      RescheduledRound(s, end, p.state, retries + p.next, Reported(o));
    }
  }

  lemma NothingToEnrol(s: State, r: Round, t: State, work: set<Item>, retries: set<Item>,
                       reported: iset<(Item, Signature)>)
    requires PendingOf(s) != {} && work <= s.enrolled <= s.success
    requires Underway(s, t, work, retries, reported) && r.state == Rescheduled(t, retries)
    ensures RoundKeeps(s, r, reported)
  {
    AllEnrolledAlready(s, t, work, retries, reported);
    RescheduledRound(s, r, t, retries, reported);
  }

  lemma EnrolOthersFacts(o: Oracle, s: State, r: Round, work: set<Item>, signup: set<Item>, retries: set<Item>)
    requires s.pending.Some? && PendingOf(s) != {} && s.enrolled <= s.success
    requires r.fault.None? && Underway(s, r.state, work, retries, Reported(o)) && signup <= work <= signup + s.enrolled
    ensures RoundKeeps(s, EnrolOthers(o, r, work, signup, retries), Reported(o))
  {
    hide EnrolNow, Regenerated;
    var end := EnrolOthers(o, r, work, signup, retries);
    if signup == {} {
      NothingToEnrol(s, end, r.state, work, retries, Reported(o));
    } else if signup != work && !Regenerated(o, r.calls, signup) {
      StoppedRound(s, end, r.state, Reported(o));
    } else {
      EnrolNowFacts(o, s, r, work, signup, retries, if signup == work then r.calls else r.calls + 1);
    }
  }

  lemma EnrolFacts(o: Oracle, s: State, r: Round, work: set<Item>, retries: set<Item>)
    requires s.pending.Some? && PendingOf(s) != {} && s.enrolled <= s.success
    requires r.fault.None? && Underway(s, r.state, work, retries, Reported(o))
    ensures RoundKeeps(s, Enrol(o, r, work, retries), Reported(o))
  {
    hide EnrolOthers, WindowCorrect;
    var n := r.calls;
    if !WindowCorrect(o, n, work) {
      StoppedRound(s, Enrol(o, r, work, retries), r.state, Reported(o));
    } else {
      EnrolOthersFacts(o, s, r.(calls := n + 1, window := Some(n)), work, work - r.state.enrolled, retries);
    }
  }

  lemma DiscountsKeep(o: Oracle, s: State, items: set<Item>, n: nat)
    requires items <= PendingOf(s)
    ensures var d := DiscountsOf(o, s, items, n);
            && PhaseKeeps(s, d.state, PendingOf(s), Reported(o))
            && (d.fault.None? ==> Underway(s, d.state, PendingOf(s) - d.removed, d.retries, Reported(o)))
  {
    hide DiscountPhase;
    if items != {} {
      DiscountFacts(o, s, items, n);
    }
  }

  lemma AfterDiscountsFacts(o: Oracle, s: State, r: Round, d: Discounts)
    requires s.pending.Some? && PendingOf(s) != {} && s.enrolled <= s.success
    requires r.fault.None? && r.state == d.state && PhaseKeeps(s, d.state, PendingOf(s), Reported(o))
    requires d.fault.None? ==> Underway(s, d.state, PendingOf(s) - d.removed, d.retries, Reported(o))
    ensures RoundKeeps(s, AfterDiscounts(o, s, r, d), Reported(o))
  {
    hide Enrol, Regenerated;
    var work, end := PendingOf(s) - d.removed, AfterDiscounts(o, s, r, d);
    if d.fault.Some? {
      StoppedRound(s, end, d.state, Reported(o));
    } else if work == {} {
      RescheduledRound(s, end, d.state, d.retries, Reported(o));
    } else if d.refused && !Regenerated(o, r.calls, work) {
      StoppedRound(s, end, d.state, Reported(o));
    } else if d.refused {
      EnrolFacts(o, s, r.(calls := r.calls + 1), work, d.retries);
    } else {
      EnrolFacts(o, s, r, work, d.retries);
    }
  }

  lemma SubmitFacts(o: Oracle, s: State, items: set<Item>, r: Round)
    requires s.pending.Some? && PendingOf(s) != {} && s.enrolled <= s.success
    requires items <= PendingOf(s) && r.fault.None?
    ensures RoundKeeps(s, Submit(o, s, items, r), Reported(o))
  {
    hide DiscountPhase, AfterDiscounts;
    var d := DiscountsOf(o, s, items, r.calls);
    DiscountsKeep(o, s, items, r.calls);
    var after := r.(state := d.state, calls := d.calls, discount := if items == {} then None else Some(r.calls));
    AfterDiscountsFacts(o, s, after, d);
  }

  lemma AfterTemplateKeeps(s: State, registered: set<Item>, daily: bool)
    requires s.pending.Some?
    ensures var t := AfterTemplate(s, registered, daily);
            && Keeps(s, t) && (s.enrolled <= s.success ==> t.enrolled <= t.success) && PendingOf(t) <= PendingOf(s)
            && t.pending.Some? && t.seen == s.seen && t.legacy == s.legacy && t.status == s.status
  {
  }

  lemma AfterIssuesKeeps(s: State, issues: seq<(Item, Decision)>)
    requires s.pending.Some? && issues != [] && IssueItems(issues) <= PendingOf(s)
    ensures var t := AfterIssues(s, issues);
            && Keeps(s, t) && t.enrolled == s.enrolled && t.success == s.success && PendingOf(t) < PendingOf(s)
            && t.pending.Some? && t.seen == s.seen && t.legacy == s.legacy && t.status == s.status
  {
    assert issues[0].0 in IssueItems(issues);
  }

  /** A round that starts from a later state of the same round. */
  lemma KeepsFrom(s: State, t: State, r: Round, reported: iset<(Item, Signature)>)
    requires Keeps(s, t) && t.legacy == s.legacy && t.status == s.status && t.seen == s.seen
    requires PendingOf(t) <= PendingOf(s) && t.enrolled <= t.success && RoundKeeps(t, r, reported)
    ensures RoundKeeps(s, r, reported)
  {
    SameSeen(s, t);
  }

  lemma QuietKeeps(s: State, t: State, n: nat, fault: Option<Fault>, reported: iset<(Item, Signature)>)
    requires Keeps(s, t) && t.pending.Some? && t.legacy == s.legacy && t.status == s.status && t.seen == s.seen
    requires PendingOf(t) <= PendingOf(s) && t.enrolled <= t.success && (fault.Some? || PendingOf(t) < PendingOf(s))
    ensures RoundKeeps(s, Quiet(t, n, fault), reported)
  {
    SameSeen(s, t);
  }

  /**
   * One round of the loop: unless it stops, some product leaves the work or an attempt that
   * was never made is used up; stopped or not, no product is lost.
   */
  lemma TurnFacts(o: Oracle, daily: bool, s: State, n: nat)
    requires s.pending.Some? && PendingOf(s) != {} && s.enrolled <= s.success
    ensures RoundKeeps(s, Turn(o, daily, s, n), Reported(o))
  {
    hide Submit;
    if o.template.None? || !(o.template.value <= s.initial) {
      QuietKeeps(s, s, n, Some(TemplateRefused), Reported(o));
    } else {
      var t, b := AfterTemplate(s, o.template.value, daily), o.bundle(n);
      AfterTemplateKeeps(s, o.template.value, daily);
      if PendingOf(t) == {} {
        QuietKeeps(s, t, n, None, Reported(o));
      } else if b.None? || !BundleFits(b.value, PendingOf(t), t.required) {
        QuietKeeps(s, t, n + 1, Some(BundleRefused(n, PendingOf(t), t.required)), Reported(o));
      } else if b.value.issues != [] {
        AfterIssuesKeeps(t, b.value.issues);
        QuietKeeps(s, AfterIssues(t, b.value.issues), n + 1, None, Reported(o));
      } else {
        var r := Quiet(t, n + 1, None).(bundle := Some(n));
        SubmitFacts(o, t, SetOf(b.value.discountItems), r);
        KeepsFrom(s, t, Submit(o, t, SetOf(b.value.discountItems), r), Reported(o));
      }
    }
  }

  // ---------- finitely many repairs ----------

  /** Every repair that a report of this transport can lead to lies in the universe. */
  ghost predicate Bounded(o: Oracle, universe: set<(Item, Signature)>) {
    forall u :: u in Reported(o) ==> u in universe
  }

  /** The repair attempts of the universe that have not been made. */
  ghost function Unused(universe: set<(Item, Signature)>, s: State): set<(Item, Signature)> {
    set u | u in universe && u !in Attempts(s)
  }

  /** With finitely many repairs to report, a round shrinks the work or uses up one of them. */
  lemma RoundSpends(o: Oracle, s: State, r: Round, universe: set<(Item, Signature)>)
    requires Bounded(o, universe) && RoundKeeps(s, r, Reported(o))
    ensures Unused(universe, r.state) <= Unused(universe, s)
    ensures r.fault.Some? || PendingOf(r.state) < PendingOf(s) || Unused(universe, r.state) < Unused(universe, s)
  {
    hide Attempts, Reported;
    if Attempts(s) < Attempts(r.state) {
      var u :| u in Attempts(r.state) && u !in Attempts(s);
      assert u in Reported(o) && u in Unused(universe, s) && u !in Unused(universe, r.state);
    }
  }
}
