/**
 * What the ledger's calls do, from the stored rows, the reply and the receipt alone: when each
 * succeeds, and every row that it leaves different.
 */
module LedgerLaws {
  import opened CampaignTypes
  import opened Ledger

  /** The steps that may change something in the shop. */
  predicate MayWrite(step: Step) {
    step == Discount || step == Signup || step == Repair
  }

  /** A reply that finishes the action: bound to it, terminal, with evidence, and not at a human gate. */
  predicate Answers(r: Receipt, a: Action, adopting: bool) {
    && r.action == a && r.terminal && r.evidence && !r.humanGate
    && (MayWrite(a.step) || adopting ==> r.request == a.payload)
    && (adopting ==> r.reconciled)
  }

  /** The transport is asked: nothing was stored yet, or only that a generation was interrupted. */
  predicate Asked(t: Tables, a: Action, canReconcile: bool) {
    a !in t.actions || (a.step == Generate && t.actions[a] == InterruptedRead && canReconcile)
  }

  predicate Finished(t: Tables, a: Action, reply: Option<Receipt>, canReconcile: bool) {
    Asked(t, a, canReconcile) && reply.Some? && Answers(reply.value, a, a in t.actions)
  }

  ghost predicate OnlyRow(t: Tables, u: Tables, a: Action) {
    && u.runs == t.runs && u.shops == t.shops
    && (forall b :: b != a ==> (b in u.actions <==> b in t.actions))
    && (forall b :: b != a && b in t.actions ==> u.actions[b] == t.actions[b])
  }

  /**
   * An action ends done exactly with the result it already had, or with a reply that it asked for
   * and that answers it. Otherwise its row says what is known: unknown for a new step that may
   * write, an interrupted read for any other new step.
   */
  lemma ActionEndsExactly(t: Tables, a: Action, reply: Option<Receipt>, canReconcile: bool)
    ensures var u := AfterOnce(t, a, reply, canReconcile);
            && a in u.actions
            && (forall r :: u.actions[a] == Done(r)
                            <==> (a in t.actions && t.actions[a] == Done(r))
                                 || (Finished(t, a, reply, canReconcile) && reply == Some(r)))
            && (u.actions[a] == Unknown
                <==> if a in t.actions then t.actions[a] == Unknown && !Finished(t, a, reply, canReconcile)
                     else MayWrite(a.step) && !Finished(t, a, reply, canReconcile))
  {
    assert Finished(t, a, reply, canReconcile)
      <==> Dispatches(t, a, canReconcile) && reply.Some? && Accepted(reply.value, a, a in t.actions);
  }

  /** No other row changes, and only an adopted reply is also stored as a recovery, where none was. */
  lemma ActionTouchesOnly(t: Tables, a: Action, reply: Option<Receipt>, canReconcile: bool)
    ensures var u := AfterOnce(t, a, reply, canReconcile);
            && OnlyRow(t, u, a)
            && u.recoveries == if a in t.actions && a !in t.recoveries && Finished(t, a, reply, canReconcile)
                               then t.recoveries[a := reply.value] else t.recoveries
  {
    assert Finished(t, a, reply, canReconcile)
      <==> Dispatches(t, a, canReconcile) && reply.Some? && Accepted(reply.value, a, a in t.actions);
    hide Finished, Dispatches, Accepted, InitialStatus;
  }

  /** An exact read-only receipt for an action that the ledger has in a run without an owner. */
  predicate Reconciles(t: Tables, a: Action, r: Receipt) {
    && a in t.actions && a.run in t.runs && t.runs[a.run] == None
    && r.action == a && r.request == a.payload && r.terminal && r.evidence && r.reconciled
  }

  /**
   * A recovery succeeds exactly with such a receipt, if either that very receipt was stored before
   * or none was and the action is not done. In the second case alone it changes something: it
   * finishes this action with this receipt and stores it.
   */
  lemma RecoveryEndsExactly(t: Tables, a: Action, r: Receipt)
    ensures var (u, ok) := RecoverAction(t, a, r);
            var first := Reconciles(t, a, r) && a !in t.recoveries && !t.actions[a].Done?;
            && (ok <==> first || (Reconciles(t, a, r) && a in t.recoveries && t.recoveries[a] == r))
            && OnlyRow(t, u, a) && (!first ==> u == t)
            && (first ==> a in u.actions && u.actions[a] == Done(r) && u.recoveries == t.recoveries[a := r])
  {
  }

  /** A retry succeeds exactly for an interrupted read of a run without an owner, and forgets only that row. */
  lemma RetryEndsExactly(t: Tables, a: Action)
    ensures var (u, ok) := RetryRead(t, a);
            && (ok <==> a in t.actions && t.actions[a] == InterruptedRead && !MayWrite(a.step)
                        && a.run in t.runs && t.runs[a.run] == None)
            && OnlyRow(t, u, a) && u.recoveries == t.recoveries
            && (a in u.actions <==> a in t.actions && !ok) && (a in u.actions ==> u.actions[a] == t.actions[a])
  {
  }

  ghost predicate OnlyLease(t: Tables, u: Tables, run: RunId) {
    && u.actions == t.actions && u.recoveries == t.recoveries && u.runs.Keys == t.runs.Keys
    && forall other :: other in t.runs && other != run ==> u.runs[other] == t.runs[other]
  }

  /**
   * A lock succeeds exactly on a free shop and a started run without an owner, and then both name
   * this owner; an unlock takes the run and its shops away from this owner and from nobody else.
   */
  lemma LeaseEndsExactly(t: Tables, run: RunId, shop: Shop, token: Token)
    ensures var (u, ok) := LockBoth(t, run, shop, token);
            && (ok <==> shop !in t.shops && run in t.runs && t.runs[run] == None)
            && OnlyLease(t, u, run) && (!ok ==> u == t)
            && (ok ==> u.shops == t.shops[shop := (run, token)] && u.runs[run] == Some(token))
    ensures var u := ReleaseShop(ReleaseRun(t, run, token), run, token);
            && OnlyLease(t, u, run)
            && (run in t.runs ==> u.runs[run] == if t.runs[run] == Some(token) then None else t.runs[run])
            && (forall s :: s in u.shops <==> s in t.shops && !(t.shops[s].0 == run && t.shops[s].1 == token))
            && (forall s :: s in u.shops ==> u.shops[s] == t.shops[s])
  {
  }
}
