/**
 * The write-ahead action ledger: leases, the insert-before-call protocol, read-only
 * recovery and read retry. Every autocommitted statement and every transaction is one
 * function on the tables; the class runs them in order, and the world below interleaves
 * them between any number of processes that may fail or crash between any two.
 */
module Ledger {
  import opened CampaignTypes

  type RunId = string
  type Shop = string
  type Payload = string
  /** A fresh random owner identity. */
  type Token = nat

  datatype Step = Scope | Template | Generate | Discount | VerifyWindow | Signup | Report | Repair

  /** Steps that may write to the shop. */
  predicate IsWrite(step: Step) { step.Discount? || step.Signup? || step.Repair? }

  /** The action identity: the fingerprint of run, step and payload is injective. */
  datatype Action = Action(run: RunId, step: Step, payload: Payload)

  datatype Receipt = Receipt(action: Action, request: Payload, terminal: bool, evidence: bool,
                             humanGate: bool, reconciled: bool, body: string)

  datatype Status = Unknown | InterruptedRead | Done(result: Receipt)

  datatype Tables = Tables(runs: map<RunId, Option<Token>>, shops: map<Shop, (RunId, Token)>,
                           actions: map<Action, Status>, recoveries: map<Action, Receipt>)

  // ---------- statements and transactions ----------

  function StartRun(t: Tables, run: RunId): Tables {
    if run in t.runs then t else t.(runs := t.runs[run := None])
  }

  /** Takes the shop row and the run's owner column together, or neither. */
  function LockBoth(t: Tables, run: RunId, shop: Shop, token: Token): (r: (Tables, bool))
    ensures !r.1 ==> r.0 == t
  {
    if shop in t.shops || run !in t.runs || t.runs[run].Some? then (t, false)
    else (t.(shops := t.shops[shop := (run, token)], runs := t.runs[run := Some(token)]), true)
  }

  function ReleaseRun(t: Tables, run: RunId, token: Token): Tables {
    if run in t.runs && t.runs[run] == Some(token) then t.(runs := t.runs[run := None]) else t
  }

  function ReleaseShop(t: Tables, run: RunId, token: Token): Tables {
    t.(shops := map s | s in t.shops && t.shops[s] != (run, token) :: t.shops[s])
  }

  /** The row that is committed before the transport is called. */
  function InitialStatus(step: Step): Status {
    if IsWrite(step) then Unknown else InterruptedRead
  }

  function InsertRow(t: Tables, a: Action): Tables {
    t.(actions := t.actions[a := InitialStatus(a.step)])
  }

  function RecordRecovery(t: Tables, a: Action, r: Receipt): Tables {
    if a in t.recoveries then t else t.(recoveries := t.recoveries[a := r])
  }

  function FinishRow(t: Tables, a: Action, r: Receipt): Tables {
    if a in t.actions then t.(actions := t.actions[a := Done(r)]) else t
  }

  /** The checks on a transport reply. */
  predicate Accepted(r: Receipt, a: Action, reconciling: bool) {
    && !r.humanGate && r.terminal && r.evidence && r.action == a
    && (IsWrite(a.step) ==> r.request == a.payload)
    && (reconciling ==> r.reconciled && r.request == a.payload)
  }

  /** Accepting an exact read-only reconciliation; the boolean is the call's success. */
  function RecoverAction(t: Tables, a: Action, r: Receipt): (Tables, bool) {
    if a !in t.actions || a.run !in t.runs || t.runs[a.run].Some? then (t, false)
    else if r.action != a || r.request != a.payload || !r.terminal || !r.evidence || !r.reconciled then (t, false)
    else if a in t.recoveries then (t, t.recoveries[a] == r)
    else if t.actions[a].Done? then (t, false)
    else (FinishRow(RecordRecovery(t, a, r), a, r), true)
  }

  /** Forgetting an interrupted read of an idle run. */
  function RetryRead(t: Tables, a: Action): (Tables, bool) {
    if a !in t.actions || a.run !in t.runs || IsWrite(a.step) || t.actions[a] != InterruptedRead || t.runs[a.run].Some?
    then (t, false)
    else (t.(actions := t.actions - {a}), true)
  }

  /** Neither call touches any action of a run that has an owner. */
  lemma OwnedRunsAreUntouched(t: Tables, a: Action, r: Receipt, other: Action)
    requires other.run in t.runs && t.runs[other.run].Some?
    ensures var u := RecoverAction(t, a, r).0;
            (other in u.actions <==> other in t.actions)
            && (other in t.actions ==> u.actions[other] == t.actions[other])
    ensures var u := RetryRead(t, a).0;
            (other in u.actions <==> other in t.actions)
            && (other in t.actions ==> u.actions[other] == t.actions[other])
  {
  }

  /**
   * A successful recovery leaves the action done exactly when no recovery receipt had been
   * stored before, or it was done already: a receipt stored without its status update, which
   * an interrupted adoption of a generation leaves behind, makes the recovery a silent no-op.
   */
  lemma RecoveryCompletes(t: Tables, a: Action, r: Receipt)
    requires RecoverAction(t, a, r).1
    ensures var u := RecoverAction(t, a, r).0;
            a in u.actions && (u.actions[a].Done? <==> a !in t.recoveries || t.actions[a].Done?)
    ensures a in RecoverAction(t, a, r).0.recoveries && RecoverAction(t, a, r).0.recoveries[a] == r
  {
  }

  // ---------- the store and one action ----------

  /** Any transport: what the n-th call returns; None is an exception or a malformed reply. */
  class Transport {
    const script: nat -> Option<Receipt>
    const canReconcile: bool
    var calls: nat
    var executed: seq<Action>

    constructor (script: nat -> Option<Receipt>, canReconcile: bool)
      ensures this.script == script && this.canReconcile == canReconcile && calls == 0 && executed == []
    {
      this.script, this.canReconcile, calls, executed := script, canReconcile, 0, [];
    }

    method Execute(a: Action) returns (reply: Option<Receipt>)
      modifies this
      ensures reply == script(old(calls)) && calls == old(calls) + 1 && executed == old(executed) + [a]
    {
      reply, calls, executed := script(calls), calls + 1, executed + [a];
    }

    method ReconcileGeneration(a: Action) returns (reply: Option<Receipt>)
      modifies this
      ensures reply == script(old(calls)) && calls == old(calls) + 1 && executed == old(executed)
    {
      reply, calls := script(calls), calls + 1;
    }
  }

  /** Whether an action goes to the transport: a new one, or an interrupted local generation. */
  predicate Dispatches(t: Tables, a: Action, canReconcile: bool) {
    a !in t.actions || (a.step.Generate? && t.actions[a].InterruptedRead? && canReconcile)
  }

  /** The tables after one undisturbed action, given the transport's reply. */
  function AfterOnce(t: Tables, a: Action, reply: Option<Receipt>, canReconcile: bool): Tables {
    if !Dispatches(t, a, canReconcile) then t
    else
      var open := if a in t.actions then t else InsertRow(t, a);
      if reply.None? || !Accepted(reply.value, a, a in t.actions) then open
      else FinishRow(if a in t.actions then RecordRecovery(open, a, reply.value) else open, a, reply.value)
  }

  class Store {
    var runs: map<RunId, Option<Token>>
    var shops: map<Shop, (RunId, Token)>
    var actions: map<Action, Status>
    var recoveries: map<Action, Receipt>

    function Snapshot(): Tables
      reads this
    {
      Tables(runs, shops, actions, recoveries)
    }

    constructor ()
      ensures Snapshot() == Tables(map[], map[], map[], map[])
    {
      runs, shops, actions, recoveries := map[], map[], map[], map[];
    }

    method Start(run: RunId)
      modifies this
      ensures Snapshot() == StartRun(old(Snapshot()), run)
    {
      if run !in runs {
        runs := runs[run := None];
      }
    }

    method Lock(run: RunId, shop: Shop, token: Token) returns (ok: bool)
      modifies this
      ensures (Snapshot(), ok) == LockBoth(old(Snapshot()), run, shop, token)
    {
      ok := shop !in shops && run in runs && runs[run].None?;
      if ok {
        shops, runs := shops[shop := (run, token)], runs[run := Some(token)];
      }
    }

    /** Two separate statements: a crash may fall between them. */
    method Unlock(run: RunId, token: Token)
      modifies this
      ensures Snapshot() == ReleaseShop(ReleaseRun(old(Snapshot()), run, token), run, token)
    {
      if run in runs && runs[run] == Some(token) {
        runs := runs[run := None];
      }
      shops := map s | s in shops && shops[s] != (run, token) :: shops[s];
    }

    method Recover(a: Action, r: Receipt) returns (ok: bool)
      modifies this
      ensures (Snapshot(), ok) == RecoverAction(old(Snapshot()), a, r)
    {
      if a !in actions || a.run !in runs || runs[a.run].Some? {
        return false;
      }
      if r.action != a || r.request != a.payload || !r.terminal || !r.evidence || !r.reconciled {
        return false;
      }
      if a in recoveries {
        return recoveries[a] == r;
      }
      if actions[a].Done? {
        return false;
      }
      recoveries, actions := recoveries[a := r], actions[a := Done(r)];
      ok := true;
    }

    method AllowReadRetry(a: Action) returns (ok: bool)
      modifies this
      ensures (Snapshot(), ok) == RetryRead(old(Snapshot()), a)
    {
      ok := a in actions && a.run in runs && !IsWrite(a.step) && actions[a] == InterruptedRead && runs[a.run].None?;
      if ok {
        actions := actions - {a};
      }
    }

    /** One durable action: a finished one is answered from the ledger without a call. */
    method Once(a: Action, transport: Transport) returns (result: Option<Receipt>)
      modifies this, transport
      ensures Snapshot() ==
              AfterOnce(old(Snapshot()), a, transport.script(old(transport.calls)), transport.canReconcile)
      ensures result.Some? <==> a in actions && actions[a].Done?
      ensures result.Some? ==> actions[a] == Done(result.value)
      ensures a in old(actions) && old(actions)[a].Done? ==> result == Some(old(actions)[a].result)
      ensures transport.executed == old(transport.executed) + if a in old(actions) then [] else [a]
      ensures old(Dispatches(Snapshot(), a, transport.canReconcile)) <==> transport.calls == old(transport.calls) + 1
    {
      var cached := a in actions;
      if cached {
        if actions[a].Done? {
          return Some(actions[a].result);
        }
        if !(a.step.Generate? && actions[a].InterruptedRead? && transport.canReconcile) {
          return None;
        }
      } else {
        actions := actions[a := InitialStatus(a.step)];
      }
      var reply: Option<Receipt>;
      if cached {
        reply := transport.ReconcileGeneration(a);
      } else {
        reply := transport.Execute(a);
      }
      if reply.None? || !Accepted(reply.value, a, cached) {
        return None;
      }
      if cached && a !in recoveries {
        recoveries := recoveries[a := reply.value];
      }
      actions := actions[a := Done(reply.value)];
      result := reply;
    }
  }

  // ---------- all interleavings ----------

  /** Where a process stands between two statements of its run. */
  datatype Pc =
    | Idle
    | Selected(a: Action)
    | Opened(a: Action, reconciling: bool)
    | Replied(a: Action, reconciling: bool, reply: Receipt)
    | Recorded(a: Action, reply: Receipt)
    | Unlocking

  datatype Proc = Proc(run: RunId, shop: Shop, token: Token, pc: Pc)

  type Pid = nat

  /** The tables, the live processes and every execute call the transport has seen. */
  datatype World = World(tables: Tables, procs: map<Pid, Proc>, executed: seq<Action>, nextToken: Token)

  datatype Move =
    | DoStart(run: RunId)
    | DoLock(pid: Pid, run: RunId, shop: Shop)
    | DoSelect(pid: Pid, a: Action, canReconcile: bool)
    | DoInsert(pid: Pid)
    | DoCall(pid: Pid, reply: Option<Receipt>)
    | DoRecord(pid: Pid)
    | DoFinish(pid: Pid)
    | DoAbort(pid: Pid)
    | DoReleaseRun(pid: Pid)
    | DoReleaseShop(pid: Pid)
    | DoCrash(pid: Pid)
    | DoRecover(a: Action, receipt: Receipt)
    | DoRetry(a: Action)
    | DoClearLease(shop: Shop)

  /** No live process holds the lease that the shop row names. */
  predicate LeaseIsDead(w: World, shop: Shop) {
    shop in w.tables.shops && forall i :: i in w.procs ==> w.procs[i].token != w.tables.shops[shop].1
  }

  /** By hand, for a process that died: its lease is released as its own unlock would have done. */
  function ClearLease(w: World, shop: Shop): World
    requires LeaseIsDead(w, shop)
  {
    var (run, token) := w.tables.shops[shop];
    w.(tables := ReleaseShop(ReleaseRun(w.tables, run, token), run, token))
  }

  function At(w: World, pid: Pid, pc: Pc): World
    requires pid in w.procs
  {
    w.(procs := w.procs[pid := w.procs[pid].(pc := pc)])
  }

  /** One statement of one process, one crash, or one operator transaction. */
  function Next(w: World, move: Move): World {
    match move
    case DoStart(run) => w.(tables := StartRun(w.tables, run))
    case DoLock(pid, run, shop) =>
      var (t, ok) := LockBoth(w.tables, run, shop, w.nextToken);
      if pid in w.procs || !ok then w
      else World(t, w.procs[pid := Proc(run, shop, w.nextToken, Idle)], w.executed, w.nextToken + 1)
    case DoRecover(a, receipt) => w.(tables := RecoverAction(w.tables, a, receipt).0)
    case DoRetry(a) => w.(tables := RetryRead(w.tables, a).0)
    case DoClearLease(shop) => if LeaseIsDead(w, shop) then ClearLease(w, shop) else w
    case _ => if move.pid in w.procs then ProcMove(w, move, w.procs[move.pid]) else w
  }

  function ProcMove(w: World, move: Move, p: Proc): World
    requires !move.DoStart? && !move.DoLock? && !move.DoRecover? && !move.DoRetry? && !move.DoClearLease?
    requires move.pid in w.procs && w.procs[move.pid] == p
  {
    match move
    case DoSelect(pid, a, canReconcile) =>
      if p.pc != Idle || a.run != p.run || !Dispatches(w.tables, a, canReconcile) then w
      else At(w, pid, if a in w.tables.actions then Opened(a, true) else Selected(a))
    case DoInsert(pid) =>
      if !p.pc.Selected? then w
      else if p.pc.a in w.tables.actions then At(w, pid, Idle)
      else At(w.(tables := InsertRow(w.tables, p.pc.a)), pid, Opened(p.pc.a, false))
    case DoCall(pid, reply) =>
      if !p.pc.Opened? then w
      else
        var called := if p.pc.reconciling then w else w.(executed := w.executed + [p.pc.a]);
        At(called, pid, if reply.Some? && Accepted(reply.value, p.pc.a, p.pc.reconciling)
                        then Replied(p.pc.a, p.pc.reconciling, reply.value) else Idle)
    case DoRecord(pid) =>
      if !p.pc.Replied? || !p.pc.reconciling then w
      else At(w.(tables := RecordRecovery(w.tables, p.pc.a, p.pc.reply)), pid, Recorded(p.pc.a, p.pc.reply))
    case DoFinish(pid) =>
      if p.pc.Recorded? || (p.pc.Replied? && !p.pc.reconciling) then
        At(w.(tables := FinishRow(w.tables, p.pc.a, p.pc.reply)), pid, Idle)
      else w
    case DoAbort(pid) => if p.pc.Unlocking? then w else At(w, pid, Idle)
    case DoReleaseRun(pid) =>
      if p.pc != Idle then w else At(w.(tables := ReleaseRun(w.tables, p.run, p.token)), pid, Unlocking)
    case DoReleaseShop(pid) =>
      if !p.pc.Unlocking? then w
      else w.(tables := ReleaseShop(w.tables, p.run, p.token), procs := w.procs - {pid})
    case DoCrash(pid) => w.(procs := w.procs - {pid})
  }

  /** Every owner column has its shop row. */
  ghost predicate OwnersHaveShops(t: Tables, nextToken: Token) {
    && (forall run :: run in t.runs && t.runs[run].Some? ==>
          t.runs[run].value < nextToken && HasShop(t, run, t.runs[run].value))
    && (forall s :: s in t.shops ==> t.shops[s].1 < nextToken)
  }

  ghost predicate HasShop(t: Tables, run: RunId, token: Token) {
    exists s :: s in t.shops && t.shops[s] == (run, token)
  }

  /** A live process holds its shop row and, until it releases it, the owner column. */
  predicate HoldsLease(t: Tables, p: Proc) {
    && p.shop in t.shops && t.shops[p.shop] == (p.run, p.token) && p.run in t.runs
    && (p.pc.Unlocking? <==> t.runs[p.run] != Some(p.token))
  }

  ghost predicate LeasesHold(w: World) {
    && OwnersHaveShops(w.tables, w.nextToken)
    && (forall i :: i in w.procs ==> HoldsLease(w.tables, w.procs[i]))
    && (forall i, j :: i in w.procs && j in w.procs && i != j ==> w.procs[i].token != w.procs[j].token)
  }

  /** The row that a process relies on is as its last statement left it. */
  predicate RowStands(w: World, p: Proc) {
    match p.pc
    case Idle => true
    case Unlocking => true
    case Selected(a) => a.run == p.run && a !in w.tables.actions
    case Opened(a, reconciling) =>
      && a.run == p.run && a in w.tables.actions && !w.tables.actions[a].Done?
      && (IsWrite(a.step) ==> !reconciling && a !in w.executed)
    case Replied(a, reconciling, _) => a.run == p.run && a in w.tables.actions && !w.tables.actions[a].Done?
    case Recorded(a, _) => a.run == p.run && a in w.tables.actions && !w.tables.actions[a].Done?
  }

  /** Write rows precede their call, are never deleted and never marked as interrupted reads. */
  ghost predicate WritesOnce(w: World) {
    && (forall a :: a in w.tables.actions && IsWrite(a.step) ==> !w.tables.actions[a].InterruptedRead?)
    && (forall a :: a in w.executed && IsWrite(a.step) ==> a in w.tables.actions)
    && (forall i, j :: 0 <= i < j < |w.executed| && w.executed[i] == w.executed[j] ==> !IsWrite(w.executed[i].step))
  }

  ghost predicate Inv(w: World) {
    LeasesHold(w) && WritesOnce(w) && forall i :: i in w.procs ==> RowStands(w, w.procs[i])
  }

  /** No two live processes share a run or a shop, even while one is unlocking. */
  lemma LeasesExclusive(w: World, i: Pid, j: Pid)
    requires LeasesHold(w) && i in w.procs && j in w.procs && i != j
    ensures w.procs[i].shop != w.procs[j].shop
    ensures !w.procs[i].pc.Unlocking? && !w.procs[j].pc.Unlocking? ==> w.procs[i].run != w.procs[j].run
  {
  }

  lemma LockKeepsInv(w: World, pid: Pid, run: RunId, shop: Shop)
    requires Inv(w)
    ensures Inv(Next(w, DoLock(pid, run, shop)))
  {
    var u := Next(w, DoLock(pid, run, shop));
    if u != w {
      forall i | i in w.procs ensures HoldsLease(u.tables, w.procs[i]) && RowStands(u, w.procs[i]) {
        assert HoldsLease(w.tables, w.procs[i]) && RowStands(w, w.procs[i]);
      }
      forall r | r in u.tables.runs && u.tables.runs[r].Some? ensures HasShop(u.tables, r, u.tables.runs[r].value) {
        if r == run {
          assert u.tables.shops[shop] == (run, w.nextToken);
        } else {
          var s :| s in w.tables.shops && w.tables.shops[s] == (r, w.tables.runs[r].value);
          assert u.tables.shops[s] == w.tables.shops[s];
        }
      }
    }
  }

  /** A new run appears without an owner. */
  lemma StartKeepsInv(w: World, run: RunId)
    requires Inv(w)
    ensures Inv(Next(w, DoStart(run)))
  {
  }

  lemma OperatorKeepsRow(w: World, move: Move, i: Pid)
    requires Inv(w) && (move.DoRecover? || move.DoRetry?) && i in w.procs
    ensures RowStands(Next(w, move), w.procs[i])
  {
    assert HoldsLease(w.tables, w.procs[i]) && RowStands(w, w.procs[i]);
  }

  lemma OperatorKeepsLeases(w: World, move: Move)
    requires LeasesHold(w) && (move.DoRecover? || move.DoRetry?)
    ensures LeasesHold(Next(w, move))
  {
    var u := Next(w, move);
    assert u.tables.runs == w.tables.runs && u.tables.shops == w.tables.shops && u.procs == w.procs;
    SameLeaseTables(w.tables, u.tables, w.nextToken);
    forall i | i in w.procs ensures HoldsLease(u.tables, w.procs[i]) {
      assert HoldsLease(w.tables, w.procs[i]);
    }
  }

  lemma OperatorKeepsWrites(w: World, move: Move)
    requires WritesOnce(w) && (move.DoRecover? || move.DoRetry?)
    ensures WritesOnce(Next(w, move))
  {
  }

  /** Operator transactions leave every live process's row and lease alone. */
  lemma OperatorKeepsInv(w: World, move: Move)
    requires Inv(w) && (move.DoRecover? || move.DoRetry?)
    ensures Inv(Next(w, move))
  {
    OperatorKeepsLeases(w, move);
    OperatorKeepsWrites(w, move);
    forall i | i in w.procs ensures RowStands(Next(w, move), w.procs[i]) {
      OperatorKeepsRow(w, move, i);
    }
    hide LeasesHold, WritesOnce, RowStands;
  }

  lemma CrashKeepsInv(w: World, pid: Pid)
    requires Inv(w)
    ensures Inv(Next(w, DoCrash(pid)))
  {
  }

  /** A dead lease is cleared without touching a live one. */
  lemma ClearLeaseKeepsInv(w: World, shop: Shop)
    requires Inv(w) && LeaseIsDead(w, shop)
    ensures Inv(ClearLease(w, shop))
  {
    var u := ClearLease(w, shop);
    forall i | i in u.procs ensures HoldsLease(u.tables, u.procs[i]) && RowStands(u, u.procs[i]) {
      assert HoldsLease(w.tables, w.procs[i]) && RowStands(w, w.procs[i]);
    }
    forall r | r in u.tables.runs && u.tables.runs[r].Some? ensures HasShop(u.tables, r, u.tables.runs[r].value) {
      var s :| s in w.tables.shops && w.tables.shops[s] == (r, w.tables.runs[r].value);
      assert s in u.tables.shops;
    }
  }

  /** Clearing the owner column leaves the shop row behind, for the next statement. */
  lemma ReleaseRunKeepsInv(w: World, pid: Pid)
    requires Inv(w) && pid in w.procs && w.procs[pid].pc.Idle?
    ensures Inv(Next(w, DoReleaseRun(pid)))
  {
    var u, p := Next(w, DoReleaseRun(pid)), w.procs[pid];
    assert HoldsLease(w.tables, p);
    forall i | i in u.procs ensures HoldsLease(u.tables, u.procs[i]) && RowStands(u, u.procs[i]) {
      assert HoldsLease(w.tables, w.procs[i]) && RowStands(w, w.procs[i]);
    }
    forall r | r in u.tables.runs && u.tables.runs[r].Some? ensures HasShop(u.tables, r, u.tables.runs[r].value) {
      assert HasShop(w.tables, r, w.tables.runs[r].value);
    }
  }

  /** Deleting the shop row of a cleared run takes nobody else's lease away. */
  lemma ReleaseShopKeepsInv(w: World, pid: Pid)
    requires Inv(w) && pid in w.procs && w.procs[pid].pc.Unlocking?
    ensures Inv(Next(w, DoReleaseShop(pid)))
  {
    var u, p := Next(w, DoReleaseShop(pid)), w.procs[pid];
    assert HoldsLease(w.tables, p);
    forall i | i in u.procs ensures HoldsLease(u.tables, u.procs[i]) && RowStands(u, u.procs[i]) {
      assert HoldsLease(w.tables, w.procs[i]) && RowStands(w, w.procs[i]);
    }
    forall r | r in u.tables.runs && u.tables.runs[r].Some? ensures HasShop(u.tables, r, u.tables.runs[r].value) {
      var s :| s in w.tables.shops && w.tables.shops[s] == (r, w.tables.runs[r].value);
      assert s in u.tables.shops;
    }
  }

  predicate ActionMove(move: Move) {
    move.DoSelect? || move.DoInsert? || move.DoCall? || move.DoRecord? || move.DoFinish? || move.DoAbort?
  }

  lemma SameLeaseTables(t: Tables, u: Tables, nextToken: Token)
    requires t.runs == u.runs && t.shops == u.shops && OwnersHaveShops(t, nextToken)
    ensures OwnersHaveShops(u, nextToken)
  {
  }

  /** A statement of one action changes at most that action's row and leaves leases alone. */
  lemma ActionShape(w: World, move: Move)
    requires ActionMove(move)
    ensures var u := Next(w, move);
            && u.tables.runs == w.tables.runs && u.tables.shops == w.tables.shops && u.nextToken == w.nextToken
            && u.procs.Keys == w.procs.Keys
            && forall i :: i in w.procs ==> u.procs[i] == w.procs[i].(pc := u.procs[i].pc)
                                            && (u.procs[i].pc.Unlocking? <==> w.procs[i].pc.Unlocking?)
  {
    hide Dispatches, Accepted, LeaseIsDead, LockBoth, RecoverAction, RetryRead, ClearLease, StartRun;
  }

  lemma ActionKeepsLeases(w: World, move: Move)
    requires LeasesHold(w) && ActionMove(move)
    ensures LeasesHold(Next(w, move))
  {
    var u := Next(w, move);
    ActionShape(w, move);
    SameLeaseTables(w.tables, u.tables, w.nextToken);
    forall i | i in u.procs ensures HoldsLease(u.tables, u.procs[i]) {
      assert HoldsLease(w.tables, w.procs[i]);
    }
  }

  lemma ActionKeepsRows(w: World, move: Move)
    requires Inv(w) && ActionMove(move)
    ensures forall i :: i in Next(w, move).procs ==> RowStands(Next(w, move), Next(w, move).procs[i])
  {
    hide OwnersHaveShops;
  }

  lemma ActionKeepsWrites(w: World, move: Move)
    requires Inv(w) && ActionMove(move)
    ensures WritesOnce(Next(w, move))
  {
    if move.pid in w.procs {
      assert RowStands(w, w.procs[move.pid]);
    }
  }

  lemma StepKeepsInv(w: World, move: Move)
    requires Inv(w)
    ensures Inv(Next(w, move))
  {
    match move
    case DoLock(pid, run, shop) => LockKeepsInv(w, pid, run, shop);
    case DoStart(run) => StartKeepsInv(w, run);
    case DoRecover(_, _) => OperatorKeepsInv(w, move);
    case DoRetry(_) => OperatorKeepsInv(w, move);
    case DoReleaseRun(pid) =>
      if pid in w.procs && w.procs[pid].pc.Idle? {
        ReleaseRunKeepsInv(w, pid);
      }
    case DoReleaseShop(pid) =>
      if pid in w.procs && w.procs[pid].pc.Unlocking? {
        ReleaseShopKeepsInv(w, pid);
      }
    case DoCrash(pid) => CrashKeepsInv(w, pid);
    case DoClearLease(shop) =>
      if LeaseIsDead(w, shop) {
        ClearLeaseKeepsInv(w, shop);
      }
    case _ =>
      ActionKeepsLeases(w, move);
      ActionKeepsRows(w, move);
      ActionKeepsWrites(w, move);
  }

  /** Undisturbed, the statements of one action make of the tables what the store's method does. */
  lemma UndisturbedAction(w: World, pid: Pid, a: Action, reply: Option<Receipt>, canReconcile: bool)
    requires pid in w.procs && w.procs[pid].pc.Idle? && a.run == w.procs[pid].run
    ensures var ready := Next(Next(w, DoSelect(pid, a, canReconcile)), DoInsert(pid));
            Next(Next(Next(ready, DoCall(pid, reply)), DoRecord(pid)), DoFinish(pid)).tables
            == AfterOnce(w.tables, a, reply, canReconcile)
  {
  }

  /** What no single step may undo: finished results, write rows and executed calls. */
  ghost predicate Progress(w: World, u: World) {
    && (forall a :: a in w.tables.actions && w.tables.actions[a].Done? ==>
          a in u.tables.actions && u.tables.actions[a] == w.tables.actions[a])
    && (forall a :: a in w.tables.actions && IsWrite(a.step) ==> a in u.tables.actions)
    && w.executed <= u.executed
    && (forall i :: |w.executed| <= i < |u.executed| ==>
          u.executed[i] in w.tables.actions && !w.tables.actions[u.executed[i]].Done?)
  }

  /** Locks, crashes and the operator's calls execute nothing; only a read retry deletes a row. */
  lemma OtherProgress(w: World, move: Move)
    requires !ActionMove(move)
    ensures Progress(w, Next(w, move)) && Next(w, move).executed == w.executed
  {
    hide LockBoth;
    assert move.DoLock? ==> LockBoth(w.tables, move.run, move.shop, w.nextToken).0.actions == w.tables.actions by {
      LockKeepsActions(w.tables, move);
    }
  }

  lemma LockKeepsActions(t: Tables, move: Move)
    ensures move.DoLock? ==> forall n :: LockBoth(t, move.run, move.shop, n).0.actions == t.actions
  {
  }

  /** A statement of one action changes only that action's row, which is not finished yet. */
  lemma ActionProgress(w: World, move: Move)
    requires Inv(w) && ActionMove(move) && move.pid in w.procs
    ensures Progress(w, ProcMove(w, move, w.procs[move.pid]))
  {
    assert RowStands(w, w.procs[move.pid]);
    hide LeasesHold, WritesOnce;
  }

  lemma StepProgress(w: World, move: Move)
    requires Inv(w)
    ensures Progress(w, Next(w, move))
  {
    hide Inv, ProcMove, Progress;
    if !ActionMove(move) {
      OtherProgress(w, move);
    } else if move.pid in w.procs {
      ActionProgress(w, move);
    } else {
      NothingProgresses(w);
    }
  }

  lemma NothingProgresses(w: World)
    ensures Progress(w, w)
  {
  }

  /** The world after a whole history of moves. */
  function Run(w: World, moves: seq<Move>): World {
    if moves == [] then w else Next(Run(w, moves[..|moves| - 1]), moves[|moves| - 1])
  }

  const EMPTY := World(Tables(map[], map[], map[], map[]), map[], [], 0)

  lemma {:induction false} HistoryKeepsInv(moves: seq<Move>)
    ensures Inv(Run(EMPTY, moves))
  {
    if moves != [] {
      HistoryKeepsInv(moves[..|moves| - 1]);
      StepKeepsInv(Run(EMPTY, moves[..|moves| - 1]), moves[|moves| - 1]);
    }
  }

  /**
   * Over every interleaving of actions, failures, crashes, restarts, recoveries and read
   * retries: the transport executes each write action at most once, after its row exists;
   * that row is never deleted and a finished result never changes again.
   */
  lemma {:induction false} WritesExecuteAtMostOnce(moves: seq<Move>, earlier: nat)
    requires earlier <= |moves|
    ensures var w := Run(EMPTY, moves);
            && (forall i, j :: 0 <= i < j < |w.executed| && IsWrite(w.executed[i].step) ==>
                  w.executed[i] != w.executed[j])
            && (forall a :: a in w.executed && IsWrite(a.step) ==> a in w.tables.actions)
    ensures var v, w := Run(EMPTY, moves[..earlier]), Run(EMPTY, moves);
            && v.executed <= w.executed
            && (forall a :: a in v.tables.actions && IsWrite(a.step) ==> a in w.tables.actions)
            && (forall a :: a in v.tables.actions && v.tables.actions[a].Done? ==>
                  a in w.tables.actions && w.tables.actions[a] == v.tables.actions[a])
    decreases |moves|
  {
    HistoryKeepsInv(moves);
    if earlier == |moves| {
      assert moves[..earlier] == moves;
    } else {
      var last := |moves| - 1;
      assert moves[..last][..earlier] == moves[..earlier];
      WritesExecuteAtMostOnce(moves[..last], earlier);
      HistoryKeepsInv(moves[..last]);
      StepProgress(Run(EMPTY, moves[..last]), moves[last]);
    }
  }

  /** Over every history, crashes included, a run with an owner has the matching shop row. */
  lemma OwnedRunsHaveShops(moves: seq<Move>, r: RunId)
    requires r in Run(EMPTY, moves).tables.runs && Run(EMPTY, moves).tables.runs[r].Some?
    ensures var t := Run(EMPTY, moves).tables;
            exists s :: s in t.shops && t.shops[s] == (r, t.runs[r].value)
  {
    HistoryKeepsInv(moves);
    assert HasShop(Run(EMPTY, moves).tables, r, Run(EMPTY, moves).tables.runs[r].value);
  }

  /** Over every history, live processes have exclusive shops and, while working, exclusive runs. */
  lemma LeasesExclusiveAlways(moves: seq<Move>, i: Pid, j: Pid)
    requires i in Run(EMPTY, moves).procs && j in Run(EMPTY, moves).procs && i != j
    ensures var w := Run(EMPTY, moves);
            && w.procs[i].shop != w.procs[j].shop
            && (!w.procs[i].pc.Unlocking? && !w.procs[j].pc.Unlocking? ==> w.procs[i].run != w.procs[j].run)
  {
    HistoryKeepsInv(moves);
    LeasesExclusive(Run(EMPTY, moves), i, j);
  }

  function After(w: World, moves: seq<Move>): World
    decreases |moves|
  {
    if moves == [] then w else After(Next(w, moves[0]), moves[1..])
  }

  /** A process that starts and locks its run. */
  function Starting(pid: Pid, run: RunId, shop: Shop): seq<Move> {
    [DoStart(run), DoLock(pid, run, shop)]
  }

  /** A write whose call never returns, because its process dies. */
  function Dying(pid: Pid, a: Action): seq<Move> {
    [DoSelect(pid, a, false), DoInsert(pid), DoCall(pid, None), DoCrash(pid)]
  }

  lemma StartingEnds(run: RunId, shop: Shop)
    ensures After(EMPTY, Starting(0, run, shop))
            == World(Tables(map[run := Some(0)], map[shop := (run, 0)], map[], map[]),
                     map[0 := Proc(run, shop, 0, Idle)], [], 1)
  {
    var started := Next(EMPTY, DoStart(run));
    assert started == World(Tables(map[run := None], map[], map[], map[]), map[], [], 0);
    var moves := Starting(0, run, shop);
    assert moves[1..][1..] == [] && After(started, moves[1..]) == Next(started, moves[1]);
  }

  lemma WriteOpens(w: World, a: Action, shop: Shop)
    requires IsWrite(a.step) && w.procs == map[0 := Proc(a.run, shop, 0, Idle)] && w.tables.actions == map[]
    ensures Next(Next(w, DoSelect(0, a, false)), DoInsert(0))
            == w.(tables := w.tables.(actions := map[a := Unknown]),
                    procs := map[0 := Proc(a.run, shop, 0, Opened(a, false))])
  {
    assert Next(w, DoSelect(0, a, false)) == At(w, 0, Selected(a));
  }

  lemma CallDies(w: World, a: Action, shop: Shop)
    requires w.procs == map[0 := Proc(a.run, shop, 0, Opened(a, false))]
    ensures Next(Next(w, DoCall(0, None)), DoCrash(0)) == w.(procs := map[], executed := w.executed + [a])
  {
    var called := Next(w, DoCall(0, None));
    assert called.procs == map[0 := Proc(a.run, shop, 0, Idle)] && called.procs - {0} == map[];
  }

  lemma DyingEnds(w: World, a: Action, shop: Shop)
    requires IsWrite(a.step) && w.procs == map[0 := Proc(a.run, shop, 0, Idle)] && w.tables.actions == map[]
    ensures After(w, Dying(0, a))
            == w.(tables := w.tables.(actions := map[a := Unknown]), procs := map[], executed := w.executed + [a])
  {
    hide Next, IsWrite, After;
    var moves := Dying(0, a);
    var w2 := Next(Next(w, moves[0]), moves[1]);
    WriteOpens(w, a, shop);
    CallDies(w2, a, shop);
    AfterTwo(w, moves);
    AfterTwo(w2, moves[2..]);
    NothingAfter(Next(Next(w2, moves[2]), moves[3]));
    assert moves[2..][2..] == [];
  }

  lemma AfterTwo(w: World, moves: seq<Move>)
    requires |moves| >= 2
    ensures After(w, moves) == After(Next(Next(w, moves[0]), moves[1]), moves[2..])
  {
    hide Next;
    assert moves[1..][0] == moves[1] && moves[1..][1..] == moves[2..];
  }

  lemma NothingAfter(w: World)
    ensures After(w, []) == w
  {
  }

  /**
   * After a crash in the middle of a write, the run cannot be locked or recovered. Once its lease
   * has been cleared by hand it can be both; a restart without recovery does not execute the write
   * again, and an exact recovery finishes it.
   */
  lemma CrashedWriteIsNotRepeated(a: Action, shop: Shop, r: Receipt, pid: Pid)
    requires IsWrite(a.step) && Accepted(r, a, true)
    ensures var w := After(After(EMPTY, Starting(0, a.run, shop)), Dying(0, a));
            var idle := Next(w, DoClearLease(shop));
            var restarted := Next(Next(idle, DoLock(pid, a.run, shop)), DoSelect(pid, a, true));
            && w.executed == [a] && w.tables.actions == map[a := Unknown] && w.procs == map[]
            && !RecoverAction(w.tables, a, r).1 && Next(w, DoLock(pid, a.run, shop)) == w
            && pid in restarted.procs && restarted.procs[pid].pc == Idle && restarted.executed == [a]
            && RecoverAction(idle.tables, a, r).1 && Next(idle, DoRecover(a, r)).tables.actions == map[a := Done(r)]
  {
    hide After;
    StartingEnds(a.run, shop);
    DyingEnds(After(EMPTY, Starting(0, a.run, shop)), a, shop);
  }

  /** An adoption of an interrupted generation that fails between its two statements, and its unlock. */
  function AbortedAdoption(pid: Pid, a: Action, r: Receipt): seq<Move> {
    [DoSelect(pid, a, true), DoCall(pid, Some(r)), DoRecord(pid), DoAbort(pid), DoReleaseRun(pid), DoReleaseShop(pid)]
  }

  /** The adoption up to the failure: the recovery receipt is stored, the result is not. */
  lemma AdoptionAborts(w: World, pid: Pid, shop: Shop, a: Action, r: Receipt)
    requires a in w.tables.actions && w.tables.actions[a].InterruptedRead? && a.step.Generate? && Accepted(r, a, true)
    requires pid in w.procs && w.procs[pid] == Proc(a.run, shop, w.procs[pid].token, Idle) && a !in w.tables.recoveries
    ensures var moves := AbortedAdoption(pid, a, r);
            After(w, moves)
            == After(w.(tables := w.tables.(recoveries := w.tables.recoveries[a := r])), moves[4..])
  {
    var moves := AbortedAdoption(pid, a, r);
    var chosen := Next(w, moves[0]);
    assert chosen == At(w, pid, Opened(a, true));
    var called := Next(chosen, moves[1]);
    assert called == At(w, pid, Replied(a, true, r));
    var recorded := Next(called, moves[2]);
    var stored := w.(tables := w.tables.(recoveries := w.tables.recoveries[a := r]));
    assert recorded == At(stored, pid, Recorded(a, r));
    assert Next(recorded, moves[3]) == stored;
    assert moves[1..][1..] == moves[2..] && moves[2..][1..] == moves[3..] && moves[3..][1..] == moves[4..];
    assert After(recorded, moves[3..]) == After(stored, moves[4..]);
    assert After(called, moves[2..]) == After(recorded, moves[3..]);
  }

  lemma UnlockEnds(w: World, pid: Pid, a: Action, r: Receipt)
    requires pid in w.procs && w.procs[pid].pc == Idle
    ensures var p := w.procs[pid];
            After(w, AbortedAdoption(pid, a, r)[4..])
            == w.(tables := ReleaseShop(ReleaseRun(w.tables, p.run, p.token), p.run, p.token), procs := w.procs - {pid})
  {
    var moves := AbortedAdoption(pid, a, r)[4..];
    assert moves[0] == DoReleaseRun(pid) && moves[1..][0] == DoReleaseShop(pid) && moves[1..][1..] == [];
    var released := Next(w, moves[0]);
    assert After(released, moves[1..]) == Next(released, moves[1]);
    assert At(w, pid, Unlocking).procs - {pid} == w.procs - {pid};
  }

  /**
   * An adoption that fails after storing its recovery receipt and before its result: the run is
   * unlocked, and from then on recovering with that receipt succeeds without any effect, and with
   * any other receipt is refused.
   */
  lemma InterruptedAdoption(w: World, pid: Pid, shop: Shop, a: Action, r: Receipt)
    requires a in w.tables.actions && w.tables.actions[a].InterruptedRead? && a.step.Generate? && Accepted(r, a, true)
    requires a.run in w.tables.runs && w.tables.runs[a.run].None? && shop !in w.tables.shops && pid !in w.procs
    requires a !in w.tables.recoveries
    ensures var t := After(Next(w, DoLock(pid, a.run, shop)), AbortedAdoption(pid, a, r)).tables;
            && a.run in t.runs && t.runs[a.run].None? && t.actions == w.tables.actions
            && t.recoveries == w.tables.recoveries[a := r]
            && RecoverAction(t, a, r) == (t, true)
            && forall other :: other != r ==> RecoverAction(t, a, other) == (t, false)
  {
    hide After, AbortedAdoption;
    var locked := Next(w, DoLock(pid, a.run, shop));
    assert locked.procs[pid] == Proc(a.run, shop, w.nextToken, Idle);
    AdoptionAborts(locked, pid, shop, a, r);
    UnlockEnds(locked.(tables := locked.tables.(recoveries := w.tables.recoveries[a := r])), pid, a, r);
  }

  /** A read, in contrast, may run again: interrupted, idle and explicitly retried. */
  lemma RetriedReadRunsAgain(w: World, pid: Pid, shop: Shop, a: Action, reply: Option<Receipt>)
    requires a in w.tables.actions && w.tables.actions[a].InterruptedRead? && !IsWrite(a.step)
    requires a.run in w.tables.runs && w.tables.runs[a.run].None? && shop !in w.tables.shops && pid !in w.procs
    ensures var locked := Next(Next(w, DoRetry(a)), DoLock(pid, a.run, shop));
            Next(Next(Next(locked, DoSelect(pid, a, false)), DoInsert(pid)), DoCall(pid, reply)).executed
            == w.executed + [a]
  {
  }
}
