/**
 * Claims on saved discounts: cost revisions, price repairs and added SKUs are dispatched at
 * most once each and verified only by the receipt of that very dispatch; one-time amendment
 * rows are settled once.
 */
module Claims {
  import opened CampaignTypes
  import Authority

  type Status = Authority.Status

  datatype Kind = Revision(grant: string) | Repair | Inclusion

  type Key = string
  type Job = string

  datatype Spot = Spot(platform: string, pair: Pair)

  /** The wanted amount of every SKU the claim covers. */
  type Wanted = map<Spot, Cents>

  datatype Receipt = Receipt(reference: string, saved: Wanted)

  datatype Stage = Fresh | Dispatched | Verified | Closed

  datatype Claim = Claim(kind: Kind, wanted: Wanted, stage: Stage, job: Option<Job>, receipt: Option<Receipt>)

  /** One SKU of a one-time amendment, answering one failed signup of one offer. */
  datatype Amended = Amended(failedClaim: string, offer: string, status: Status, evidence: Option<string>)
  type RowKey = (string, Pair)

  datatype State = State(claims: map<Key, Claim>, rows: map<RowKey, Amended>)

  datatype Move =
    | Create(key: Key, kind: Kind, wanted: Wanted)
    | Consume(key: Key, job: Job, stillValid: bool)
    | Record(key: Key, job: Job, receipt: Receipt)
    | CloseIneffective(key: Key, proven: bool)
    | ClaimRows(batch: string, failedClaim: string, offer: string, pairs: set<Pair>)
    | RecordRows(batch: string, updates: map<Pair, Status>, evidence: string)

  // ---------- single operations ----------

  predicate SameGrant(c: Claim, kind: Kind) { kind.Revision? && c.kind == kind }

  predicate SharesSpot(c: Claim, kind: Kind, wanted: Wanted) {
    kind.Inclusion? && c.kind.Inclusion? && c.wanted.Keys * wanted.Keys != {}
  }

  /** A grant is bound to one claim; added SKUs are never claimed twice; identities are unique. */
  predicate MayCreate(s: State, key: Key, kind: Kind, wanted: Wanted) {
    && key !in s.claims
    && forall k :: k in s.claims ==> !SameGrant(s.claims[k], kind) && !SharesSpot(s.claims[k], kind, wanted)
  }

  function AfterCreate(s: State, key: Key, kind: Kind, wanted: Wanted): State {
    if MayCreate(s, key, kind, wanted) then s.(claims := s.claims[key := Claim(kind, wanted, Fresh, None, None)]) else s
  }

  predicate MayConsume(s: State, key: Key, stillValid: bool) {
    stillValid && key in s.claims && s.claims[key].stage == Fresh
  }

  function AfterConsume(s: State, key: Key, job: Job, stillValid: bool): State {
    if MayConsume(s, key, stillValid) then
      s.(claims := s.claims[key := s.claims[key].(stage := Dispatched, job := Some(job))])
    else s
  }

  /** Only the original job's exact saved amounts verify; a verified receipt is immutable. */
  predicate MayRecord(s: State, key: Key, job: Job, receipt: Receipt) {
    && key in s.claims
    && var c := s.claims[key];
    && c.job == Some(job) && receipt.saved == c.wanted
    && (c.stage == Dispatched || (c.stage == Verified && !c.kind.Inclusion? && c.receipt == Some(receipt)))
  }

  function AfterRecord(s: State, key: Key, job: Job, receipt: Receipt): State {
    if MayRecord(s, key, job, receipt) then
      s.(claims := s.claims[key := s.claims[key].(stage := Verified, receipt := Some(receipt))])
    else s
  }

  predicate MayClose(s: State, key: Key, proven: bool) {
    && proven && key in s.claims && s.claims[key].kind.Repair? && s.claims[key].job.None?
    && s.claims[key].stage in {Fresh, Closed}
  }

  function AfterClose(s: State, key: Key, proven: bool): State {
    if MayClose(s, key, proven) then s.(claims := s.claims[key := s.claims[key].(stage := Closed)]) else s
  }

  /** One amendment per failed signup, offer and SKU. */
  predicate MayClaimRows(s: State, batch: string, failedClaim: string, offer: string, pairs: set<Pair>) {
    forall k :: k in s.rows ==>
      k.0 != batch && !(k.1 in pairs && s.rows[k].failedClaim == failedClaim && s.rows[k].offer == offer)
  }

  function AfterClaimRows(s: State, batch: string, failedClaim: string, offer: string, pairs: set<Pair>): State {
    if MayClaimRows(s, batch, failedClaim, offer, pairs) then
      s.(rows := s.rows + map p | p in pairs ::
                                       (batch, p) := Amended(failedClaim, offer, Authority.Status.Unknown, None))
    else s
  }

  /** A settled row accepts only the same status from the same receipt; else nothing is written. */
  predicate MayRecordRows(s: State, batch: string, updates: map<Pair, Status>, evidence: string) {
    forall p :: p in updates ==> MayRecordRow(s.rows, (batch, p), updates[p], evidence)
  }

  predicate MayRecordRow(rows: map<RowKey, Amended>, k: RowKey, status: Status, evidence: string) {
    && status != Authority.Status.Unknown && k in rows
    && (rows[k].status == Authority.Status.Unknown || (rows[k].status == status && rows[k].evidence == Some(evidence)))
  }

  function SettledRow(r: Amended, k: RowKey, batch: string, updates: map<Pair, Status>, evidence: string): Amended {
    if k.0 == batch && k.1 in updates && r.status == Authority.Status.Unknown then
      r.(status := updates[k.1], evidence := Some(evidence))
    else r
  }

  function AfterRecordRows(s: State, batch: string, updates: map<Pair, Status>, evidence: string): State {
    if MayRecordRows(s, batch, updates, evidence) then
      s.(rows := map k | k in s.rows :: SettledRow(s.rows[k], k, batch, updates, evidence))
    else s
  }

  function After(s: State, m: Move): State {
    match m
    case Create(key, kind, wanted) => AfterCreate(s, key, kind, wanted)
    case Consume(key, job, valid) => AfterConsume(s, key, job, valid)
    case Record(key, job, receipt) => AfterRecord(s, key, job, receipt)
    case CloseIneffective(key, proven) => AfterClose(s, key, proven)
    case ClaimRows(batch, failed, offer, pairs) => AfterClaimRows(s, batch, failed, offer, pairs)
    case RecordRows(batch, updates, evidence) => AfterRecordRows(s, batch, updates, evidence)
  }

  /** The move hands this claim to the browser job: the only point where the platform is written. */
  predicate Dispatches(s: State, m: Move, key: Key) {
    m.Consume? && m.key == key && MayConsume(s, key, m.stillValid)
  }

  // ---------- the class ----------

  class Table {
    var claims: map<Key, Claim>
    var rows: map<RowKey, Amended>

    ghost function View(): State reads this { State(claims, rows) }

    constructor ()
      ensures View() == State(map[], map[])
    {
      claims, rows := map[], map[];
    }

    /** A cost revision of a grant that is bound already is returned again only while it is fresh. */
    method Create(key: Key, kind: Kind, wanted: Wanted) returns (ok: bool)
      modifies this
      ensures View() == AfterCreate(old(View()), key, kind, wanted)
      ensures ok <==> MayCreate(old(View()), key, kind, wanted)
                      || (kind.Revision? && key in old(claims)
                                          && old(claims)[key] == Claim(kind, wanted, Fresh, None, None))
    {
      if kind.Revision? && key in claims && claims[key] == Claim(kind, wanted, Fresh, None, None) {
        return true;
      }
      if key in claims {
        return false;
      }
      var rest := claims.Keys;
      while rest != {}
        invariant rest <= claims.Keys
        invariant forall k :: k in claims && k !in rest ==>
                              !SameGrant(claims[k], kind) && !SharesSpot(claims[k], kind, wanted)
      {
        var k :| k in rest;
        if SameGrant(claims[k], kind) || SharesSpot(claims[k], kind, wanted) {
          return false;
        }
        rest := rest - {k};
      }
      claims := claims[key := Claim(kind, wanted, Fresh, None, None)];
      ok := true;
    }

    method Consume(key: Key, job: Job, stillValid: bool) returns (ok: bool)
      modifies this
      ensures View() == AfterConsume(old(View()), key, job, stillValid)
      ensures ok <==> MayConsume(old(View()), key, stillValid)
    {
      if key !in claims || claims[key].stage != Fresh || !stillValid {
        return false;
      }
      claims := claims[key := claims[key].(stage := Dispatched, job := Some(job))];
      ok := true;
    }

    method Record(key: Key, job: Job, receipt: Receipt) returns (ok: bool)
      modifies this
      ensures View() == AfterRecord(old(View()), key, job, receipt)
      ensures ok <==> MayRecord(old(View()), key, job, receipt)
    {
      if key !in claims || claims[key].job != Some(job) || receipt.saved != claims[key].wanted {
        return false;
      }
      var c := claims[key];
      if c.stage == Verified && (c.kind.Inclusion? || c.receipt != Some(receipt)) {
        return false;
      }
      if c.stage != Verified && c.stage != Dispatched {
        return false;
      }
      claims := claims[key := c.(stage := Verified, receipt := Some(receipt))];
      ok := true;
    }

    method CloseIneffective(key: Key, proven: bool) returns (ok: bool)
      modifies this
      ensures View() == AfterClose(old(View()), key, proven)
      ensures ok <==> MayClose(old(View()), key, proven)
    {
      if key !in claims || !claims[key].kind.Repair? || claims[key].stage !in {Fresh, Closed} || claims[key].job.Some? {
        return false;
      }
      if !proven {
        return false;
      }
      claims := claims[key := claims[key].(stage := Closed)];
      ok := true;
    }

    /** One transaction: a conflict with any settled row leaves every row as it was. */
    method RecordRows(batch: string, updates: map<Pair, Status>, evidence: string) returns (ok: bool)
      modifies this
      ensures View() == AfterRecordRows(old(View()), batch, updates, evidence)
      ensures ok <==> MayRecordRows(old(View()), batch, updates, evidence)
    {
      var next, rest := rows, updates.Keys;
      while rest != {}
        invariant rest <= updates.Keys && next.Keys == rows.Keys
        invariant forall p :: p in updates && p !in rest ==> MayRecordRow(rows, (batch, p), updates[p], evidence)
        invariant forall k :: k in rows ==>
                    next[k] == if k.1 in rest then rows[k] else SettledRow(rows[k], k, batch, updates, evidence)
      {
        var p :| p in rest;
        rest := rest - {p};
        var k := (batch, p);
        if !MayRecordRow(rows, k, updates[p], evidence) {
          return false;
        }
        if rows[k].status == Authority.Status.Unknown {
          next := next[k := rows[k].(status := updates[p], evidence := Some(evidence))];
        }
      }
      assert MayRecordRows(View(), batch, updates, evidence);
      assert next == AfterRecordRows(View(), batch, updates, evidence).rows;
      rows := next;
      ok := true;
    }
  }

  // ---------- runs ----------

  function Play(moves: seq<Move>): State {
    if moves == [] then State(map[], map[]) else After(Play(moves[..|moves| - 1]), moves[|moves| - 1])
  }

  /** How often the run has handed this claim to a browser job. */
  function DispatchCount(moves: seq<Move>, key: Key): nat {
    if moves == [] then 0
    else
      var before := moves[..|moves| - 1];
      DispatchCount(before, key) + if Dispatches(Play(before), moves[|moves| - 1], key) then 1 else 0
  }

  ghost predicate ClaimSafe(c: Claim) {
    && (c.job.Some? <==> c.stage in {Dispatched, Verified})
    && (c.receipt.Some? <==> c.stage == Verified)
    && (c.stage == Verified ==> c.receipt.value.saved == c.wanted)
    && (c.stage == Closed ==> c.kind.Repair?)
  }

  ghost predicate Exclusive(s: State) {
    && (forall j, k :: j in s.claims && k in s.claims && j != k ==>
          !SameGrant(s.claims[j], s.claims[k].kind)
          && !SharesSpot(s.claims[j], s.claims[k].kind, s.claims[k].wanted))
    && (forall j, k :: j in s.rows && k in s.rows && j != k && j.1 == k.1 ==>
          s.rows[j].failedClaim != s.rows[k].failedClaim || s.rows[j].offer != s.rows[k].offer)
  }

  ghost predicate Safe(s: State) {
    Exclusive(s) && forall k :: k in s.claims ==> ClaimSafe(s.claims[k])
  }

  lemma RowsStayExclusive(s: State, m: Move)
    requires Safe(s) && (m.ClaimRows? || m.RecordRows?)
    ensures Safe(After(s, m))
  {
  }

  /** Claims: a new one is exclusive, and every step of one keeps its stage, job and receipt in line. */
  lemma ClaimsStaySafe(s: State, m: Move)
    requires Safe(s) && !m.ClaimRows? && !m.RecordRows?
    ensures forall k :: k in After(s, m).claims ==> ClaimSafe(After(s, m).claims[k])
  {
    hide Exclusive, SameGrant, SharesSpot;
  }

  lemma ClaimsStayExclusive(s: State, m: Move)
    requires Safe(s) && !m.ClaimRows? && !m.RecordRows?
    ensures Exclusive(After(s, m))
  {
    hide ClaimSafe;
    assert After(s, m).rows == s.rows;
  }

  lemma StepIsSafe(s: State, m: Move)
    requires Safe(s)
    ensures Safe(After(s, m))
  {
    hide After, Exclusive, ClaimSafe;
    if m.ClaimRows? || m.RecordRows? {
      RowsStayExclusive(s, m);
    } else {
      ClaimsStaySafe(s, m);
      ClaimsStayExclusive(s, m);
    }
  }

  ghost predicate HasJob(s: State, key: Key) { key in s.claims && s.claims[key].job.Some? }

  lemma JobStep(s: State, m: Move, key: Key)
    requires Safe(s)
    ensures HasJob(After(s, m), key) <==> HasJob(s, key) || Dispatches(s, m, key)
    ensures Dispatches(s, m, key) ==> !HasJob(s, key)
  {
  }

  lemma {:induction false} RunsAreSafe(moves: seq<Move>)
    ensures Safe(Play(moves))
  {
    if moves != [] {
      RunsAreSafe(moves[..|moves| - 1]);
      StepIsSafe(Play(moves[..|moves| - 1]), moves[|moves| - 1]);
    }
  }

  /**
   * Over every run: a claim is dispatched at most once, exactly when it carries a job; a
   * verified claim was dispatched and its receipt shows exactly the wanted amounts; a closed
   * one never was. No grant and no added SKU is ever claimed twice.
   */
  lemma {:induction false} DispatchedAtMostOnce(moves: seq<Move>, key: Key)
    ensures Safe(Play(moves))
    ensures DispatchCount(moves, key) == if HasJob(Play(moves), key) then 1 else 0
  {
    RunsAreSafe(moves);
    if moves != [] {
      var n := |moves| - 1;
      DispatchedAtMostOnce(moves[..n], key);
      JobStep(Play(moves[..n]), moves[n], key);
    }
  }

  /** What one claim keeps for ever. */
  predicate ClaimKept(before: Claim, after: Claim) {
    && after.kind == before.kind && after.wanted == before.wanted && (before.job.Some? ==> after.job == before.job)
    && (before.stage in {Verified, Closed} ==> after == before)
  }

  predicate RowKept(before: Amended, after: Amended) {
    && after.failedClaim == before.failedClaim && after.offer == before.offer
    && (before.status != Authority.Status.Unknown ==> after == before)
  }

  /** What a later state must keep of an earlier one. */
  ghost predicate Keeps(s: State, t: State) {
    && (forall k :: k in s.claims ==> k in t.claims && ClaimKept(s.claims[k], t.claims[k]))
    && (forall k :: k in s.rows ==> k in t.rows && RowKept(s.rows[k], t.rows[k]))
  }

  lemma ClaimStaysKept(s: State, m: Move, k: Key)
    requires Safe(s) && k in s.claims
    ensures k in After(s, m).claims && ClaimKept(s.claims[k], After(s, m).claims[k])
  {
    assert ClaimSafe(s.claims[k]);
  }

  lemma RowStaysKept(s: State, m: Move, k: RowKey)
    requires k in s.rows
    ensures k in After(s, m).rows && RowKept(s.rows[k], After(s, m).rows[k])
  {
  }

  lemma KeepsTransitive(s: State, t: State, u: State)
    requires Keeps(s, t) && Keeps(t, u)
    ensures Keeps(s, u)
  {
  }

  lemma StepKeeps(s: State, m: Move)
    requires Safe(s)
    ensures Keeps(s, After(s, m))
  {
    forall k | k in s.claims
      ensures k in After(s, m).claims && ClaimKept(s.claims[k], After(s, m).claims[k])
    {
      ClaimStaysKept(s, m, k);
    }
    forall k | k in s.rows
      ensures k in After(s, m).rows && RowKept(s.rows[k], After(s, m).rows[k])
    {
      RowStaysKept(s, m, k);
    }
  }

  /** Verified receipts, closed repairs and settled amendment rows never change again. */
  lemma {:induction false} OutcomesAreFinal(moves: seq<Move>, i: nat)
    requires i <= |moves|
    ensures Keeps(Play(moves[..i]), Play(moves))
    decreases |moves| - i
  {
    if i == |moves| {
      assert moves[..i] == moves;
    } else {
      assert moves[..i + 1][..i] == moves[..i];
      RunsAreSafe(moves[..i]);
      StepKeeps(Play(moves[..i]), moves[i]);
      OutcomesAreFinal(moves, i + 1);
      KeepsTransitive(Play(moves[..i]), Play(moves[..i + 1]), Play(moves));
    }
  }
}
