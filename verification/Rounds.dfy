/**
 * One step of the controller as a function of the saved state and the transport's replies:
 * products move among pending, success, exceptions and imported failures. Every number is the
 * position of a call, so what a step did can be held against the reply it got. Lists that the
 * program keeps sorted and free of duplicates are sets here.
 */
module Rounds {
  import opened CampaignTypes
  import opened Policy

  // ---------- saved state ----------

  /**
   * The errors field of a reported failure: a list of records, a value that cannot be iterated, or
   * one whose first entry cannot be read as a record.
   */
  datatype Errors = Records(list: seq<Failure>) | NotIterable | NotRecords

  /** A previous run's official failure of one product. */
  datatype Legacy = Legacy(batch: string, errors: Errors)

  /** A repair attempt of one product; older checkpoints left the SKU out. */
  datatype Signature = BySku(repairs: multiset<(Sku, Option<Repair>)>) | Older(list: seq<Option<Repair>>)

  datatype Status = Ready | Complete | Blocked

  /** The kind of a repair, as used in the corrections table. */
  datatype RepairKind = PriceFile | PriceCustom | Discounted | Excluded | Mapped | Shipping

  type Corrections = map<(Sku, RepairKind), Decision>

  /** pending is None until the scope is known. */
  datatype State = State(
    pending: Option<set<Item>>, initial: set<Item>, success: set<Item>, exceptions: map<Item, seq<Decision>>,
    legacy: map<Item, Legacy>, seen: map<Item, set<Signature>>, corrections: map<Item, Corrections>,
    required: set<Item>, enrolled: set<Item>, round: nat, status: Status)

  const NEW_RUN := State(None, {}, {}, map[], map[], map[], map[], {}, {}, 0, Ready)

  function PendingOf(s: State): set<Item> {
    if s.pending.Some? then s.pending.value else {}
  }

  // ---------- signatures ----------

  function KindOf(r: Repair): RepairKind {
    match r
    case FilePrice(_) => PriceFile
    case CustomRepair(_, _) => PriceCustom
    case OrdinaryDiscount(_, _, _) => Discounted
    case ExcludeSku(_) => Excluded
    case MapSku(_) => Mapped
    case FileShipping(_) => Shipping
  }

  function RepairsOf(decisions: seq<Decision>): seq<(Sku, Option<Repair>)> {
    seq(|decisions|, i requires 0 <= i < |decisions| => (decisions[i].sku, decisions[i].repair))
  }

  function SignatureOf(decisions: seq<Decision>): Signature {
    BySku(multiset(RepairsOf(decisions)))
  }

  function OlderOf(decisions: seq<Decision>): Signature {
    Older(seq(|decisions|, i requires 0 <= i < |decisions| => decisions[i].repair))
  }

  function SeenOf(s: State, item: Item): set<Signature> {
    if item in s.seen then s.seen[item] else {}
  }

  function CorrectionsOf(s: State, item: Item): Corrections {
    if item in s.corrections then s.corrections[item] else map[]
  }

  /** The corrections after these decisions: the last one per SKU and kind of repair counts. */
  function Corrected(prior: Corrections, decisions: seq<Decision>): Corrections {
    if decisions == [] then prior
    else
      var before, last := Corrected(prior, decisions[..|decisions| - 1]), decisions[|decisions| - 1];
      if last.repair.Some? then before[(last.sku, KindOf(last.repair.value)) := last] else before
  }

  predicate AlreadyAttempted(s: State, item: Item, decisions: seq<Decision>) {
    || SignatureOf(decisions) in SeenOf(s, item)
    || (OlderOf(decisions) in SeenOf(s, item) && item in s.corrections
        && exists key | key in s.corrections[item] ::
             exists d | d in decisions :: d.sku == s.corrections[item][key].sku
                                          && d.repair == s.corrections[item][key].repair)
  }

  // ---------- the untrusted transport ----------

  datatype Outcome = Succeeded | FailedItem | PartialItem | OtherOutcome
  datatype Prior = PriorSuccess | PriorFailed | PriorUnknown

  /** One official row; text is false when the reply gives the product number as a number. */
  datatype Row = Row(item: Item, text: bool, outcome: Outcome)

  /** scope is a sorted list without repetitions. */
  datatype ScopeReply = ScopeReply(scope: seq<Item>, valid: bool, prior: map<Item, Prior>, imported: map<Item, Legacy>)
  datatype BundleReply = BundleReply(issues: seq<(Item, Decision)>, valid: bool, items: set<Item>,
                                     discountItems: seq<Item>)
  datatype RowsReply = RowsReply(batch: string, rows: seq<Row>, changed: set<Item>, partialVerified: bool)
  datatype WindowReply = WindowReply(windowExact: bool, allCorrect: bool, items: set<Item>)

  /**
   * What the n-th call returns, for any adapter and any earlier history; None stands for a
   * blocked action or a reply that breaks the contract. The template call has the same payload
   * in every round of a run, so the ledger answers it with the one reply it has stored.
   */
  datatype Oracle = Oracle(
    template: Option<set<Item>>, scope: nat -> Option<ScopeReply>, bundle: nat -> Option<BundleReply>,
    rows: nat -> Option<RowsReply>, window: nat -> Option<WindowReply>, report: nat -> Option<seq<Failure>>,
    openActions: nat -> bool, priorFailures: nat -> Option<map<Item, Legacy>>,
    priceGaps: nat -> Option<map<Item, Legacy>>, inputs: nat -> Option<set<Item>>)

  /** Why a step stops: the call, and the scope that its reply does not fit. */
  datatype Fault =
    | TemplateRefused
    | BundleRefused(n: nat, items: set<Item>, required: set<Item>)
    | SubsetRefused(n: nat, items: set<Item>)
    | DiscountRefused(n: nat, items: set<Item>)
    | WindowRefused(n: nat, items: set<Item>)
    | SignupRefused(n: nat, items: set<Item>)
    | ReportRefused(n: nat, batch: string, items: set<Item>, text: bool)
    | RepairRefused(n: nat, items: set<Item>)
    | PriorRefused(n: nat, items: set<Item>)
    | GapsRefused(n: nat, items: set<Item>)
    | InputsRefused(n: nat, items: set<Item>, success: set<Item>)
    | ScopeRefused(n: nat)
    | HistoryUnreadable(n: nat, item: Item)
    | HistoryCrashes(n: nat, item: Item)
    | LegacyUnreadable(batch: string)
    | LegacyCrashes(batch: string)

  /** An error that the controller does not catch ends the process without a save. */
  predicate Crashes(f: Fault) { f.HistoryCrashes? || f.LegacyCrashes? }

  function RowItems(rows: seq<Row>): set<Item> {
    set r | r in rows :: r.item
  }

  /** Official rows cover exactly the requested products, each once, with a known outcome. */
  predicate TerminalScope(reply: RowsReply, requested: set<Item>, allowPartial: bool) {
    && reply.batch != ""
    && (forall i, j :: 0 <= i < j < |reply.rows| ==> reply.rows[i].item != reply.rows[j].item)
    && RowItems(reply.rows) == requested
    && (forall r :: r in reply.rows ==> r.outcome == Succeeded || r.outcome == FailedItem
                                        || (allowPartial && r.outcome == PartialItem))
  }

  function ItemsWith(reply: RowsReply, outcome: Outcome): (r: set<Item>)
    ensures r <= RowItems(reply.rows)
  {
    set row | row in reply.rows && row.outcome == outcome :: row.item
  }

  /** The products whose number the reply gives as a number. */
  function Numeric(reply: RowsReply): set<Item> {
    set row | row in reply.rows && !row.text :: row.item
  }

  // ---------- repairs ----------

  function HoldAll(items: set<Item>, reason: Code): map<Item, seq<Decision>> {
    map i | i in items :: [Decision(i, "", reason, Manual, None)]
  }

  function Held(s: State, items: set<Item>, reason: Code): State {
    s.(exceptions := s.exceptions + HoldAll(items, reason))
  }

  function ManualOf(errors: seq<Failure>): map<Item, seq<Decision>> {
    map i | i in ItemsOf(errors) && !Repairable(DecisionsOf(errors, i)) :: DecisionsOf(errors, i)
  }

  function RepairableOf(errors: seq<Failure>): map<Item, seq<Decision>> {
    map i | i in ItemsOf(errors) && Repairable(DecisionsOf(errors, i)) :: DecisionsOf(errors, i)
  }

  function AttemptedIn(s: State, repairs: map<Item, seq<Decision>>): set<Item> {
    set i | i in repairs && AlreadyAttempted(s, i, repairs[i])
  }

  predicate Verified(reply: RowsReply, r: Row) { r.outcome == Succeeded && r.item in reply.changed }

  /** The program stops at a verified change whose product number is not text. */
  function ReadRows(reply: RowsReply, k: nat): (n: nat)
    requires k <= |reply.rows|
    ensures n <= k
    ensures forall j :: 0 <= j < n ==> reply.rows[j].text || !Verified(reply, reply.rows[j])
    ensures n < k ==> !reply.rows[n].text && Verified(reply, reply.rows[n])
  {
    if k == 0 then 0
    else
      var n := ReadRows(reply, k - 1);
      if n < k - 1 || (!reply.rows[k - 1].text && Verified(reply, reply.rows[k - 1])) then n else k
  }

  function VerifiedIn(reply: RowsReply, n: nat): set<Item>
    requires n <= |reply.rows|
  {
    set r | r in reply.rows[..n] && Verified(reply, r) :: r.item
  }

  /** The exceptions after these rows: the verified changes leave, the other products are held. */
  function HeldRows(table: map<Item, seq<Decision>>, read: set<Item>, done: set<Item>): map<Item, seq<Decision>> {
    table - done + HoldAll(read - done, RepairUnverified)
  }

  /** A table in which these products have their new values. */
  function Entered<T>(table: map<Item, T>, values: map<Item, T>, done: set<Item>): map<Item, T> {
    table + map i | i in done && i in values :: values[i]
  }

  function NewCorrections(s: State, repairs: map<Item, seq<Decision>>): map<Item, Corrections> {
    map i | i in repairs :: Corrected(CorrectionsOf(s, i), repairs[i])
  }

  function NewSeen(s: State, repairs: map<Item, seq<Decision>>): map<Item, set<Signature>> {
    map i | i in repairs :: SeenOf(s, i) + {SignatureOf(repairs[i])}
  }

  /** Verified changes leave the exceptions with a new attempt, every other row is held. */
  function AfterRows(s: State, reply: RowsReply, n: nat, repairs: map<Item, seq<Decision>>): State
    requires n <= |reply.rows|
  {
    var done := VerifiedIn(reply, n);
    s.(exceptions := HeldRows(s.exceptions, RowItems(reply.rows[..n]), done),
       corrections := Entered(s.corrections, NewCorrections(s, repairs), done),
       seen := Entered(s.seen, NewSeen(s, repairs), done))
  }

  /** What one step of the controller makes of the state, and the products it schedules again. */
  datatype Step = Step(state: State, calls: nat, fault: Option<Fault>, next: set<Item>)

  function CallRepair(o: Oracle, s: State, repairs: map<Item, seq<Decision>>, n: nat): Step {
    var reply := o.rows(n);
    if reply.None? || !TerminalScope(reply.value, repairs.Keys, false) then
      Step(s, n + 1, Some(RepairRefused(n, repairs.Keys)), {})
    else
      var rows := reply.value.rows;
      var k := ReadRows(reply.value, |rows|);
      if k < |rows| then Step(AfterRows(s, reply.value, k, repairs), n + 1, Some(RepairRefused(n, repairs.Keys)), {})
      else Step(AfterRows(s, reply.value, k, repairs), n + 1, None, VerifiedIn(reply.value, k))
  }

  function RepairFailed(o: Oracle, s: State, errors: seq<Failure>, n: nat): Step {
    var repairs := RepairableOf(errors);
    var attempted := AttemptedIn(s, repairs);
    var t := Held(s.(exceptions := s.exceptions + ManualOf(errors)), attempted, SameCorrection);
    if repairs.Keys <= attempted then Step(t, n, None, {}) else CallRepair(o, t, repairs - attempted, n)
  }

  /** A report is used only when it names exactly the failed products, in this batch. */
  predicate ReportFits(errors: seq<Failure>, batch: string, items: set<Item>) {
    ItemsOf(errors) == items && forall e :: e in errors ==> e.batch == batch
  }

  function ReportAndRepair(o: Oracle, s: State, batch: string, items: set<Item>, text: bool, n: nat): Step {
    var errors := o.report(n);
    if errors.None? || !text || !ReportFits(errors.value, batch, items) then
      Step(s, n + 1, Some(ReportRefused(n, batch, items, text)), {})
    else RepairFailed(o, s, errors.value, n + 1)
  }

  // ---------- one round ----------

  /** Registered products count as enrolled; only a daily segment keeps them for discount work. */
  function AfterTemplate(s: State, registered: set<Item>, daily: bool): State {
    if daily then s.(success := s.success + registered, enrolled := s.enrolled + registered)
    else s.(success := s.success + registered, pending := Some(PendingOf(s) - registered))
  }

  function IssueItems(issues: seq<(Item, Decision)>): set<Item> {
    set r | r in issues :: r.0
  }

  function IssuesOf(issues: seq<(Item, Decision)>, item: Item): seq<Decision> {
    if issues == [] then []
    else (if issues[0].0 == item then [issues[0].1] else []) + IssuesOf(issues[1..], item)
  }

  function HeldIssues(issues: seq<(Item, Decision)>, items: set<Item>): map<Item, seq<Decision>> {
    map i | i in items :: IssuesOf(issues, i)
  }

  /** Products with missing inputs leave the round as exceptions. */
  function AfterIssues(s: State, issues: seq<(Item, Decision)>): State {
    var bad := IssueItems(issues);
    s.(exceptions := s.exceptions + HeldIssues(issues, bad), pending := Some(PendingOf(s) - bad),
       required := s.required - bad, round := s.round + 1)
  }

  /** A bundle without issues: exactly the pending products, and no required discount left out. */
  predicate BundleAccepted(b: BundleReply, items: set<Item>, required: set<Item>) {
    && b.issues == [] && b.valid && b.items == items && NoDuplicates(b.discountItems)
    && required <= SetOf(b.discountItems) <= items
  }

  /** A reply to the first generation of a round: missing inputs of pending products, or a bundle. */
  predicate BundleFits(b: BundleReply, items: set<Item>, required: set<Item>) {
    if b.issues != [] then IssueItems(b.issues) <= items else BundleAccepted(b, items, required)
  }

  /** A bundle generated again is used only for exactly the products it was asked for. */
  predicate Regenerated(o: Oracle, n: nat, items: set<Item>) {
    o.bundle(n).Some? && o.bundle(n).value.valid && o.bundle(n).value.items == items
  }

  predicate WindowCorrect(o: Oracle, n: nat, items: set<Item>) {
    && o.window(n).Some? && o.window(n).value.windowExact && o.window(n).value.allCorrect
    && o.window(n).value.items == items
  }

  /** removed leave the round; refused says whether any discount row was not a success. */
  datatype Discounts = Discounts(state: State, calls: nat, fault: Option<Fault>, removed: set<Item>, refused: bool,
                                 retries: set<Item>)

  /** A partial product is found again by its text number only. */
  function RemovedBy(reply: RowsReply): set<Item> {
    ItemsWith(reply, FailedItem) + (ItemsWith(reply, PartialItem) - Numeric(reply))
  }

  function RepairPartial(o: Oracle, s: State, reply: RowsReply, n: nat): Step {
    var partial := ItemsWith(reply, PartialItem);
    var t := Held(s, partial, PartialImport);
    if partial == {} || !reply.partialVerified then Step(t, n, None, {})
    else ReportAndRepair(o, t, reply.batch, partial, partial !! Numeric(reply), n)
  }

  function RepairRefusals(o: Oracle, s: State, reply: RowsReply, n: nat): Step {
    var failed := ItemsWith(reply, FailedItem);
    if failed == {} then Step(s, n, None, {})
    else ReportAndRepair(o, s, reply.batch, failed, failed !! Numeric(reply), n)
  }

  function DiscountPhase(o: Oracle, s: State, items: set<Item>, n: nat): Discounts {
    var reply := o.rows(n);
    if reply.None? || !TerminalScope(reply.value, items, true) then
      Discounts(s, n + 1, Some(DiscountRefused(n, items)), {}, false, {})
    else
      var p := RepairPartial(o, s, reply.value, n + 1);
      if p.fault.Some? then Discounts(p.state, p.calls, p.fault, {}, false, {})
      else
        var f := RepairRefusals(o, p.state, reply.value, p.calls);
        if f.fault.Some? then Discounts(f.state, f.calls, f.fault, {}, false, {})
        else Discounts(f.state.(required := f.next), f.calls, None, RemovedBy(reply.value),
                       ItemsWith(reply.value, FailedItem) + ItemsWith(reply.value, PartialItem) != {}, p.next + f.next)
  }

  function SignedUp(reply: RowsReply): set<Item> { ItemsWith(reply, Succeeded) }

  function SignupPhase(o: Oracle, s: State, signup: set<Item>, n: nat): Step {
    var reply := o.rows(n);
    if reply.None? || !TerminalScope(reply.value, signup, false) then
      Step(s, n + 1, Some(SignupRefused(n, signup)), {})
    else
      var t := s.(success := s.success + SignedUp(reply.value));
      var failed := ItemsWith(reply.value, FailedItem);
      if failed == {} then Step(t, n + 1, None, {})
      else ReportAndRepair(o, t, reply.value.batch, failed, failed !! Numeric(reply.value), n + 1)
  }

  function Rescheduled(s: State, next: set<Item>): State {
    s.(pending := Some(next), round := s.round + 1)
  }

  /** What one round did: the calls it made, and the products it submitted for signup. */
  datatype Round = Round(state: State, calls: nat, fault: Option<Fault>, bundle: Option<nat>, discount: Option<nat>,
                         window: Option<nat>, signup: Option<nat>, submitted: set<Item>)

  function Quiet(s: State, n: nat, fault: Option<Fault>): Round {
    Round(s, n, fault, None, None, None, None, {})
  }

  /** Signup of exactly these products; the failed ones that a repair changed are tried again. */
  function EnrolNow(o: Oracle, r: Round, signup: set<Item>, retries: set<Item>, n: nat): Round {
    var p := SignupPhase(o, r.state, signup, n);
    r.(calls := p.calls, fault := p.fault, signup := Some(n), submitted := signup,
       state := if p.fault.Some? then p.state else Rescheduled(p.state, retries + p.next))
  }

  /** Products enrolled before are left out, with a bundle for exactly the others. */
  function EnrolOthers(o: Oracle, r: Round, work: set<Item>, signup: set<Item>, retries: set<Item>): Round {
    var n := r.calls;
    if signup == {} then r.(state := Rescheduled(r.state, retries))
    else if signup != work && !Regenerated(o, n, signup) then
      r.(calls := n + 1, fault := Some(SubsetRefused(n, signup)))
    else EnrolNow(o, r, signup, retries, if signup == work then n else n + 1)
  }

  /** Window readback, then signup of the products not enrolled before; r has come this far. */
  function Enrol(o: Oracle, r: Round, work: set<Item>, retries: set<Item>): Round {
    var n := r.calls;
    if !WindowCorrect(o, n, work) then r.(calls := n + 1, fault := Some(WindowRefused(n, work)))
    else EnrolOthers(o, r.(calls := n + 1, window := Some(n)), work, work - r.state.enrolled, retries)
  }

  /** What is left after the discounts is enrolled, with a new bundle if some product has left. */
  function AfterDiscounts(o: Oracle, s: State, r: Round, d: Discounts): Round {
    var work := PendingOf(s) - d.removed;
    if d.fault.Some? then r.(fault := d.fault)
    else if work == {} then r.(state := Rescheduled(d.state, d.retries))
    else if !d.refused then Enrol(o, r, work, d.retries)
    else if !Regenerated(o, r.calls, work) then r.(calls := r.calls + 1, fault := Some(SubsetRefused(r.calls, work)))
    else Enrol(o, r.(calls := r.calls + 1), work, d.retries)
  }

  /** The discounts of a round; no call when nothing is to be discounted. */
  function DiscountsOf(o: Oracle, s: State, items: set<Item>, n: nat): Discounts {
    if items == {} then Discounts(s, n, None, {}, false, {}) else DiscountPhase(o, s, items, n)
  }

  /** The round after an accepted bundle: discounts, then enrolment of what is left. */
  function Submit(o: Oracle, s: State, items: set<Item>, r: Round): Round {
    var d := DiscountsOf(o, s, items, r.calls);
    AfterDiscounts(o, s, r.(state := d.state, calls := d.calls,
                                 discount := if items == {} then None else Some(r.calls)),
                   d)
  }

  function Turn(o: Oracle, daily: bool, s: State, n: nat): Round {
    if o.template.None? || !(o.template.value <= s.initial) then Quiet(s, n, Some(TemplateRefused))
    else
      var t := AfterTemplate(s, o.template.value, daily);
      var b := o.bundle(n);
      if PendingOf(t) == {} then Quiet(t, n, None)
      else if b.None? || !BundleFits(b.value, PendingOf(t), t.required) then
        Quiet(t, n + 1, Some(BundleRefused(n, PendingOf(t), t.required)))
      else if b.value.issues != [] then Quiet(AfterIssues(t, b.value.issues), n + 1, None)
      else Submit(o, t, SetOf(b.value.discountItems), Quiet(t, n + 1, None).(bundle := Some(n)))
  }

  // ---------- before the rounds ----------

  /** The checks on an imported failure that the prior import makes and the price-gap import omits. */
  predicate ValidImport(item: Item, legacy: Legacy) {
    && legacy.batch != "" && legacy.errors.Records? && legacy.errors.list != []
    && forall e :: e in legacy.errors.list ==>
                     e.item == item && e.batch == legacy.batch && e.proof.failed && e.proof.evidence
  }

  /** Imported failures replace the exceptions of their products and reopen the run. */
  function AfterImport(s: State, imported: map<Item, Legacy>): State {
    if imported == map[] then s
    else s.(legacy := s.legacy + imported, exceptions := s.exceptions - imported.Keys, status := Ready)
  }

  /** The restored products are the whole work of the next round. */
  function AfterInputs(s: State, restored: set<Item>): State {
    if restored == {} then s
    else s.(exceptions := s.exceptions - restored, pending := Some(restored), round := s.round + 1, status := Ready)
  }

  /** Exceptions that wait for an old failure's exact report, and for nothing else. */
  function WaitingForImport(s: State): set<Item> {
    set i | i in s.exceptions && s.exceptions[i] != []
            && forall d :: d in s.exceptions[i] ==> d.reason == LegacyImportNeeded
  }

  function WaitingForReadback(s: State): set<Item> {
    set i | i in s.exceptions && exists d :: d in s.exceptions[i] && d.reason == ReadbackMissing
  }

  function WaitingForInputs(s: State): set<Item> {
    set i | i in s.exceptions && s.exceptions[i] != []
            && forall d :: d in s.exceptions[i] ==> d.reason == ErpMappingNotUnique || d.reason == DiscountSkuMissing
  }

  predicate Idle(s: State) { PendingOf(s) == {} && s.legacy == map[] }

  function RecoverPrior(o: Oracle, s: State, n: nat): Step {
    var wanted := WaitingForImport(s);
    var imported := o.priorFailures(n);
    if o.openActions(n) || wanted == {} then Step(s, n, None, {})
    else if imported.None? || !(imported.value.Keys <= wanted)
            || exists i :: i in imported.value && !ValidImport(i, imported.value[i]) then
      Step(s, n + 1, Some(PriorRefused(n, wanted)), {})
    else Step(AfterImport(s, imported.value), n + 1, None, {})
  }

  /** The same for products without a price readback; here the report is taken as it comes. */
  function RecoverPriceGaps(o: Oracle, s: State, n: nat): Step {
    var wanted := WaitingForReadback(s);
    var imported := o.priceGaps(n);
    if !Idle(s) || o.openActions(n) || wanted == {} then Step(s, n, None, {})
    else if imported.None? || !(imported.value.Keys <= wanted) then Step(s, n + 1, Some(GapsRefused(n, wanted)), {})
    else Step(AfterImport(s, imported.value), n + 1, None, {})
  }

  function RecoverInputs(o: Oracle, s: State, n: nat): Step {
    var wanted := WaitingForInputs(s);
    var restored := o.inputs(n);
    if !Idle(s) || o.openActions(n) || wanted == {} then Step(s, n, None, {})
    else if restored.None? || !(restored.value <= wanted) || !(restored.value !! s.success) then
      Step(s, n + 1, Some(InputsRefused(n, wanted, s.success)), {})
    else Step(AfterInputs(s, restored.value), n + 1, None, {})
  }

  // ---------- the scope and its history ----------

  predicate PriorIs(r: ScopeReply, item: Item, prior: Prior) { item in r.prior && r.prior[item] == prior }

  predicate HasRecord(r: ScopeReply, item: Item) {
    PriorIs(r, item, PriorFailed) && item in r.imported && r.imported[item].batch != ""
  }

  /** The imported errors cannot be iterated, or what they hold are no records. */
  predicate Unreadable(r: ScopeReply, item: Item) { HasRecord(r, item) && r.imported[item].errors.NotIterable? }

  predicate CrashesOn(r: ScopeReply, item: Item) { HasRecord(r, item) && r.imported[item].errors.NotRecords? }

  predicate Importable(r: ScopeReply, item: Item) { HasRecord(r, item) && ValidImport(item, r.imported[item]) }

  /** An unresolved earlier outcome, or an earlier failure without its exact report. */
  predicate HeldBack(r: ScopeReply, item: Item) {
    PriorIs(r, item, PriorUnknown) || (PriorIs(r, item, PriorFailed) && !Importable(r, item))
  }

  /** Without any earlier outcome, or enrolled already but due for a daily discount. */
  predicate Works(r: ScopeReply, item: Item, daily: bool) {
    item !in r.prior || (daily && PriorIs(r, item, PriorSuccess))
  }

  /** One product of the initial scope: done, held, imported, or left to work on. */
  function TakePrior(s: State, item: Item, r: ScopeReply, daily: bool): State {
    if item !in r.prior then s
    else
      var left := Some(PendingOf(s) - {item});
      match r.prior[item]
      case PriorSuccess =>
        if daily then s.(success := s.success + {item}, enrolled := s.enrolled + {item})
        else s.(success := s.success + {item}, pending := left)
      case PriorUnknown => Held(s, {item}, PreviousUnknown).(pending := left)
      case PriorFailed =>
        if Importable(r, item) then s.(legacy := s.legacy[item := r.imported[item]], pending := left)
        else Held(s, {item}, LegacyImportNeeded).(pending := left)
  }

  /** Before the history is read, everything in scope is pending. */
  function Opened(s: State, r: ScopeReply): State {
    s.(pending := Some(SetOf(r.scope)), initial := SetOf(r.scope), legacy := map[])
  }

  /** The history of the first k products, up to a record that cannot be read. */
  function TakeHistory(s: State, r: ScopeReply, daily: bool, k: nat, n: nat): Step
    requires k <= |r.scope|
  {
    if k == 0 then Step(Opened(s, r), n + 1, None, {})
    else
      var before, item := TakeHistory(s, r, daily, k - 1, n), r.scope[k - 1];
      if before.fault.Some? then before
      else if Unreadable(r, item) then before.(fault := Some(HistoryUnreadable(n, item)))
      else if CrashesOn(r, item) then before.(fault := Some(HistoryCrashes(n, item)))
      else before.(state := TakePrior(before.state, item, r, daily))
  }

  function InitScope(o: Oracle, daily: bool, s: State, n: nat): Step {
    var r := o.scope(n);
    if r.None? || !r.value.valid || !NoDuplicates(r.value.scope) then Step(s, n + 1, Some(ScopeRefused(n)), {})
    else TakeHistory(s, r.value, daily, |r.value.scope|, n)
  }

  // ---------- imported batches ----------

  function BatchItems(s: State, batch: string): set<Item> {
    set i | i in s.legacy && s.legacy[i].batch == batch
  }

  function ListOf(legacy: Legacy): seq<Failure> {
    if legacy.errors.Records? then legacy.errors.list else []
  }

  /** All errors of these imported failures, in this order. */
  function ErrorsOf(s: State, items: seq<Item>): seq<Failure>
    requires SetOf(items) <= s.legacy.Keys
  {
    if items == [] then []
    else
      var n := |items| - 1;
      assert items[n] in SetOf(items);
      assert SetOf(items[..n]) <= SetOf(items);
      ErrorsOf(s, items[..n]) + ListOf(s.legacy[items[n]])
  }

  /** The order in which the table lists the products of one batch. */
  predicate Lists(s: State, batch: string, items: seq<Item>) {
    NoDuplicates(items) && SetOf(items) == BatchItems(s, batch)
  }

  /** One imported batch is decided and retired together. */
  function RetireBatch(o: Oracle, s: State, batch: string, items: seq<Item>, n: nat): Step
    requires Lists(s, batch, items)
  {
    if exists i | i in BatchItems(s, batch) :: s.legacy[i].errors.NotIterable? then
      Step(s, n, Some(LegacyUnreadable(batch)), {})
    else if exists i | i in BatchItems(s, batch) :: s.legacy[i].errors.NotRecords? then
      Step(s, n, Some(LegacyCrashes(batch)), {})
    else
      var p := RepairFailed(o, s, ErrorsOf(s, items), n);
      if p.fault.Some? then p
      else p.(state := p.state.(pending := Some(PendingOf(s) + p.next), legacy := s.legacy - SetOf(items)))
  }
}
