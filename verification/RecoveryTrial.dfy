/**
 * One recovery trial: a file is prepared, the user uploads it at most once, the official
 * result settles it, and only a readback of the same marketing record completes it.
 */
module RecoveryTrial {
  import opened CampaignTypes

  type Campaign = string

  /** records gives each product's original marketing record; scope the authorized price of each SKU. */
  datatype Request = Request(campaign: Campaign, records: map<Item, string>, scope: map<Pair, Cents>)

  datatype Mark = Success | Failure | Unclear
  datatype Status = AllSuccess | AllFailed | Mixed | NotProven

  /** The official result of one operation, product and SKU by product and SKU. */
  datatype Terminal = Terminal(reference: string, source: string, marks: map<Pair, Mark>, status: Status)

  /** A current row of a product: its record, its price, and whether the platform runs it as asked. */
  datatype LiveRow = LiveRow(record: string, price: Cents, active: bool, satisfied: bool)

  /** None when the product's current rows are missing, repeated or under several records. */
  type Reading = map<Item, Option<map<Sku, LiveRow>>>

  datatype Kind =
    | RiskWarning | ExportRefresh | UserUploaded
    | OfficialTerminal(terminal: Terminal, prices: map<Pair, Cents>, declared: Option<Status>)
    | SameRecordReadback(reference: string, reading: Reading)

  /** identityExact: type, campaign, products and file are those of the prepared trial. */
  datatype Event = Event(identityExact: bool, kind: Kind)

  datatype Phase =
    | Prepared | AwaitingTerminal | AwaitingReadback | PartiallyAccepted | FailedNoRetry | UnknownNoRetry
    | Recovered | AcceptedRecovered | NotRecovered

  datatype State = State(phase: Phase, terminal: Option<Terminal>, supported: bool, complete: bool, historical: bool)

  // ---------- official results ----------

  function StatusOf(marks: map<Pair, Mark>): Status {
    if marks.Keys == {} then NotProven
    else if forall p :: p in marks ==> marks[p] == Success then AllSuccess
    else if forall p :: p in marks ==> marks[p] == Failure then AllFailed
    else if forall p :: p in marks ==> marks[p] != Unclear then Mixed
    else NotProven
  }

  function PhaseAfter(s: Status): Phase {
    match s
    case AllSuccess => AwaitingReadback
    case AllFailed => FailedNoRetry
    case Mixed => PartiallyAccepted
    case NotProven => UnknownNoRetry
  }

  function Accepted(t: Terminal): set<Pair> {
    set p | p in t.marks && t.marks[p] == Success
  }

  function AcceptedItems(t: Terminal): set<Item> {
    set p | p in Accepted(t) :: p.item
  }

  /** A result replaces nothing but an unproven result of the same operation. */
  function TakeTerminal(r: Request, s: State, t: Terminal, prices: map<Pair, Cents>, declared: Option<Status>)
    : Result<State>
  {
    if t.reference == "" then Err("explicit_official_terminal_required")
    else if prices != r.scope || t.marks.Keys != r.scope.Keys || t.status != StatusOf(t.marks) then
      Err("official_terminal_full_scope_or_price_mismatch")
    else if declared.Some? && declared.value != t.status then Err("declared_status_disagrees_with_official_result")
    else if s.terminal == Some(t) then Ok(s)
    else if s.terminal.Some? && (s.terminal.value.status != NotProven || s.terminal.value.reference != t.reference) then
      Err("official_terminal_already_recorded_do_not_replace")
    else Ok(s.(terminal := Some(t), phase := PhaseAfter(t.status)))
  }

  // ---------- readback ----------

  /** The rows of these products as the platform now shows them, when each product can be read. */
  function LiveRows(items: set<Item>, reading: Reading): map<Pair, LiveRow> {
    map i, s | i in items && i in reading && reading[i].Some? && s in reading[i].value ::
      Pair(i, s) := reading[i].value[s]
  }

  predicate Readable(items: set<Item>, reading: Reading) {
    forall i :: i in items ==> i in reading && reading[i].Some? && |reading[i].value| > 0
  }

  /** The same record and exactly the authorized SKUs at their authorized prices. */
  predicate SameScope(r: Request, items: set<Item>, wanted: set<Pair>, rows: map<Pair, LiveRow>)
    requires wanted <= r.scope.Keys && items <= r.records.Keys
    requires forall p :: p in rows ==> p.item in items
  {
    && rows.Keys == wanted
    && forall p :: p in rows ==> rows[p].price == r.scope[p] && rows[p].record == r.records[p.item]
  }

  predicate AllLive(rows: map<Pair, LiveRow>) {
    forall p :: p in rows ==> rows[p].active && rows[p].satisfied
  }

  function TakeReadback(r: Request, s: State, reference: string, reading: Reading): Result<State> {
    if s.terminal.None? || s.terminal.value.status !in {AllSuccess, Mixed}
       || s.terminal.value.reference != reference then
      Err("same_successful_official_operation_required")
    else
      var t := s.terminal.value;
      var items := if t.status == Mixed then AcceptedItems(t) else r.records.Keys;
      if t.status == Mixed && exists p :: p in r.scope && p.item in items && p !in Accepted(t) then
        Err("partial_product_acceptance_requires_specific_sku_readback")
      else if !(Accepted(t) <= r.scope.Keys) || !(items <= r.records.Keys) || !Readable(items, reading) then
        Err("current_sku_scope_missing_or_duplicate")
      else if !SameScope(r, items, Accepted(t), LiveRows(items, reading)) then
        Err("same_marketing_full_scope_unchanged_prices_required")
      else
        var recovered := AllLive(LiveRows(items, reading));
        Ok(s.(phase := if !recovered then NotRecovered
                         else if t.status == AllSuccess then Recovered else AcceptedRecovered,
              supported := recovered, complete := recovered && t.status == AllSuccess))
  }

  function Transition(r: Request, s: State, e: Event): Result<State> {
    if !e.identityExact then Err("event_phase_campaign_item_or_file_mismatch")
    else
      match e.kind
      case RiskWarning => Ok(s)
      case ExportRefresh => Ok(s)
      case UserUploaded =>
        if s.phase != Prepared || s.historical then Err("upload_already_reported_no_retry")
        else Ok(s.(phase := AwaitingTerminal))
      case OfficialTerminal(t, prices, declared) => TakeTerminal(r, s, t, prices, declared)
      case SameRecordReadback(reference, reading) => TakeReadback(r, s, reference, reading)
  }

  const INITIAL := State(Prepared, None, false, false, false)

  // ---------- the event log ----------

  /** One event file: the event and the state it led to. */
  datatype Entry = Entry(event: Event, after: State)
  type Log = seq<Entry>

  function LastState(log: Log): State {
    if log == [] then INITIAL else log[|log| - 1].after
  }

  /** The event led from one state to the next, possibly after the workbook was found missing. */
  ghost predicate Accepts(r: Request, before: State, e: Entry) {
    || Transition(r, before, e.event) == Ok(e.after)
    || Transition(r, before.(historical := true), e.event) == Ok(e.after)
  }

  /** Every event was accepted in the state the earlier ones led to. */
  ghost predicate Logged(r: Request, log: Log) {
    log != [] ==> Logged(r, log[..|log| - 1]) && Accepts(r, LastState(log[..|log| - 1]), log[|log| - 1])
  }

  lemma LogExtended(r: Request, log: Log, e: Entry)
    requires Logged(r, log) && Accepts(r, LastState(log), e)
    ensures Logged(r, log + [e])
  {
  }

  /** The state an event starts from; a missing workbook makes the trial a receipt-only one. */
  function Opened(previous: State, e: Event, workbookExists: bool, missingAllowed: bool): Result<State> {
    if workbookExists then Ok(previous)
    else if !previous.historical && !missingAllowed then Err("prepared_workbook_missing")
    else if missingAllowed && !e.kind.OfficialTerminal? then
      Err("missing_original_override_only_for_matching_official_terminal")
    else Ok(previous.(historical := true))
  }

  /** Once the workbook was missing it stays missing, and no upload can be reported. */
  lemma HistoricalStays(r: Request, s: State, e: Event)
    requires Transition(r, s, e).Ok?
    ensures Transition(r, s, e).value.historical == s.historical
    ensures s.historical ==> !e.kind.UserUploaded?
  {
    hide SameScope, LiveRows, Readable, AllLive;
  }

  lemma AcceptedFromOpened(r: Request, previous: State, e: Event, workbookExists: bool, missingAllowed: bool)
    requires Opened(previous, e, workbookExists, missingAllowed).Ok?
    requires Transition(r, Opened(previous, e, workbookExists, missingAllowed).value, e).Ok?
    ensures var after := Transition(r, Opened(previous, e, workbookExists, missingAllowed).value, e).value;
            Accepts(r, previous, Entry(e, after)) && (!workbookExists ==> after.historical && !e.kind.UserUploaded?)
  {
    hide Transition;
    HistoricalStays(r, Opened(previous, e, workbookExists, missingAllowed).value, e);
  }

  class Trial {
    const request: Request
    var log: Log

    ghost predicate Valid() reads this { Logged(request, log) }

    constructor (r: Request)
      ensures Valid() && request == r && log == []
    {
      request, log := r, [];
    }

    /**
     * One event file. When the prepared workbook is gone only the matching official result
     * may still be recorded first, and the trial can never report an upload again.
     */
    method Record(e: Event, workbookExists: bool, missingAllowed: bool) returns (r: Result<State>)
      requires Valid()
      modifies this
      ensures Valid()
      ensures log == if r.Ok? then old(log) + [Entry(e, r.value)] else old(log)
      ensures workbookExists ==> r == Transition(request, LastState(old(log)), e)
      ensures !workbookExists && r.Ok? ==> r.value.historical && !e.kind.UserUploaded?
    {
      var start := Opened(LastState(log), e, workbookExists, missingAllowed);
      if start.Err? {
        return start;
      }
      r := Transition(request, start.value, e);
      if r.Ok? {
        AcceptedFromOpened(request, LastState(log), e, workbookExists, missingAllowed);
        LogExtended(request, log, Entry(e, r.value));
        log := log + [Entry(e, r.value)];
      }
    }
  }

  // ---------- what one accepted event may do ----------

  ghost predicate Settled(s: State) { s.terminal.Some? && s.terminal.value.status != NotProven }

  ghost predicate TerminalConsistent(r: Request, s: State) {
    s.terminal.Some? ==>
      s.terminal.value.marks.Keys == r.scope.Keys && s.terminal.value.status == StatusOf(s.terminal.value.marks)
  }

  /** The readback shows every authorized SKU running at its price under its original record. */
  ghost predicate ProvesWholeScope(r: Request, t: Terminal, reading: Reading) {
    && t.status == AllSuccess && Accepted(t) == r.scope.Keys
    && var rows := LiveRows(r.records.Keys, reading);
       && rows.Keys == r.scope.Keys && AllLive(rows)
       && forall p :: p in rows ==>
              p.item in r.records && rows[p].price == r.scope[p] && rows[p].record == r.records[p.item]
  }

  ghost predicate Lawful(r: Request, b: State, e: Event, a: State) {
    && (e.kind.UserUploaded? ==> b.phase == Prepared)
    && (a.phase == Prepared ==> b.phase == Prepared && !e.kind.UserUploaded?)
    && (Settled(b) ==> a.terminal == b.terminal)
    && (TerminalConsistent(r, b) ==> TerminalConsistent(r, a))
    && (if e.kind.SameRecordReadback? then
          && Settled(b) && b.terminal.value.reference == e.kind.reference
          && (TerminalConsistent(r, b) && a.complete ==> ProvesWholeScope(r, b.terminal.value, e.kind.reading))
        else a.complete ==> b.complete)
  }

  /** A readback changes the phase and the verdict only, for the operation that succeeded. */
  lemma ReadbackFrame(r: Request, b: State, reference: string, reading: Reading)
    requires TakeReadback(r, b, reference, reading).Ok?
    ensures var a := TakeReadback(r, b, reference, reading).value;
            && a == b.(phase := a.phase, supported := a.supported, complete := a.complete) && a.phase != Prepared
            && Settled(b) && b.terminal.value.reference == reference
  {
    hide SameScope, LiveRows, Readable, AllLive, Accepted, AcceptedItems;
  }

  /** A complete trial: every product was read back live, each SKU at its price and record. */
  lemma CompleteShows(r: Request, b: State, reference: string, reading: Reading)
    requires TakeReadback(r, b, reference, reading).Ok? && TakeReadback(r, b, reference, reading).value.complete
    ensures b.terminal.Some? && b.terminal.value.status == AllSuccess && Accepted(b.terminal.value) <= r.scope.Keys
    ensures var rows := LiveRows(r.records.Keys, reading);
            AllLive(rows) && SameScope(r, r.records.Keys, Accepted(b.terminal.value), rows)
  {
    hide Readable, AllLive, SameScope, Accepted, AcceptedItems;
  }

  lemma CompleteReadback(r: Request, b: State, reference: string, reading: Reading)
    requires TakeReadback(r, b, reference, reading).Ok? && TakeReadback(r, b, reference, reading).value.complete
    requires TerminalConsistent(r, b)
    ensures b.terminal.Some? && ProvesWholeScope(r, b.terminal.value, reading)
  {
    hide TakeReadback, AllLive;
    CompleteShows(r, b, reference, reading);
    AllSuccessAcceptsAll(r, b);
    hide TerminalConsistent, Accepted;
  }

  lemma AllSuccessAcceptsAll(r: Request, b: State)
    requires TerminalConsistent(r, b)
    ensures b.terminal.Some? && b.terminal.value.status == AllSuccess ==> Accepted(b.terminal.value) == r.scope.Keys
  {
  }

  lemma ReadbackIsLawful(r: Request, b: State, e: Event)
    requires e.kind.SameRecordReadback? && TakeReadback(r, b, e.kind.reference, e.kind.reading).Ok?
    ensures Lawful(r, b, e, TakeReadback(r, b, e.kind.reference, e.kind.reading).value)
  {
    hide TakeReadback, ProvesWholeScope;
    ReadbackFrame(r, b, e.kind.reference, e.kind.reading);
    if TerminalConsistent(r, b) && TakeReadback(r, b, e.kind.reference, e.kind.reading).value.complete {
      CompleteReadback(r, b, e.kind.reference, e.kind.reading);
    }
  }

  lemma TransitionIsLawful(r: Request, b: State, e: Event)
    requires Transition(r, b, e).Ok?
    ensures Lawful(r, b, e, Transition(r, b, e).value)
  {
    hide TakeReadback;
    if e.kind.SameRecordReadback? {
      ReadbackIsLawful(r, b, e);
    }
  }

  lemma LastStepIsLawful(r: Request, log: Log)
    requires Logged(r, log) && log != []
    ensures Lawful(r, LastState(log[..|log| - 1]), log[|log| - 1].event, LastState(log))
  {
    var b, e := LastState(log[..|log| - 1]), log[|log| - 1];
    var s := if Transition(r, b, e.event) == Ok(e.after) then b else b.(historical := true);
    TransitionIsLawful(r, s, e.event);
  }

  // ---------- over every log ----------

  function Uploads(log: Log): nat {
    if log == [] then 0
    else Uploads(log[..|log| - 1]) + if log[|log| - 1].event.kind.UserUploaded? then 1 else 0
  }

  /** Whatever events are accepted, the user's upload is reported at most once. */
  lemma {:induction false} UploadedAtMostOnce(r: Request, log: Log)
    requires Logged(r, log)
    ensures Uploads(log) <= 1
    ensures LastState(log).phase == Prepared ==> Uploads(log) == 0
  {
    if log != [] {
      UploadedAtMostOnce(r, log[..|log| - 1]);
      LastStepIsLawful(r, log);
    }
  }

  /** A proven official result is never replaced by any later event. */
  lemma {:induction false} TerminalIsFinal(r: Request, log: Log, i: nat)
    requires Logged(r, log) && i < |log| && Settled(log[i].after)
    ensures LastState(log).terminal == log[i].after.terminal
  {
    hide ProvesWholeScope, TerminalConsistent, Accepts;
    var n := |log| - 1;
    if i < n {
      TerminalIsFinal(r, log[..n], i);
      LastStepIsLawful(r, log);
    }
  }

  lemma {:induction false} TerminalsConsistent(r: Request, log: Log)
    requires Logged(r, log)
    ensures TerminalConsistent(r, LastState(log))
  {
    if log != [] {
      TerminalsConsistent(r, log[..|log| - 1]);
      LastStepIsLawful(r, log);
    }
  }

  /** Entry k is the readback that proved the whole scope under the result that stood then. */
  ghost predicate ProvedAt(r: Request, log: Log, k: nat) {
    && k < |log| && log[k].event.kind.SameRecordReadback? && Settled(LastState(log[..k]))
    && log[k].after.terminal == LastState(log[..k]).terminal
    && log[k].event.kind.reference == LastState(log[..k]).terminal.value.reference
    && ProvesWholeScope(r, LastState(log[..k]).terminal.value, log[k].event.kind.reading)
  }

  lemma {:induction false} FindReadback(r: Request, log: Log) returns (k: nat)
    requires Logged(r, log) && LastState(log).complete
    ensures ProvedAt(r, log, k)
  {
    var n := |log| - 1;
    LastStepIsLawful(r, log);
    if log[n].event.kind.SameRecordReadback? {
      TerminalsConsistent(r, log[..n]);
      k := n;
    } else {
      k := FindReadback(r, log[..n]);
      assert log[..n][..k] == log[..k];
    }
  }

  /**
   * A trial counts as complete only after the official result accepted every SKU and a later
   * readback, under the same operation, showed exactly the authorized scope running at its
   * prices; that result still stands.
   */
  lemma CompleteMeansReadBack(r: Request, log: Log) returns (k: nat)
    requires Logged(r, log) && LastState(log).complete
    ensures ProvedAt(r, log, k) && LastState(log).terminal == LastState(log[..k]).terminal
  {
    k := FindReadback(r, log);
    TerminalIsFinal(r, log, k);
  }
}
