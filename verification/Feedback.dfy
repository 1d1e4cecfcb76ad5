/**
 * Reading the complete official failure report of one batch: every expected product gets
 * exactly one outcome, every failed one at least one error bound to the batch. Text patterns
 * are abstracted to the mentions they yield.
 */
module Feedback {
  import opened CampaignTypes
  import opened Policy

  /** A row's success column. */
  datatype Mark = NoMark | SuccessMark | FailureMark | OtherMark

  /** A physical row below the header; help marks the explanatory row. */
  datatype Row = Row(item: string, sku: string, name: string, submitted: Option<Cents>, mark: Mark, message: string,
                     help: bool)

  /** A limit on a SKU that the message names by its attributes or by its number. */
  datatype Mention = Mention(text: string, kind: Kind, cap: Option<Cents>, observed: Option<Cents>, issue: Code,
                             invalid: bool)

  /** What the text patterns find in one message. */
  datatype Reading = Reading(shipping: bool, noSales: bool, direct: seq<Mention>, named: seq<Mention>, incomplete: bool)

  datatype Group = Group(rows: seq<Row>, messages: seq<string>, marks: set<Mark>)

  datatype Counts = Counts(total: int, success: int, failed: int, pending: int)

  datatype Outcome = Succeeded | Failed

  datatype Parsed = Parsed(errors: seq<Failure>, outcomes: seq<(Item, Outcome)>)

  /** The report's vocabulary: how messages are read and SKU names compared. */
  datatype Reader = Reader(read: string -> Reading, attributes: string -> string)

  predicate IsDigits(s: string) {
    s != "" && forall c :: c in s ==> '0' <= c <= '9'
  }

  predicate IsBlank(r: Row) {
    r.item == "" && r.sku == "" && r.name == "" && r.submitted.None? && r.mark == NoMark && r.message == ""
  }

  predicate IsData(r: Row) { !r.help && !IsBlank(r) }

  /** The product of the data row at i - 1: the last product number above or in it. */
  function Owner(rows: seq<Row>, i: nat): Option<Item>
    requires i <= |rows|
  {
    if i == 0 then None
    else if IsData(rows[i - 1]) && rows[i - 1].item != "" then Some(rows[i - 1].item)
    else Owner(rows, i - 1)
  }

  const NO_GROUP := Group([], [], {})

  /** A group with one more of its product's rows: a message counts once, an empty mark not at all. */
  function Taken(g: Group, r: Row): Group {
    Group(g.rows + [r],
          if r.message != "" && r.message !in g.messages then g.messages + [r.message] else g.messages,
          if r.mark != NoMark then g.marks + {r.mark} else g.marks)
  }

  /** Everything the first i rows say about one product. */
  function GroupAt(rows: seq<Row>, i: nat, item: Item): Group
    requires i <= |rows|
  {
    if i == 0 then NO_GROUP
    else if IsData(rows[i - 1]) && Owner(rows, i) == Some(item) then Taken(GroupAt(rows, i - 1, item), rows[i - 1])
    else GroupAt(rows, i - 1, item)
  }

  /** The groups are exactly the products of the data rows read so far, in order of appearance. */
  ghost predicate Scanned(groups: map<Item, Group>, order: seq<Item>, rows: seq<Row>, i: nat)
    requires i <= |rows|
  {
    && NoDuplicates(order) && SetOf(order) == groups.Keys
    && (forall item :: item in groups ==> IsDigits(item) && groups[item] == GroupAt(rows, i, item)
                                          && groups[item].rows != [])
    && (forall item :: item !in groups ==> GroupAt(rows, i, item) == NO_GROUP)
  }

  /** A row says nothing about other products. */
  lemma OtherGroup(rows: seq<Row>, i: nat, item: Item, other: Item)
    requires i < |rows| && Owner(rows, i + 1) == Some(item) && other != item
    ensures GroupAt(rows, i + 1, other) == GroupAt(rows, i, other)
  {
  }

  lemma TakeRow(groups: map<Item, Group>, order: seq<Item>, rows: seq<Row>, i: nat, item: Item)
    requires i < |rows| && Scanned(groups, order, rows, i) && IsData(rows[i]) && IsDigits(item)
    requires Owner(rows, i + 1) == Some(item)
    ensures Scanned(groups[item := Taken(GroupAt(rows, i, item), rows[i])],
                    if item in groups then order else order + [item], rows, i + 1)
  {
    SetOfAppend(order, item);
    assert item in SetOf(order) <==> item in order;
    if item !in groups {
      AppendDistinct(order, item);
    }
    forall other | other != item
      ensures GroupAt(rows, i + 1, other) == GroupAt(rows, i, other)
    {
      OtherGroup(rows, i, item, other);
    }
  }

  lemma SkipRow(groups: map<Item, Group>, order: seq<Item>, rows: seq<Row>, i: nat)
    requires i < |rows| && Scanned(groups, order, rows, i) && !IsData(rows[i])
    ensures Scanned(groups, order, rows, i + 1) && Owner(rows, i + 1) == Owner(rows, i)
    ensures DataPairs(rows, i + 1) == DataPairs(rows, i) && DataCount(rows, i + 1) == DataCount(rows, i)
  {
  }

  /** The physical SKUs of the first i rows, each under the product above it. */
  function DataPairs(rows: seq<Row>, i: nat): seq<Pair>
    requires i <= |rows|
  {
    if i == 0 then []
    else if IsData(rows[i - 1]) && Owner(rows, i).Some? then
      DataPairs(rows, i - 1) + [Pair(Owner(rows, i).value, rows[i - 1].sku)]
    else DataPairs(rows, i - 1)
  }

  function DataCount(rows: seq<Row>, i: nat): nat
    requires i <= |rows|
  {
    if i == 0 then 0 else DataCount(rows, i - 1) + if IsData(rows[i - 1]) then 1 else 0
  }

  /** Every data row has a product and a numeric SKU, and no product lists a SKU twice. */
  ghost predicate DistinctRows(seen: set<Pair>, rows: seq<Row>, i: nat)
    requires i <= |rows|
  {
    |DataPairs(rows, i)| == DataCount(rows, i) && DistinctPairs(seen, DataPairs(rows, i))
  }

  ghost predicate DistinctPairs(seen: set<Pair>, pairs: seq<Pair>) {
    NoDuplicates(pairs) && seen == SetOf(pairs) && forall p :: p in pairs ==> IsDigits(p.sku)
  }

  lemma DistinctRow(seen: set<Pair>, rows: seq<Row>, i: nat, item: Item)
    requires i < |rows| && DistinctRows(seen, rows, i) && IsData(rows[i]) && IsDigits(rows[i].sku)
    requires Owner(rows, i + 1) == Some(item) && Pair(item, rows[i].sku) !in seen
    ensures DistinctRows(seen + {Pair(item, rows[i].sku)}, rows, i + 1)
  {
  }

  /** The products that the first i rows report. */
  function Reported(rows: seq<Row>, i: nat): set<Item>
    requires i <= |rows|
  {
    if i == 0 then {}
    else if IsData(rows[i - 1]) && Owner(rows, i).Some? then Reported(rows, i - 1) + {Owner(rows, i).value}
    else Reported(rows, i - 1)
  }

  lemma {:induction false} ReportedHasRows(rows: seq<Row>, i: nat, item: Item)
    requires i <= |rows|
    ensures item in Reported(rows, i) <==> GroupAt(rows, i, item).rows != []
  {
    if i > 0 {
      ReportedHasRows(rows, i - 1, item);
    }
  }

  lemma ScannedIsReported(groups: map<Item, Group>, order: seq<Item>, rows: seq<Row>, i: nat)
    requires i <= |rows| && Scanned(groups, order, rows, i)
    ensures groups.Keys == Reported(rows, i)
  {
    forall item ensures item in groups <==> item in Reported(rows, i) {
      ReportedHasRows(rows, i, item);
    }
  }

  /**
   * A data row that can be read: numeric ids, a product that is new or the current one, and a SKU
   * that its product did not list before.
   */
  predicate RowReadable(rows: seq<Row>, i: nat)
    requires i < |rows|
  {
    var r, current := rows[i], Owner(rows, i);
    IsData(r) ==>
      && (r.item != "" ==> IsDigits(r.item) && (r.item in Reported(rows, i) ==> current == Some(r.item)))
      && Owner(rows, i + 1).Some? && IsDigits(r.sku)
      && Pair(Owner(rows, i + 1).value, r.sku) !in DataPairs(rows, i)
  }

  /** One data row: the product it belongs to, or the report is malformed. */
  method ReadRow(rows: seq<Row>, i: nat, groups: map<Item, Group>, current: Option<Item>, seen: set<Pair>)
    returns (item: Result<Item>)
    requires i < |rows| && IsData(rows[i]) && current == Owner(rows, i)
    requires current.Some? ==> IsDigits(current.value)
    requires groups.Keys == Reported(rows, i) && seen == SetOf(DataPairs(rows, i))
    ensures item.Ok? <==> RowReadable(rows, i)
    ensures item.Ok? ==> Owner(rows, i + 1) == Some(item.value) && IsDigits(item.value) && IsDigits(rows[i].sku)
                         && Pair(item.value, rows[i].sku) !in seen
                         && (rows[i].item in groups ==> current == Some(rows[i].item) || rows[i].item == "")
  {
    var r := rows[i];
    if r.item != "" && (!IsDigits(r.item) || (r.item in groups && Some(r.item) != current)) {
      return Err("invalid_or_noncontiguous_report_product");
    }
    var owner := if r.item != "" then Some(r.item) else current;
    if owner.None? || !IsDigits(r.sku) {
      return Err("orphan_or_invalid_report_sku_row");
    }
    if Pair(owner.value, r.sku) in seen {
      return Err("duplicate_report_sku");
    }
    item := Ok(owner.value);
  }

  /** The row scan; products are contiguous and no SKU row repeats. */
  method Scan(rows: seq<Row>) returns (result: Result<(map<Item, Group>, seq<Item>)>, seen: set<Pair>)
    ensures result.Ok? ==> Scanned(result.value.0, result.value.1, rows, |rows|) && DistinctRows(seen, rows, |rows|)
    ensures result.Ok? <==> forall i :: 0 <= i < |rows| ==> RowReadable(rows, i)
  {
    var groups: map<Item, Group>, order: seq<Item>, current: Option<Item> := map[], [], None;
    seen := {};
    for i := 0 to |rows|
      invariant Scanned(groups, order, rows, i)
      invariant DistinctRows(seen, rows, i)
      invariant current == Owner(rows, i) && (current.Some? ==> IsDigits(current.value))
      invariant forall j :: 0 <= j < i ==> RowReadable(rows, j)
    {
      if !IsData(rows[i]) {
        SkipRow(groups, order, rows, i);
      } else {
        ScannedIsReported(groups, order, rows, i);
        var item := ReadRow(rows, i, groups, current, seen);
        if item.Err? {
          return Err(item.error), seen;
        }
        DistinctRow(seen, rows, i, item.value);
        TakeRow(groups, order, rows, i, item.value);
        current, seen := Some(item.value), seen + {Pair(item.value, rows[i].sku)};
        order, groups := if item.value in groups then order else order + [item.value],
                         groups[item.value :=
                             Taken(if item.value in groups then groups[item.value] else NO_GROUP, rows[i])];
      }
    }
    result := Ok((groups, order));
  }

  // ---------- errors of one failed product ----------

  const NO_FACTS := Facts(None, None, None, false, None, None, None, None, None, None, None)

  /** An error bound to the official failure of one product in one batch. */
  function ErrorFor(item: Item, sku: Sku, kind: Kind, issue: Code, batch: string, message: string, shipping: bool,
                    cap: Option<Cents>, observed: Option<Cents>, invalid: bool, submitted: Option<Cents>): Failure
  {
    Failure(item, sku, kind, issue, batch,
            Proof(true, true, message, shipping, false, false, invalid, false, "", [], cap, observed),
            NO_FACTS.(submitted := submitted))
  }


  /** A mention counts only when it matches exactly one row of the product. */
  function MentionError(item: Item, m: Mention, matches: seq<Row>, ambiguous: Code, batch: string, message: string)
    : (e: Failure)
    ensures e.item == item
  {
    if |matches| != 1 then ErrorFor(item, "", UnknownKind, ambiguous, batch, message, false, None, None, false, None)
    else ErrorFor(item, matches[0].sku, m.kind, m.issue, batch, message, false, m.cap, m.observed, m.invalid,
                  matches[0].submitted)
  }

  function MentionErrors(item: Item, mentions: seq<Mention>, g: Group, direct: bool, batch: string, message: string,
                         reader: Reader): (r: seq<Failure>)
    ensures |r| == |mentions| && forall e :: e in r ==> e.item == item
    ensures forall e :: e in r ==> e.proof.failed && e.proof.evidence && e.batch == batch
  {
    if mentions == [] then []
    else
      var m := mentions[0];
      var matches := if direct then Filter(g.rows, (x: Row) => x.sku == m.text)
                     else Filter(g.rows, (x: Row) => reader.attributes(x.name) == reader.attributes(m.text));
      [MentionError(item, m, matches, if direct then SkuIdNotInFile else SkuNameAmbiguous, batch, message)]
      + MentionErrors(item, mentions[1..], g, direct, batch, message, reader)
  }

  /** Every message of a failed product yields at least one error; unread text is kept as unknown. */
  function MessageErrors(item: Item, message: string, g: Group, batch: string, reader: Reader): (r: seq<Failure>)
    ensures r != [] && forall e :: e in r ==> e.item == item && e.proof.failed && e.proof.evidence && e.batch == batch
  {
    var reading := reader.read(message);
    var direct := MentionErrors(item, reading.direct, g, true, batch, message, reader);
    var named := MentionErrors(item, reading.named, g, false, batch, message, reader);
    var unparsed := ErrorFor(item, "", UnknownKind, UnparsedFailure, batch, message, false, None, None, false, None);
    if reading.shipping then
      [ErrorFor(item, "", UnknownKind, FreeShippingRequired, batch, message, true, None, None, false, None)]
    else if reading.direct != [] && reading.named == [] then direct
    else direct + (if reading.named == [] || reading.incomplete then [unparsed] else []) + named
  }

  function AllMessageErrors(item: Item, messages: seq<string>, g: Group, batch: string, reader: Reader)
    : (r: seq<Failure>)
    ensures messages != [] ==> r != []
    ensures forall e :: e in r ==> e.item == item && e.proof.failed && e.proof.evidence && e.batch == batch
  {
    if messages == [] then []
    else MessageErrors(item, messages[0], g, batch, reader) + AllMessageErrors(item, messages[1..], g, batch, reader)
  }

  function JoinLines(messages: seq<string>): string {
    if messages == [] then "" else if |messages| == 1 then messages[0]
    else messages[0] + "\n" + JoinLines(messages[1..])
  }

  /** A product-specific zero-sales verdict excludes the whole product from this campaign. */
  function GroupErrors(item: Item, g: Group, batch: string, reader: Reader): (r: seq<Failure>)
    ensures g.messages != [] ==> r != []
    ensures forall e :: e in r ==> e.item == item && e.proof.failed && e.proof.evidence && e.batch == batch
  {
    if exists m :: m in g.messages && reader.read(m).noSales then
      [ErrorFor(item, "", NoSales, Blank, batch, JoinLines(g.messages), false, None, None, false, None)]
    else AllMessageErrors(item, g.messages, g, batch, reader)
  }

  // ---------- the outcomes ----------

  function OutcomeItems(outcomes: seq<(Item, Outcome)>): seq<Item> {
    seq(|outcomes|, i requires 0 <= i < |outcomes| => outcomes[i].0)
  }

  function CountOf(outcomes: seq<(Item, Outcome)>, o: Outcome): nat {
    if outcomes == [] then 0
    else CountOf(outcomes[..|outcomes| - 1], o) + if outcomes[|outcomes| - 1].1 == o then 1 else 0
  }

  predicate CountsAgree(c: Counts, outcomes: seq<(Item, Outcome)>) {
    c.pending == 0 && c.total == |outcomes| && c.success == CountOf(outcomes, Succeeded)
    && c.failed == CountOf(outcomes, Failed)
  }

  function FailedItems(outcomes: seq<(Item, Outcome)>): set<Item> {
    set o | o in outcomes && o.1 == Failed :: o.0
  }

  /** What the report says about a product decides its outcome; a failure brings all its errors. */
  ghost predicate OutcomeFits(o: (Item, Outcome), g: Group, errors: seq<Failure>, batch: string, reader: Reader) {
    if o.1 == Succeeded then g.marks == {SuccessMark}
    else
      && g.marks == {FailureMark} && g.messages != []
      && (forall e :: e in GroupErrors(o.0, g, batch, reader) ==> e in errors)
  }

  /** This error is one of those that the failed product's messages bring. */
  predicate Brings(o: (Item, Outcome), g: Group, e: Failure, batch: string, reader: Reader) {
    o.1 == Failed && e in GroupErrors(o.0, g, batch, reader)
  }

  ghost predicate Brought(outcomes: seq<(Item, Outcome)>, groups: map<Item, Group>, e: Failure, batch: string,
                          reader: Reader) {
    exists o :: o in outcomes && o.0 in groups && Brings(o, groups[o.0], e, batch, reader)
  }

  ghost predicate Explained(outcomes: seq<(Item, Outcome)>, rows: seq<Row>, e: Failure, batch: string,
                            reader: Reader) {
    exists o :: o in outcomes && Brings(o, GroupAt(rows, |rows|, o.0), e, batch, reader)
  }

  /** The decided products so far, each with its outcome, the failed ones with their errors. */
  ghost predicate Decided(p: Parsed, order: seq<Item>, groups: map<Item, Group>, batch: string, reader: Reader) {
    && OutcomeItems(p.outcomes) == order
    && ItemsOf(p.errors) == FailedItems(p.outcomes)
    && (forall e :: e in p.errors ==> e.proof.failed && e.proof.evidence && e.batch == batch)
    && (forall e :: e in p.errors ==> Brought(p.outcomes, groups, e, batch, reader))
    && (forall o :: o in p.outcomes ==> o.0 in groups && OutcomeFits(o, groups[o.0], p.errors, batch, reader))
  }

  lemma BroughtByOneMore(p: Parsed, order: seq<Item>, groups: map<Item, Group>, batch: string, reader: Reader,
                         item: Item, failed: bool, e: Failure)
    requires Decided(p, order, groups, batch, reader) && item in groups
    requires e in p.errors || (failed && e in GroupErrors(item, groups[item], batch, reader))
    ensures Brought(p.outcomes + [(item, if failed then Failed else Succeeded)], groups, e, batch, reader)
  {
    hide GroupErrors, OutcomeFits;
    var outcomes := p.outcomes + [(item, if failed then Failed else Succeeded)];
    if e in p.errors {
      var o :| o in p.outcomes && o.0 in groups && Brings(o, groups[o.0], e, batch, reader);
      assert o in outcomes;
    } else {
      assert outcomes[|p.outcomes|] in outcomes && Brings((item, Failed), groups[item], e, batch, reader);
    }
  }

  lemma StillFits(o: (Item, Outcome), g: Group, errors: seq<Failure>, more: seq<Failure>, batch: string,
                  reader: Reader)
    requires OutcomeFits(o, g, errors, batch, reader)
    ensures OutcomeFits(o, g, errors + more, batch, reader)
  {
    hide GroupErrors;
  }

  lemma DecideOne(p: Parsed, order: seq<Item>, groups: map<Item, Group>, batch: string, reader: Reader, item: Item,
                  failed: bool)
    requires Decided(p, order, groups, batch, reader) && item in groups
    requires if failed then groups[item].marks == {FailureMark} && groups[item].messages != []
             else groups[item].marks == {SuccessMark}
    ensures var errors := if failed then GroupErrors(item, groups[item], batch, reader) else [];
            Decided(Parsed(p.errors + errors, p.outcomes + [(item, if failed then Failed else Succeeded)]),
                    order + [item], groups, batch, reader)
  {
    var errors := if failed then GroupErrors(item, groups[item], batch, reader) else [];
    var one := (item, if failed then Failed else Succeeded);
    var outcomes := p.outcomes + [one];
    assert OutcomeItems(outcomes) == order + [item];
    assert OutcomeFits(one, groups[item], p.errors + errors, batch, reader);
    assert failed ==> errors[0] in errors && errors[0].item == item;
    hide GroupErrors, OutcomeFits;
    forall e | e in p.errors + errors ensures Brought(outcomes, groups, e, batch, reader) {
      BroughtByOneMore(p, order, groups, batch, reader, item, failed, e);
    }
    hide Brought;
    forall o | o in outcomes ensures o.0 in groups && OutcomeFits(o, groups[o.0], p.errors + errors, batch, reader) {
      if o in p.outcomes {
        StillFits(o, groups[o.0], p.errors, errors, batch, reader);
      }
    }
    assert ItemsOf(p.errors + errors) == ItemsOf(p.errors) + if failed then {item} else {};
    assert FailedItems(outcomes) == FailedItems(p.outcomes) + if failed then {item} else {};
  }

  /** All rows of the product say success, or all say failure and some message says why. */
  predicate Decidable(g: Group) {
    g.marks == {SuccessMark} || (g.marks == {FailureMark} && g.messages != [])
  }

  method Decide(groups: map<Item, Group>, order: seq<Item>, batch: string, reader: Reader) returns (r: Result<Parsed>)
    requires SetOf(order) == groups.Keys
    ensures r.Ok? ==> Decided(r.value, order, groups, batch, reader)
    ensures r.Ok? <==> forall i :: i in groups ==> Decidable(groups[i])
  {
    var p := Parsed([], []);
    assert forall i :: i in groups <==> i in order;
    for i := 0 to |order|
      invariant Decided(p, order[..i], groups, batch, reader)
      invariant forall j :: 0 <= j < i ==> Decidable(groups[order[j]])
    {
      var item := order[i];
      assert item in SetOf(order);
      var g := groups[item];
      assert order[..i + 1] == order[..i] + [item];
      if g.marks == {SuccessMark} {
        DecideOne(p, order[..i], groups, batch, reader, item, false);
        assert p.errors + [] == p.errors;
        p := Parsed(p.errors, p.outcomes + [(item, Succeeded)]);
      } else if g.marks != {FailureMark} || g.messages == [] {
        return Err("official_failed_outcome_not_proven");
      } else {
        DecideOne(p, order[..i], groups, batch, reader, item, true);
        p := Parsed(p.errors + GroupErrors(item, g, batch, reader), p.outcomes + [(item, Failed)]);
      }
    }
    assert order[..|order|] == order;
    r := Ok(p);
  }

  /** The complement of a failures-only report is inferred only from the batch's complete counts. */
  predicate ComplementProven(groups: map<Item, Group>, expected: seq<Item>, counts: Option<Counts>) {
    && counts.Some? && groups.Keys <= SetOf(expected)
    && counts.value.pending == 0 && counts.value.total == |expected|
    && counts.value.failed == |groups| && counts.value.success == |expected| - |groups|
    && forall i :: i in groups ==> groups[i].marks == {FailureMark}
  }

  /** The reported products whose rows all say failed. */
  function Failing(rows: seq<Row>): set<Item> {
    set i | i in Reported(rows, |rows|) && GroupAt(rows, |rows|, i).marks == {FailureMark}
  }

  /**
   * A report that can be used: readable rows, decided products, exactly the expected ones or only
   * failed ones of them with complete counts, and no counts that say otherwise.
   */
  ghost predicate Acceptable(rows: seq<Row>, expected: seq<Item>, counts: Option<Counts>) {
    && expected != [] && NoDuplicates(expected) && (forall i :: i in expected ==> IsDigits(i))
    && (forall i :: 0 <= i < |rows| ==> RowReadable(rows, i))
    && Settles(rows, expected, counts)
  }

  lemma {:induction false} DistinctCount<T>(s: seq<T>)
    requires NoDuplicates(s)
    ensures |SetOf(s)| == |s|
  {
    if s != [] {
      var n := |s| - 1;
      DistinctCount(s[..n]);
      assert s == s[..n] + [s[n]];
      SetOfAppend(s[..n], s[n]);
    }
  }

  lemma FailedOneMore(rest: seq<(Item, Outcome)>, last: (Item, Outcome))
    requires forall o :: o in rest ==> o.0 != last.0
    ensures FailedItems(rest + [last]) == if last.1 == Failed then FailedItems(rest) + {last.0} else FailedItems(rest)
    ensures last.0 !in FailedItems(rest)
  {
    assert forall o :: o in rest + [last] <==> o in rest || o == last;
  }

  lemma LastIsNew(outcomes: seq<(Item, Outcome)>, o: (Item, Outcome))
    requires outcomes != [] && NoDuplicates(OutcomeItems(outcomes)) && o in outcomes[..|outcomes| - 1]
    ensures o.0 != outcomes[|outcomes| - 1].0
  {
    var n := |outcomes| - 1;
    var i :| 0 <= i < n && outcomes[i] == o;
    assert OutcomeItems(outcomes)[i] == o.0 && OutcomeItems(outcomes)[n] == outcomes[n].0;
  }

  lemma {:induction false} FailuresCounted(outcomes: seq<(Item, Outcome)>)
    requires NoDuplicates(OutcomeItems(outcomes))
    ensures CountOf(outcomes, Failed) == |FailedItems(outcomes)|
    ensures CountOf(outcomes, Succeeded) + CountOf(outcomes, Failed) == |outcomes|
  {
    if outcomes != [] {
      hide FailedItems;
      var n := |outcomes| - 1;
      var rest, last := outcomes[..n], outcomes[n];
      assert OutcomeItems(rest) == OutcomeItems(outcomes)[..n];
      FailuresCounted(rest);
      assert outcomes == rest + [last];
      forall o | o in rest ensures o.0 != last.0 {
        LastIsNew(outcomes, o);
      }
      FailedOneMore(rest, last);
    } else {
      assert FailedItems(outcomes) == {};
    }
  }

  /** The decided products are failed exactly where all their rows say so. */
  lemma FailedAreFailing(p: Parsed, rows: seq<Row>, groups: map<Item, Group>, order: seq<Item>, batch: string,
                         reader: Reader)
    requires Scanned(groups, order, rows, |rows|) && Decided(p, order, groups, batch, reader)
    ensures FailedItems(p.outcomes) == Failing(rows)
  {
    ScannedIsReported(groups, order, rows, |rows|);
    forall i | i in groups ensures i in FailedItems(p.outcomes) <==> groups[i].marks == {FailureMark} {
      assert i in order;
      var k :| 0 <= k < |order| && order[k] == i;
      assert OutcomeItems(p.outcomes)[k] == p.outcomes[k].0 && p.outcomes[k] in p.outcomes;
      if i in FailedItems(p.outcomes) {
        var o :| o in p.outcomes && o.1 == Failed && o.0 == i;
      }
    }
  }

  /** Counts agree with the outcomes exactly when they are the numbers of the expected and failing products. */
  lemma CountsAreExact(c: Counts, outcomes: seq<(Item, Outcome)>, expected: seq<Item>, failing: set<Item>)
    requires NoDuplicates(OutcomeItems(outcomes)) && NoDuplicates(expected)
    requires SetOf(OutcomeItems(outcomes)) == SetOf(expected) && FailedItems(outcomes) == failing
    ensures CountsAgree(c, outcomes) <==> c == Counts(|expected|, |expected| - |failing|, |failing|, 0)
  {
    DistinctCount(expected);
    DistinctCount(OutcomeItems(outcomes));
    FailuresCounted(outcomes);
  }

  /** The scope check of the program, read off the rows. */
  lemma ScopeIsProven(rows: seq<Row>, groups: map<Item, Group>, order: seq<Item>, expected: seq<Item>,
                      counts: Option<Counts>)
    requires Scanned(groups, order, rows, |rows|)
    ensures groups.Keys == Reported(rows, |rows|)
    ensures ComplementProven(groups, expected, counts)
            <==> && counts.Some? && Reported(rows, |rows|) == Failing(rows) && Failing(rows) <= SetOf(expected)
                 && counts.value == Counts(|expected|, |expected| - |Failing(rows)|, |Failing(rows)|, 0)
  {
    ScannedIsReported(groups, order, rows, |rows|);
    AllFailing(rows, groups, order);
    hide Scanned, Failing, Reported, SetOf;
    assert |groups| == |groups.Keys|;
  }

  lemma AllFailing(rows: seq<Row>, groups: map<Item, Group>, order: seq<Item>)
    requires Scanned(groups, order, rows, |rows|) && groups.Keys == Reported(rows, |rows|)
    ensures groups.Keys == Failing(rows) <==> forall i :: i in groups ==> groups[i].marks == {FailureMark}
  {
  }

  /**
   * Every expected product has exactly one outcome, the one its own report rows state; a product
   * without rows succeeds only by the batch's complete counts; exactly the failed ones have errors.
   */
  ghost predicate Complete(p: Parsed, rows: seq<Row>, expected: seq<Item>, counts: Option<Counts>, batch: string,
                           reader: Reader) {
    && NoDuplicates(OutcomeItems(p.outcomes)) && SetOf(OutcomeItems(p.outcomes)) == SetOf(expected)
    && ItemsOf(p.errors) == FailedItems(p.outcomes)
    && (forall e :: e in p.errors ==> e.proof.failed && e.proof.evidence && e.batch == batch)
    && (counts.Some? ==> CountsAgree(counts.value, p.outcomes))
    && (forall e :: e in p.errors ==> Explained(p.outcomes, rows, e, batch, reader))
    && (forall o :: o in p.outcomes ==> Stated(o, rows, p.errors, counts, batch, reader))
  }

  ghost predicate Stated(o: (Item, Outcome), rows: seq<Row>, errors: seq<Failure>, counts: Option<Counts>,
                         batch: string, reader: Reader) {
    || OutcomeFits(o, GroupAt(rows, |rows|, o.0), errors, batch, reader)
    || (o.1 == Succeeded && counts.Some? && GroupAt(rows, |rows|, o.0) == NO_GROUP)
  }

  /** One more expected product; it is inferred successful when the report does not name it. */
  method InferOne(q: Parsed, item: Item) returns (r: Parsed)
    requires NoDuplicates(OutcomeItems(q.outcomes))
    ensures r.errors == q.errors && FailedItems(r.outcomes) == FailedItems(q.outcomes)
    ensures NoDuplicates(OutcomeItems(r.outcomes))
    ensures SetOf(OutcomeItems(r.outcomes)) == SetOf(OutcomeItems(q.outcomes)) + {item}
    ensures forall o :: o in r.outcomes <==>
                        o in q.outcomes || (o == (item, Succeeded) && item !in OutcomeItems(q.outcomes))
  {
    var known := OutcomeItems(q.outcomes);
    if item in known {
      assert SetOf(known) + {item} == SetOf(known);
      return q;
    }
    r := q.(outcomes := q.outcomes + [(item, Succeeded)]);
    assert OutcomeItems(r.outcomes) == known + [item];
    SetOfAppend(known, item);
  }

  method Infer(p: Parsed, expected: seq<Item>) returns (q: Parsed)
    requires NoDuplicates(OutcomeItems(p.outcomes))
    requires SetOf(OutcomeItems(p.outcomes)) <= SetOf(expected)
    ensures q.errors == p.errors && FailedItems(q.outcomes) == FailedItems(p.outcomes)
    ensures NoDuplicates(OutcomeItems(q.outcomes)) && SetOf(OutcomeItems(q.outcomes)) == SetOf(expected)
    ensures forall o :: o in q.outcomes ==> o in p.outcomes || (o.1 == Succeeded && o.0 !in OutcomeItems(p.outcomes))
  {
    q := p;
    for i := 0 to |expected|
      invariant q.errors == p.errors && FailedItems(q.outcomes) == FailedItems(p.outcomes)
      invariant NoDuplicates(OutcomeItems(q.outcomes))
      invariant SetOf(OutcomeItems(q.outcomes)) == SetOf(OutcomeItems(p.outcomes)) + SetOf(expected[..i])
      invariant forall o :: o in q.outcomes ==>
                  o in p.outcomes || (o.1 == Succeeded && o.0 !in OutcomeItems(p.outcomes))
    {
      assert expected[..i + 1] == expected[..i] + [expected[i]];
      SetOfAppend(expected[..i], expected[i]);
      assert forall x :: x in OutcomeItems(p.outcomes) ==> x in SetOf(OutcomeItems(p.outcomes));
      assert forall x :: x in SetOf(OutcomeItems(q.outcomes)) ==> x in OutcomeItems(q.outcomes);
      q := InferOne(q, expected[i]);
    }
    assert expected[..|expected|] == expected;
  }

  /** Decided groups and their inferred complement state only what the rows or the counts prove. */
  lemma AllStated(p: Parsed, q: Parsed, rows: seq<Row>, groups: map<Item, Group>, order: seq<Item>,
                  expected: seq<Item>, counts: Option<Counts>, batch: string, reader: Reader, o: (Item, Outcome))
    requires Scanned(groups, order, rows, |rows|) && Decided(p, order, groups, batch, reader) && q.errors == p.errors
    requires groups.Keys == SetOf(expected) || ComplementProven(groups, expected, counts)
    requires o in p.outcomes || (o.1 == Succeeded && o.0 !in OutcomeItems(p.outcomes) && o.0 in SetOf(expected))
    ensures Stated(o, rows, q.errors, counts, batch, reader)
  {
  }

  /** What a product's messages bring is what its report rows say. */
  lemma EveryExplained(p: Parsed, q: Parsed, rows: seq<Row>, groups: map<Item, Group>, order: seq<Item>,
                       batch: string, reader: Reader)
    requires Scanned(groups, order, rows, |rows|) && Decided(p, order, groups, batch, reader) && q.errors == p.errors
    requires FailedItems(q.outcomes) == FailedItems(p.outcomes)
    ensures forall e :: e in q.errors ==> Explained(q.outcomes, rows, e, batch, reader)
  {
    hide GroupErrors, OutcomeFits;
    forall e | e in q.errors ensures Explained(q.outcomes, rows, e, batch, reader) {
      assert Brought(p.outcomes, groups, e, batch, reader);
      var o :| o in p.outcomes && o.0 in groups && Brings(o, groups[o.0], e, batch, reader);
      assert o.0 in FailedItems(q.outcomes);
      var other :| other in q.outcomes && other.1 == Failed && other.0 == o.0;
      assert other == o && groups[o.0] == GroupAt(rows, |rows|, o.0);
    }
  }

  /** What the scanned products must still meet. */
  ghost predicate Settles(rows: seq<Row>, expected: seq<Item>, counts: Option<Counts>) {
    var reported, failing := Reported(rows, |rows|), Failing(rows);
    && (forall i :: i in reported ==> Decidable(GroupAt(rows, |rows|, i)))
    && (reported == SetOf(expected) || (counts.Some? && reported == failing <= SetOf(expected)))
    && (counts.Some? ==> counts.value == Counts(|expected|, |expected| - |failing|, |failing|, 0))
  }

  /** The outcomes of the scanned products and of the inferred complement. */
  method Settle(groups: map<Item, Group>, order: seq<Item>, rows: seq<Row>, expected: seq<Item>, counts: Option<Counts>,
                batch: string, reader: Reader) returns (r: Result<Parsed>)
    requires Scanned(groups, order, rows, |rows|) && NoDuplicates(expected)
    ensures r.Ok? ==> Complete(r.value, rows, expected, counts, batch, reader)
    ensures r.Ok? <==> Settles(rows, expected, counts)
  {
    hide Decidable, OutcomeFits, ComplementProven, CountsAgree, Failing, Reported, FailedItems, Stated, Explained,
      Brought;
    ScopeIsProven(rows, groups, order, expected, counts);
    AllDecidable(rows, groups, order);
    if groups.Keys != SetOf(expected) && !ComplementProven(groups, expected, counts) {
      return Err("official_report_failed_scope_mismatch");
    }
    var decided := Decide(groups, order, batch, reader);
    if decided.Err? {
      return Err(decided.error);
    }
    var p := Infer(decided.value, expected);
    FailedAreFailing(decided.value, rows, groups, order, batch, reader);
    if counts.Some? {
      CountsAreExact(counts.value, p.outcomes, expected, Failing(rows));
    }
    if counts.Some? && !CountsAgree(counts.value, p.outcomes) {
      return Err("feedback_and_official_batch_counts_disagree");
    }
    EveryExplained(decided.value, p, rows, groups, order, batch, reader);
    EveryStated(decided.value, p, rows, groups, order, expected, counts, batch, reader);
    r := Ok(p);
  }

  method ParseFeedback(rows: seq<Row>, expected: seq<Item>, counts: Option<Counts>, batch: string, reader: Reader)
    returns (r: Result<Parsed>)
    ensures r.Ok? ==> Complete(r.value, rows, expected, counts, batch, reader)
    ensures r.Ok? <==> Acceptable(rows, expected, counts)
  {
    hide Settles, RowReadable, Complete, Scanned, DistinctRows;
    if expected == [] || !NoDuplicates(expected) || exists i | i in expected :: !IsDigits(i) {
      return Err("exact_failed_items_required");
    }
    var scan, _ := Scan(rows);
    if scan.Err? {
      return Err(scan.error);
    }
    r := Settle(scan.value.0, scan.value.1, rows, expected, counts, batch, reader);
  }

  lemma AllDecidable(rows: seq<Row>, groups: map<Item, Group>, order: seq<Item>)
    requires Scanned(groups, order, rows, |rows|) && groups.Keys == Reported(rows, |rows|)
    ensures (forall i :: i in groups ==> Decidable(groups[i]))
            <==> forall i :: i in Reported(rows, |rows|) ==> Decidable(GroupAt(rows, |rows|, i))
  {
  }

  lemma EveryStated(p: Parsed, q: Parsed, rows: seq<Row>, groups: map<Item, Group>, order: seq<Item>,
                    expected: seq<Item>, counts: Option<Counts>, batch: string, reader: Reader)
    requires Scanned(groups, order, rows, |rows|) && Decided(p, order, groups, batch, reader) && q.errors == p.errors
    requires groups.Keys == SetOf(expected) || ComplementProven(groups, expected, counts)
    requires SetOf(OutcomeItems(q.outcomes)) == SetOf(expected)
    requires forall o :: o in q.outcomes ==> o in p.outcomes || (o.1 == Succeeded && o.0 !in OutcomeItems(p.outcomes))
    ensures forall o :: o in q.outcomes ==> Stated(o, rows, q.errors, counts, batch, reader)
  {
    hide Scanned, Decided, Stated, ComplementProven;
    forall o | o in q.outcomes
      ensures Stated(o, rows, q.errors, counts, batch, reader)
    {
      InOutcomes(q.outcomes, o);
      AllStated(p, q, rows, groups, order, expected, counts, batch, reader, o);
    }
  }

  lemma InOutcomes(outcomes: seq<(Item, Outcome)>, o: (Item, Outcome))
    requires o in outcomes
    ensures o.0 in SetOf(OutcomeItems(outcomes))
  {
    var i :| 0 <= i < |outcomes| && outcomes[i] == o;
    assert OutcomeItems(outcomes)[i] == o.0;
  }

  /**
   * The products with errors, and only those, are the ones whose report rows all say failed; they
   * are what normalization and classification then split into repairs and exceptions.
   */
  lemma ReportedFailuresHaveErrors(p: Parsed, rows: seq<Row>, expected: seq<Item>, counts: Option<Counts>,
                                    batch: string, reader: Reader, o: (Item, Outcome))
    requires Complete(p, rows, expected, counts, batch, reader) && o in p.outcomes
    ensures o.0 in ItemsOf(p.errors) <==> GroupAt(rows, |rows|, o.0).marks == {FailureMark}
  {
  }
}
