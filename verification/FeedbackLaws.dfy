/**
 * What reading a failure report means, from its rows alone: which product a row belongs to, what
 * a product's rows say, which reports are accepted, and where each outcome and each error comes
 * from.
 */
module FeedbackLaws {
  import opened CampaignTypes
  import opened Policy
  import opened Feedback

  // ---------- the rows of one product ----------

  /** A row that is not the explanatory one and has something in it. */
  predicate Filled(r: Row) {
    && !r.help
    && (r.item != "" || r.sku != "" || r.name != "" || r.submitted.Some? || r.mark != NoMark || r.message != "")
  }

  /** Row j names the product, and no later row above i names another one. */
  predicate Heads(rows: seq<Row>, j: nat, i: nat, item: Item)
    requires i <= |rows|
  {
    && j < i && Filled(rows[j]) && rows[j].item == item && item != ""
    && forall k :: j < k < i && Filled(rows[k]) ==> rows[k].item == ""
  }

  /** The row belongs to the product that it names, or else the last row above it that names one. */
  predicate Under(rows: seq<Row>, k: int, item: Item) {
    0 <= k < |rows| && Filled(rows[k]) && var below := k + 1; exists j :: 0 <= j < below && Heads(rows, j, below, item)
  }

  lemma {:induction false} OwnerExactly(rows: seq<Row>, i: nat, item: Item)
    requires i <= |rows|
    ensures Owner(rows, i) == Some(item) <==> exists j :: 0 <= j < i && Heads(rows, j, i, item)
  {
    if i > 0 {
      OwnerExactly(rows, i - 1, item);
      assert IsData(rows[i - 1]) <==> Filled(rows[i - 1]);
      if Filled(rows[i - 1]) && rows[i - 1].item != "" {
        assert rows[i - 1].item == item ==> Heads(rows, i - 1, i, item);
      } else {
        var above := i - 1;
        if j :| 0 <= j < above && Heads(rows, j, above, item) {
          assert Heads(rows, j, i, item);
        }
        if j :| 0 <= j < i && Heads(rows, j, i, item) {
          assert j < i - 1 && Heads(rows, j, i - 1, item);
        }
      }
    }
  }

  lemma UnderExactly(rows: seq<Row>, k: nat, item: Item)
    requires k < |rows|
    ensures Under(rows, k, item) <==> IsData(rows[k]) && Owner(rows, k + 1) == Some(item)
  {
    OwnerExactly(rows, k + 1, item);
  }

  /** A product's group holds its rows, in their order. */
  lemma {:induction false} GroupRowsExactly(rows: seq<Row>, n: nat, item: Item) returns (at: seq<nat>)
    requires n <= |rows|
    ensures |GroupAt(rows, n, item).rows| == |at|
    ensures forall m :: 0 <= m < |at| ==>
              at[m] < n && Under(rows, at[m], item) && GroupAt(rows, n, item).rows[m] == rows[at[m]]
    ensures forall l, m :: 0 <= l < m < |at| ==> at[l] < at[m]
    ensures forall k :: 0 <= k < n && Under(rows, k, item) ==> k in at
  {
    hide Under;
    at := [];
    if n > 0 {
      at := GroupRowsExactly(rows, n - 1, item);
      UnderExactly(rows, n - 1, item);
      if Under(rows, n - 1, item) {
        at := at + [n - 1];
      }
    }
  }

  predicate Says(rows: seq<Row>, k: int, item: Item, message: string) {
    Under(rows, k, item) && message != "" && rows[k].message == message
  }

  /** A product's messages are the texts of its rows, each once. */
  lemma {:induction false} GroupMessagesExactly(rows: seq<Row>, n: nat, item: Item)
    requires n <= |rows|
    ensures NoDuplicates(GroupAt(rows, n, item).messages)
    ensures forall m :: m in GroupAt(rows, n, item).messages <==> exists k :: 0 <= k < n && Says(rows, k, item, m)
  {
    hide Under;
    if n > 0 {
      GroupMessagesExactly(rows, n - 1, item);
      UnderExactly(rows, n - 1, item);
      var before, all := GroupAt(rows, n - 1, item).messages, GroupAt(rows, n, item).messages;
      assert forall m :: m in all <==> m in before || Says(rows, n - 1, item, m);
    }
  }

  /** They stand in the order in which they first appear. */
  lemma {:induction false} MessagesInOrder(rows: seq<Row>, n: nat, item: Item, a: nat, b: nat, k: nat)
    requires n <= |rows| && a < b < |GroupAt(rows, n, item).messages| && k < n
    requires Says(rows, k, item, GroupAt(rows, n, item).messages[b])
    ensures exists l :: 0 <= l < k && Says(rows, l, item, GroupAt(rows, n, item).messages[a])
  {
    hide Under;
    GroupMessagesExactly(rows, n - 1, item);
    GroupMessagesExactly(rows, n, item);
    var before, all := GroupAt(rows, n - 1, item).messages, GroupAt(rows, n, item).messages;
    assert all == before || all == before + [rows[n - 1].message];
    if k < n - 1 {
      assert all[b] in before;
      var c :| 0 <= c < |before| && before[c] == all[b];
      assert all[c] == all[b];
      assert c == b && all[a] == before[a];
      MessagesInOrder(rows, n - 1, item, a, b, k);
    } else {
      assert all[a] == before[a] && before[a] in before;
    }
  }

  predicate Marks(rows: seq<Row>, k: int, item: Item, mark: Mark) {
    Under(rows, k, item) && mark != NoMark && rows[k].mark == mark
  }

  lemma {:induction false} GroupMarksExactly(rows: seq<Row>, n: nat, item: Item, mark: Mark)
    requires n <= |rows|
    ensures mark in GroupAt(rows, n, item).marks <==> exists k :: 0 <= k < n && Marks(rows, k, item, mark)
  {
    hide Under;
    if n > 0 {
      GroupMarksExactly(rows, n - 1, item, mark);
      UnderExactly(rows, n - 1, item);
      assert Marks(rows, n - 1, item, mark) <==> Under(rows, n - 1, item) && mark != NoMark && rows[n - 1].mark == mark;
    }
  }

  lemma {:induction false} ReportedExactly(rows: seq<Row>, n: nat, item: Item)
    requires n <= |rows|
    ensures item in Reported(rows, n) <==> exists k :: 0 <= k < n && Under(rows, k, item)
  {
    hide Under;
    if n > 0 {
      ReportedExactly(rows, n - 1, item);
      UnderExactly(rows, n - 1, item);
    }
  }

  predicate Lists(rows: seq<Row>, k: int, p: Pair) {
    Under(rows, k, p.item) && rows[k].sku == p.sku
  }

  lemma {:induction false} PairsExactly(rows: seq<Row>, n: nat, p: Pair)
    requires n <= |rows|
    ensures p in DataPairs(rows, n) <==> exists k :: 0 <= k < n && Lists(rows, k, p)
  {
    hide Under;
    if n > 0 {
      PairsExactly(rows, n - 1, p);
      UnderExactly(rows, n - 1, p.item);
      assert Lists(rows, n - 1, p) <==> Under(rows, n - 1, p.item) && rows[n - 1].sku == p.sku;
    }
  }

  // ---------- the reports that are accepted ----------

  predicate Numeric(s: string) {
    |s| > 0 && forall c :: c in s ==> '0' <= c <= '9'
  }

  /** Between two rows of a product there is no row of another one. */
  ghost predicate Together(rows: seq<Row>, j: int, i: int, item: Item) {
    Under(rows, j, item) && Under(rows, i, item) ==>
      forall k :: 0 <= j < k < i < |rows| && Filled(rows[k]) ==> Under(rows, k, item)
  }

  /** A product lists a SKU once. */
  ghost predicate Once(rows: seq<Row>, j: int, i: int, item: Item) {
    0 <= j < i < |rows| && Under(rows, j, item) && Under(rows, i, item) ==> rows[j].sku != rows[i].sku
  }

  ghost predicate Numbered(rows: seq<Row>, i: int) {
    0 <= i < |rows| && Filled(rows[i]) ==>
      && Numeric(rows[i].sku) && (rows[i].item == "" || Numeric(rows[i].item))
      && exists item :: Under(rows, i, item)
  }

  /** Every row has a numbered SKU and a numbered product; products stay together and list no SKU twice. */
  ghost predicate Ordered(rows: seq<Row>) {
    && (forall i :: 0 <= i < |rows| ==> Numbered(rows, i))
    && (forall j, i, item :: 0 <= j < i < |rows| ==> Together(rows, j, i, item))
    && (forall j, i, item :: 0 <= j < i < |rows| ==> Once(rows, j, i, item))
  }

  lemma {:induction false} LastFilled(rows: seq<Row>, i: nat, item: Item) returns (k: nat)
    requires i <= |rows| && Owner(rows, i) == Some(item)
    ensures k < i && Under(rows, k, item) && forall m :: k < m < i ==> !Filled(rows[m])
  {
    hide Under;
    k := i - 1;
    UnderExactly(rows, k, item);
    assert IsData(rows[k]) <==> Filled(rows[k]);
    if !Filled(rows[k]) {
      k := LastFilled(rows, i - 1, item);
    }
  }

  /** A readable row stays with its product. */
  lemma {:induction false} ReadableTogether(rows: seq<Row>, j: nat, i: nat, item: Item)
    requires j < i < |rows| && forall k :: 0 <= k <= i ==> RowReadable(rows, k)
    ensures Together(rows, j, i, item)
    decreases i
  {
    hide Under;
    if Under(rows, j, item) && Under(rows, i, item) {
      UnderExactly(rows, i, item);
      ReportedExactly(rows, i, item);
      assert RowReadable(rows, i) && Owner(rows, i) == Some(item);
      var l := LastFilled(rows, i, item);
      forall k | j < k < i && Filled(rows[k]) ensures Under(rows, k, item) {
        if k < l {
          ReadableTogether(rows, j, l, item);
        }
      }
    }
  }

  lemma ReadableOnce(rows: seq<Row>, j: nat, i: nat, item: Item)
    requires j < i < |rows| && RowReadable(rows, i)
    ensures Once(rows, j, i, item)
  {
    hide Under;
    if Under(rows, j, item) && Under(rows, i, item) {
      UnderExactly(rows, i, item);
      PairsExactly(rows, i, Pair(item, rows[i].sku));
      assert rows[j].sku == rows[i].sku ==> Lists(rows, j, Pair(item, rows[i].sku));
    }
  }

  lemma ReadableNumbered(rows: seq<Row>, i: nat)
    requires i < |rows| && RowReadable(rows, i)
    ensures Numbered(rows, i)
  {
    hide Under;
    assert IsData(rows[i]) <==> Filled(rows[i]);
    if Filled(rows[i]) {
      UnderExactly(rows, i, Owner(rows, i + 1).value);
    }
  }

  lemma OrderedReadable(rows: seq<Row>, i: nat)
    requires Ordered(rows) && i < |rows|
    ensures RowReadable(rows, i)
  {
    hide Under;
    assert Numbered(rows, i) && (IsData(rows[i]) <==> Filled(rows[i]));
    if Filled(rows[i]) {
      var item :| Under(rows, i, item);
      UnderExactly(rows, i, item);
      PairsExactly(rows, i, Pair(item, rows[i].sku));
      forall j | 0 <= j < i ensures !Lists(rows, j, Pair(item, rows[i].sku)) {
        assert Once(rows, j, i, item);
      }
      if rows[i].item != "" && rows[i].item in Reported(rows, i) {
        ReportedExactly(rows, i, item);
        var j :| 0 <= j < i && Under(rows, j, item);
        assert Together(rows, j, i, item);
        OwnerStays(rows, j, i, item);
      }
    }
  }

  /** While only rows of the product follow, it stays the current one. */
  lemma {:induction false} OwnerStays(rows: seq<Row>, j: nat, i: nat, item: Item)
    requires j < i <= |rows| && Under(rows, j, item)
    requires forall k :: j < k < i && Filled(rows[k]) ==> Under(rows, k, item)
    ensures Owner(rows, i) == Some(item)
  {
    hide Under;
    UnderExactly(rows, i - 1, item);
    assert IsData(rows[i - 1]) <==> Filled(rows[i - 1]);
    if j < i - 1 {
      OwnerStays(rows, j, i - 1, item);
    }
  }

  /** All rows can be read if and only if the report is ordered. */
  lemma ReadableExactly(rows: seq<Row>)
    ensures (forall i :: 0 <= i < |rows| ==> RowReadable(rows, i)) <==> Ordered(rows)
  {
    hide RowReadable, Numbered, Together, Once;
    if forall i :: 0 <= i < |rows| ==> RowReadable(rows, i) {
      forall i | 0 <= i < |rows| ensures Numbered(rows, i) {
        ReadableNumbered(rows, i);
      }
      forall j, i, item | 0 <= j < i < |rows| ensures Together(rows, j, i, item) && Once(rows, j, i, item) {
        ReadableTogether(rows, j, i, item);
        ReadableOnce(rows, j, i, item);
      }
    } else if Ordered(rows) {
      forall i | 0 <= i < |rows| ensures RowReadable(rows, i) {
        OrderedReadable(rows, i);
      }
    }
  }

  ghost predicate Named(rows: seq<Row>, item: Item) {
    exists k :: Under(rows, k, item)
  }

  /** Some row of the product has this mark, and none has another one. */
  ghost predicate AllSay(rows: seq<Row>, item: Item, mark: Mark) {
    (exists k :: Marks(rows, k, item, mark)) && forall k :: Under(rows, k, item) ==> rows[k].mark in {NoMark, mark}
  }

  ghost predicate Explains(rows: seq<Row>, item: Item) {
    exists k, message :: Says(rows, k, item, message)
  }

  /** The product succeeded, or it failed and some row says why. */
  ghost predicate Settled(rows: seq<Row>, item: Item) {
    AllSay(rows, item, SuccessMark) || (AllSay(rows, item, FailureMark) && Explains(rows, item))
  }

  lemma AllSayExactly(rows: seq<Row>, item: Item, mark: Mark)
    requires mark != NoMark
    ensures GroupAt(rows, |rows|, item).marks == {mark} <==> AllSay(rows, item, mark)
  {
    hide Under;
    var marks := GroupAt(rows, |rows|, item).marks;
    forall m ensures m in marks <==> exists k :: Marks(rows, k, item, m) {
      GroupMarksExactly(rows, |rows|, item, m);
      if k :| Marks(rows, k, item, m) {
        UnderInside(rows, k, item);
      }
    }
    forall k | Under(rows, k, item) ensures 0 <= k < |rows| {
      UnderInside(rows, k, item);
    }
    if AllSay(rows, item, mark) {
      assert forall m :: m in marks <==> m == mark;
    } else if marks == {mark} {
      forall k | Under(rows, k, item) ensures rows[k].mark in {NoMark, mark} {
        assert rows[k].mark != NoMark ==> Marks(rows, k, item, rows[k].mark) && rows[k].mark in marks;
      }
    }
  }

  lemma UnderInside(rows: seq<Row>, k: int, item: Item)
    requires Under(rows, k, item)
    ensures 0 <= k < |rows|
  {
  }

  lemma SettledExactly(rows: seq<Row>, item: Item)
    ensures Decidable(GroupAt(rows, |rows|, item)) <==> Settled(rows, item)
    ensures item in Reported(rows, |rows|) <==> Named(rows, item)
    ensures item in Failing(rows) <==> AllSay(rows, item, FailureMark)
  {
    hide Under, AllSay;
    AllSayExactly(rows, item, SuccessMark);
    AllSayExactly(rows, item, FailureMark);
    MessagesSay(rows, item);
    ReportedExactly(rows, |rows|, item);
    if k :| Under(rows, k, item) {
      UnderInside(rows, k, item);
    }
    if AllSay(rows, item, FailureMark) {
      SayingIsNamed(rows, item, FailureMark);
    }
  }

  lemma SayingIsNamed(rows: seq<Row>, item: Item, mark: Mark)
    requires AllSay(rows, item, mark)
    ensures Named(rows, item)
  {
    var k :| Marks(rows, k, item, mark);
  }

  lemma MessagesSay(rows: seq<Row>, item: Item)
    ensures GroupAt(rows, |rows|, item).messages != [] <==> Explains(rows, item)
    ensures forall m :: m in GroupAt(rows, |rows|, item).messages <==> exists k :: Says(rows, k, item, m)
  {
    hide Under;
    GroupMessagesExactly(rows, |rows|, item);
    var all := GroupAt(rows, |rows|, item).messages;
    forall m ensures m in all <==> exists k :: Says(rows, k, item, m) {
      if k :| Says(rows, k, item, m) {
        UnderInside(rows, k, item);
      }
    }
    if all != [] {
      assert all[0] in all;
      var k :| Says(rows, k, item, all[0]);
    }
    if k, m :| Says(rows, k, item, m) {
      assert m in all;
    }
  }

  /** The report names exactly the expected products, or with counts only failed ones of them. */
  ghost predicate Scoped(rows: seq<Row>, expected: seq<Item>, counts: Option<Counts>) {
    || (forall item :: Named(rows, item) <==> item in expected)
    || (counts.Some? && forall item :: Named(rows, item) ==> item in expected && AllSay(rows, item, FailureMark))
  }

  /** The batch's counts, if any, are complete and those of the expected and the failed products. */
  ghost predicate Counted(rows: seq<Row>, expected: seq<Item>, counts: Option<Counts>) {
    counts.Some? ==>
      var c, failed := counts.value, |set item | item in expected && AllSay(rows, item, FailureMark)|;
      c.pending == 0 && c.total == |expected| && c.failed == failed && c.success == |expected| - failed
  }

  /**
   * A report is accepted if and only if the expected products are numbered and distinct, the report
   * is ordered, each product in it is settled, and its scope and the counts fit.
   */
  lemma AcceptedExactly(rows: seq<Row>, expected: seq<Item>, counts: Option<Counts>)
    ensures Acceptable(rows, expected, counts)
            <==> && expected != [] && NoDuplicates(expected) && (forall item :: item in expected ==> Numeric(item))
                 && Ordered(rows) && (forall item :: Named(rows, item) ==> Settled(rows, item))
                 && Scoped(rows, expected, counts) && Counted(rows, expected, counts)
  {
    hide RowReadable, Named, Settled, AllSay, Ordered, Decidable, Failing;
    ReadableExactly(rows);
    var reported, failing := Reported(rows, |rows|), Failing(rows);
    forall item
      ensures item in reported <==> Named(rows, item)
      ensures item in failing <==> AllSay(rows, item, FailureMark)
      ensures Decidable(GroupAt(rows, |rows|, item)) <==> Settled(rows, item)
    {
      SettledExactly(rows, item);
    }
    FailingAreNamed(rows);
    ScopedExactly(rows, expected, counts, reported, failing);
    assert forall item :: item in expected ==> (IsDigits(item) <==> Numeric(item));
    assert (forall item :: Named(rows, item) ==> Settled(rows, item))
      <==> forall i :: i in reported ==> Decidable(GroupAt(rows, |rows|, i));
  }

  lemma FailingAreNamed(rows: seq<Row>)
    ensures Failing(rows) <= Reported(rows, |rows|)
  {
  }

  lemma ScopedExactly(rows: seq<Row>, expected: seq<Item>, counts: Option<Counts>, reported: set<Item>,
                      failing: set<Item>)
    requires forall item :: item in reported <==> Named(rows, item)
    requires forall item :: item in failing <==> AllSay(rows, item, FailureMark)
    requires failing <= reported
    ensures var scoped := reported == SetOf(expected) || (counts.Some? && reported == failing <= SetOf(expected));
            && (scoped <==> Scoped(rows, expected, counts))
            && (scoped ==> ((counts.Some? ==>
                               counts.value == Counts(|expected|, |expected| - |failing|, |failing|, 0))
                            <==> Counted(rows, expected, counts)))
  {
    hide Named, AllSay;
    var inside := set item | item in expected && AllSay(rows, item, FailureMark);
    if reported <= SetOf(expected) {
      assert inside == failing;
    }
  }

  /**
   * After an accepted report exactly those expected products have failed whose rows all say so; the
   * others succeeded. Each has one outcome.
   */
  lemma OutcomesExactly(p: Parsed, rows: seq<Row>, expected: seq<Item>, counts: Option<Counts>, batch: string,
                        reader: Reader, item: Item, outcome: Outcome)
    requires Complete(p, rows, expected, counts, batch, reader)
    ensures (item, outcome) in p.outcomes
            <==> item in expected && (outcome == Failed <==> AllSay(rows, item, FailureMark))
    ensures NoDuplicates(OutcomeItems(p.outcomes))
  {
    hide AllSay, CountsAgree, Explained, GroupErrors;
    AllSayExactly(rows, item, FailureMark);
    assert item in SetOf(OutcomeItems(p.outcomes)) <==> item in SetOf(expected);
    if item in expected {
      var i :| 0 <= i < |p.outcomes| && OutcomeItems(p.outcomes)[i] == item;
      assert p.outcomes[i] in p.outcomes;
      assert Stated(p.outcomes[i], rows, p.errors, counts, batch, reader);
    }
    if (item, outcome) in p.outcomes {
      InOutcomes(p.outcomes, (item, outcome));
      assert Stated((item, outcome), rows, p.errors, counts, batch, reader);
    }
  }

  // ---------- where the errors come from ----------

  /** An error of the official failure of this batch, with what the message gives about one SKU. */
  predicate Stands(e: Failure, sku: Sku, kind: Kind, issue: Code, batch: string, message: string, m: Option<Mention>,
                   submitted: Option<Cents>) {
    && e.sku == sku && e.kind == kind && e.parseIssue == issue && e.batch == batch
    && e.proof == Proof(true, true, message, issue == FreeShippingRequired && m.None?, false, false,
                        m.Some? && m.value.invalid, false, "", [], if m.Some? then m.value.cap else None,
                        if m.Some? then m.value.observed else None)
    && e.price == Facts(submitted, None, None, false, None, None, None, None, None, None, None)
  }

  /** The row is one that the mention means: by its number, or by its attributes. */
  predicate Means(rows: seq<Row>, k: int, item: Item, m: Mention, direct: bool, reader: Reader) {
    && Under(rows, k, item)
    && if direct then rows[k].sku == m.text else reader.attributes(rows[k].name) == reader.attributes(m.text)
  }

  ghost predicate OnlyOne(rows: seq<Row>, k: int, item: Item, m: Mention, direct: bool, reader: Reader) {
    && Means(rows, k, item, m, direct, reader)
    && forall l :: Means(rows, l, item, m, direct, reader) ==> l == k
  }

  /** A mention of exactly one row of the product gives that SKU's error; any other mention names no SKU. */
  ghost predicate Mentioned(rows: seq<Row>, e: Failure, m: Mention, direct: bool, batch: string, message: string,
                            reader: Reader) {
    || (exists k :: OnlyOne(rows, k, e.item, m, direct, reader)
                    && Stands(e, rows[k].sku, m.kind, m.issue, batch, message, Some(m), rows[k].submitted))
    || ((forall k :: !OnlyOne(rows, k, e.item, m, direct, reader))
        && Stands(e, "", UnknownKind, if direct then SkuIdNotInFile else SkuNameAmbiguous, batch, message, None, None))
  }

  /** A message is the shipping requirement, or gives its mentions; what it leaves unread is kept too. */
  ghost predicate Gives(rows: seq<Row>, e: Failure, batch: string, message: string, reader: Reader) {
    var reading := reader.read(message);
    if reading.shipping then Stands(e, "", UnknownKind, FreeShippingRequired, batch, message, None, None)
    else
      || (exists m :: m in reading.direct && Mentioned(rows, e, m, true, batch, message, reader))
      || (exists m :: m in reading.named && Mentioned(rows, e, m, false, batch, message, reader))
      || ((if reading.named == [] then reading.direct == [] else reading.incomplete)
          && Stands(e, "", UnknownKind, UnparsedFailure, batch, message, None, None))
  }

  /** Some text of the product says that it has no sales. */
  ghost predicate WithoutSales(rows: seq<Row>, item: Item, reader: Reader) {
    exists k, message :: Says(rows, k, item, message) && reader.read(message).noSales
  }

  /** A product without sales has one error with all its texts; any other has those of each text. */
  ghost predicate Given(rows: seq<Row>, e: Failure, batch: string, reader: Reader) {
    if WithoutSales(rows, e.item, reader) then
      Stands(e, "", NoSales, Blank, batch, JoinLines(GroupAt(rows, |rows|, e.item).messages), None, None)
    else exists k, message :: Says(rows, k, e.item, message) && Gives(rows, e, batch, message, reader)
  }

  ghost predicate OneAt<T(!new)>(s: seq<T>, p: T -> bool, k: int) {
    0 <= k < |s| && p(s[k]) && forall l :: 0 <= l < |s| && p(s[l]) ==> l == k
  }

  /** Filtering leaves one element exactly when one place satisfies it. */
  lemma {:induction false} FilterOne<T(!new)>(s: seq<T>, p: T -> bool)
    ensures Filter(s, p) == [] <==> forall k :: 0 <= k < |s| ==> !p(s[k])
    ensures |Filter(s, p)| == 1 <==> exists k :: OneAt(s, p, k)
    ensures forall k :: OneAt(s, p, k) ==> Filter(s, p) == [s[k]]
  {
    if s != [] {
      var tail := s[1..];
      FilterOne(tail, p);
      assert Filter(s, p) == if p(s[0]) then [s[0]] + Filter(tail, p) else Filter(tail, p);
      hide Filter;
      if p(s[0]) {
        assert Filter(tail, p) == [] <==> OneAt(s, p, 0);
      } else {
        OneLater(s, p);
      }
    }
  }

  lemma OneLater<T(!new)>(s: seq<T>, p: T -> bool)
    requires s != [] && !p(s[0])
    ensures forall k :: OneAt(s, p, k) <==> OneAt(s[1..], p, k - 1)
    ensures forall k :: OneAt(s[1..], p, k) ==> OneAt(s, p, k + 1)
  {
    assert forall l :: 0 < l < |s| ==> s[l] == s[1..][l - 1];
    assert forall l :: 0 <= l < |s| - 1 ==> s[1..][l] == s[l + 1];
  }

  function Matching(g: Group, m: Mention, direct: bool, reader: Reader): seq<Row> {
    if direct then Filter(g.rows, (x: Row) => x.sku == m.text)
    else Filter(g.rows, (x: Row) => reader.attributes(x.name) == reader.attributes(m.text))
  }

  /** Of the product's rows, this one alone satisfies p. */
  ghost predicate Sole(rows: seq<Row>, k: int, item: Item, p: Row -> bool) {
    Under(rows, k, item) && p(rows[k]) && forall l :: Under(rows, l, item) && p(rows[l]) ==> l == k
  }

  lemma SoleExactly(rows: seq<Row>, item: Item, p: Row -> bool)
    ensures var found := Filter(GroupAt(rows, |rows|, item).rows, p);
            && (|found| == 1 <==> exists k :: Sole(rows, k, item, p))
            && forall k :: Sole(rows, k, item, p) ==> found == [rows[k]]
  {
    hide Under, GroupAt;
    var s := GroupAt(rows, |rows|, item).rows;
    var at := GroupRowsExactly(rows, |rows|, item);
    FilterOne(s, p);
    forall l | Under(rows, l, item) ensures 0 <= l < |rows| {
      UnderInside(rows, l, item);
    }
    if |Filter(s, p)| == 1 {
      var i :| OneAt(s, p, i);
      forall l | 0 <= l < |rows| && Under(rows, l, item) && p(rows[l]) ensures l == at[i] {
        var m :| 0 <= m < |at| && at[m] == l;
        assert p(s[m]);
      }
      assert Sole(rows, at[i], item, p);
    }
    forall k | 0 <= k < |rows| && Sole(rows, k, item, p) ensures Filter(s, p) == [rows[k]] {
      var i :| 0 <= i < |at| && at[i] == k;
      forall l | 0 <= l < |s| && p(s[l]) ensures l == i {
        assert Under(rows, at[l], item) && p(rows[at[l]]);
      }
      assert OneAt(s, p, i);
    }
  }

  lemma SoleMeans(rows: seq<Row>, k: int, item: Item, m: Mention, direct: bool, reader: Reader, p: Row -> bool)
    requires forall x: Row ::
               p(x) <==> if direct then x.sku == m.text else reader.attributes(x.name) == reader.attributes(m.text)
    ensures OnlyOne(rows, k, item, m, direct, reader) <==> Sole(rows, k, item, p)
  {
    hide Under;
    forall l | 0 <= l < |rows| && Under(rows, l, item)
      ensures Means(rows, l, item, m, direct, reader) <==> p(rows[l])
    {
    }
    forall l | Under(rows, l, item) ensures 0 <= l < |rows| {
      UnderInside(rows, l, item);
    }
  }

  lemma MatchingExactly(rows: seq<Row>, item: Item, m: Mention, direct: bool, reader: Reader)
    ensures var found := Matching(GroupAt(rows, |rows|, item), m, direct, reader);
            && (|found| == 1 <==> exists k :: OnlyOne(rows, k, item, m, direct, reader))
            && forall k :: OnlyOne(rows, k, item, m, direct, reader) ==> found == [rows[k]]
  {
    hide Under, GroupAt, Filter;
    var p := if direct then (x: Row) => x.sku == m.text
             else (x: Row) => reader.attributes(x.name) == reader.attributes(m.text);
    SoleExactly(rows, item, p);
    var g := GroupAt(rows, |rows|, item);
    assert Matching(g, m, direct, reader) == Filter(g.rows, p);
    forall k ensures OnlyOne(rows, k, item, m, direct, reader) <==> Sole(rows, k, item, p) {
      SoleMeans(rows, k, item, m, direct, reader, p);
    }
  }

  lemma MentionExactly(rows: seq<Row>, e: Failure, m: Mention, direct: bool, batch: string, message: string,
                       reader: Reader)
    ensures var found := Matching(GroupAt(rows, |rows|, e.item), m, direct, reader);
            e == MentionError(e.item, m, found, if direct then SkuIdNotInFile else SkuNameAmbiguous, batch, message)
            <==> Mentioned(rows, e, m, direct, batch, message, reader)
  {
    hide Matching, OnlyOne;
    MatchingExactly(rows, e.item, m, direct, reader);
  }

  lemma {:induction false} MentionsExactly(rows: seq<Row>, e: Failure, mentions: seq<Mention>, direct: bool,
                                           batch: string, message: string, reader: Reader)
    ensures e in MentionErrors(e.item, mentions, GroupAt(rows, |rows|, e.item), direct, batch, message, reader)
            <==> exists m :: m in mentions && Mentioned(rows, e, m, direct, batch, message, reader)
  {
    hide Mentioned, MentionError;
    if mentions != [] {
      MentionsExactly(rows, e, mentions[1..], direct, batch, message, reader);
      MentionExactly(rows, e, mentions[0], direct, batch, message, reader);
      assert mentions == [mentions[0]] + mentions[1..];
    }
  }

  lemma PlainExactly(e: Failure, kind: Kind, issue: Code, batch: string, message: string)
    ensures e == ErrorFor(e.item, "", kind, issue, batch, message, issue == FreeShippingRequired, None, None, false,
                         None)
            <==> Stands(e, "", kind, issue, batch, message, None, None)
  {
  }

  lemma MessageExactly(rows: seq<Row>, e: Failure, batch: string, message: string, reader: Reader)
    ensures e in MessageErrors(e.item, message, GroupAt(rows, |rows|, e.item), batch, reader)
            <==> Gives(rows, e, batch, message, reader)
  {
    hide Mentioned, MentionErrors, GroupAt, Stands, ErrorFor;
    var reading := reader.read(message);
    MentionsExactly(rows, e, reading.direct, true, batch, message, reader);
    MentionsExactly(rows, e, reading.named, false, batch, message, reader);
    PlainExactly(e, UnknownKind, FreeShippingRequired, batch, message);
    PlainExactly(e, UnknownKind, UnparsedFailure, batch, message);
  }

  lemma {:induction false} MessagesExactly(rows: seq<Row>, e: Failure, messages: seq<string>, batch: string,
                                           reader: Reader)
    ensures e in AllMessageErrors(e.item, messages, GroupAt(rows, |rows|, e.item), batch, reader)
            <==> exists message :: message in messages && Gives(rows, e, batch, message, reader)
  {
    hide Gives, MessageErrors;
    if messages != [] {
      MessagesExactly(rows, e, messages[1..], batch, reader);
      MessageExactly(rows, e, batch, messages[0], reader);
      assert messages == [messages[0]] + messages[1..];
    }
  }

  lemma GroupErrorsExactly(rows: seq<Row>, e: Failure, batch: string, reader: Reader)
    ensures e in GroupErrors(e.item, GroupAt(rows, |rows|, e.item), batch, reader) <==> Given(rows, e, batch, reader)
  {
    hide Gives, AllMessageErrors, Says, JoinLines, Stands, ErrorFor, GroupAt;
    var g := GroupAt(rows, |rows|, e.item);
    PlainExactly(e, NoSales, Blank, batch, JoinLines(g.messages));
    MessagesSay(rows, e.item);
    MessagesExactly(rows, e, g.messages, batch, reader);
    assert (exists m :: m in g.messages && reader.read(m).noSales) <==> WithoutSales(rows, e.item, reader);
  }

  /** After an accepted report the errors are exactly those that the texts of the failed products give. */
  lemma ErrorsExactly(p: Parsed, rows: seq<Row>, expected: seq<Item>, counts: Option<Counts>, batch: string,
                      reader: Reader, e: Failure)
    requires Complete(p, rows, expected, counts, batch, reader)
    ensures e in p.errors
            <==> e.item in expected && AllSay(rows, e.item, FailureMark) && Given(rows, e, batch, reader)
  {
    hide Given, AllSay, GroupErrors, CountsAgree;
    GroupErrorsExactly(rows, e, batch, reader);
    OutcomesExactly(p, rows, expected, counts, batch, reader, e.item, Failed);
    var g := GroupAt(rows, |rows|, e.item);
    if e in p.errors {
      assert Explained(p.outcomes, rows, e, batch, reader);
      var o :| o in p.outcomes && Brings(o, GroupAt(rows, |rows|, o.0), e, batch, reader);
      ItemOfError(o.0, GroupAt(rows, |rows|, o.0), e, batch, reader);
      assert o == (e.item, Failed);
    }
    if (e.item, Failed) in p.outcomes {
      assert Stated((e.item, Failed), rows, p.errors, counts, batch, reader);
    }
  }

  lemma ItemOfError(item: Item, g: Group, e: Failure, batch: string, reader: Reader)
    requires e in GroupErrors(item, g, batch, reader)
    ensures e.item == item
  {
  }
}
