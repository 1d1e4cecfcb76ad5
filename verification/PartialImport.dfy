/**
 * A discount import's official terminal: which products succeeded, failed or were mixed,
 * the receipt written about it, and the rows that the receipt later proves.
 */
module PartialImport {
  import opened CampaignTypes
  import Authority

  type Amounts = map<Pair, Cents>

  /** One saved offer page read back: window identity and the amount per SKU. */
  datatype Readback = Readback(item: Item, windowExact: bool, values: map<Sku, Cents>)

  /** The finished job: failures are the exact rows of the official failure report. */
  datatype Terminal = Terminal(partialState: bool, success: int, failed: int, failures: seq<Pair>,
                               readbacks: seq<Readback>)

  datatype Outcome = Success | Failed | Partial

  /** The written receipt; success and failed are the observation's own counts. */
  datatype Receipt = Receipt(entries: map<Item, Authority.Status>, partialItems: set<Item>, terminal: Terminal)

  // ---------- readbacks ----------

  function PairsOf(r: Readback): Amounts {
    map s | s in r.values :: Pair(r.item, s) := r.values[s]
  }

  /** All read-back amounts; a wrong window or a SKU read twice refuses the whole observation. */
  function Observed(readbacks: seq<Readback>): Result<Amounts> {
    if readbacks == [] then Ok(map[])
    else
      var last := readbacks[|readbacks| - 1];
      match Observed(readbacks[..|readbacks| - 1])
      case Err(e) => Err(e)
      case Ok(before) =>
        if !last.windowExact then Err("discount_saved_window_mismatch")
        else if PairsOf(last).Keys * before.Keys != {} then Err("discount_readback_duplicate_sku")
        else Ok(before + PairsOf(last))
  }

  lemma {:induction false} ObservedStops(readbacks: seq<Readback>, i: nat)
    requires i <= |readbacks| && Observed(readbacks[..i]).Err?
    ensures Observed(readbacks) == Observed(readbacks[..i])
    decreases |readbacks| - i
  {
    if i == |readbacks| {
      assert readbacks[..i] == readbacks;
    } else {
      assert readbacks[..i + 1][..i] == readbacks[..i];
      ObservedStops(readbacks, i + 1);
    }
  }

  method Collect(readbacks: seq<Readback>) returns (actual: Result<Amounts>)
    ensures actual == Observed(readbacks)
  {
    var amounts: Amounts := map[];
    for i := 0 to |readbacks|
      invariant Observed(readbacks[..i]) == Ok(amounts)
    {
      assert readbacks[..i + 1][..i] == readbacks[..i];
      if !readbacks[i].windowExact {
        ObservedStops(readbacks, i + 1);
        return Err("discount_saved_window_mismatch");
      }
      if PairsOf(readbacks[i]).Keys * amounts.Keys != {} {
        ObservedStops(readbacks, i + 1);
        return Err("discount_readback_duplicate_sku");
      }
      amounts := amounts + PairsOf(readbacks[i]);
    }
    assert readbacks[..|readbacks|] == readbacks;
    actual := Ok(amounts);
  }

  // ---------- the terminal ----------

  function Without(planned: Amounts, failures: seq<Pair>): Amounts {
    map p | p in planned && p !in failures :: planned[p]
  }

  function ItemPairs(planned: Amounts, item: Item): set<Pair> {
    set p | p in planned && p.item == item
  }

  function ItemsOf(planned: Amounts): set<Item> {
    set p | p in planned :: p.item
  }

  function OutcomeOf(planned: Amounts, failures: seq<Pair>, item: Item): Outcome {
    if ItemPairs(planned, item) <= SetOf(failures) then Failed
    else if ItemPairs(planned, item) * SetOf(failures) == {} then Success
    else Partial
  }

  /** The failure report names exactly the counted number of distinct planned rows. */
  predicate FailureRowsVerified(planned: Amounts, failures: seq<Pair>, failed: int) {
    failed >= 1 && |failures| == failed && NoDuplicates(failures) && SetOf(failures) <= planned.Keys
  }

  /** The official counts and state of the job. */
  predicate CountsConsistent(planned: Amounts, t: Terminal) {
    && t.failed >= 0 && t.success > 0 && t.partialState == (t.failed > 0)
    && t.success + t.failed == |planned|
  }

  predicate Reconcilable(planned: Amounts, t: Terminal) {
    && CountsConsistent(planned, t)
    && (if t.partialState then FailureRowsVerified(planned, t.failures, t.failed) else t.failures == [])
    && Observed(t.readbacks) == Ok(Without(planned, t.failures))
  }

  /** The receipt settles a product only when all its rows agree; a mixed one stays unknown. */
  ghost predicate ReceiptExact(planned: Amounts, t: Terminal, receipt: Receipt) {
    && receipt.terminal == t
    && receipt.entries.Keys !! receipt.partialItems
    && receipt.entries.Keys + receipt.partialItems == ItemsOf(planned)
    && (forall i :: i in receipt.entries ==>
          receipt.entries[i] == match OutcomeOf(planned, t.failures, i)
                                case Failed => Authority.Status.Failed
                                case Success => Authority.Status.Success
                                case Partial => Authority.Status.Unknown)
    && (forall i :: i in receipt.partialItems <==>
          i in ItemsOf(planned) && OutcomeOf(planned, t.failures, i) == Partial)
  }

  method Reconcile(planned: Amounts, t: Terminal) returns (receipt: Result<Receipt>)
    ensures receipt.Ok? <==> Reconcilable(planned, t)
    ensures receipt.Ok? ==> ReceiptExact(planned, t, receipt.value)
  {
    if !CountsConsistent(planned, t) {
      return Err("discount_official_terminal_or_readback_incomplete");
    }
    if t.partialState && !FailureRowsVerified(planned, t.failures, t.failed) {
      return Err("discount_feedback_scope_or_count_mismatch");
    }
    if !t.partialState && t.failures != [] {
      return Err("discount_feedback_parsed_rows_changed");
    }
    var actual := Collect(t.readbacks);
    if actual.Err? {
      return Err(actual.error);
    }
    if actual.value != Without(planned, t.failures) {
      return Err("discount_saved_sku_amount_mismatch");
    }
    var entries: map<Item, Authority.Status>, mixed: set<Item>, rest := map[], {}, ItemsOf(planned);
    while rest != {}
      invariant rest <= ItemsOf(planned) && entries.Keys !! mixed && entries.Keys + mixed == ItemsOf(planned) - rest
      invariant forall i :: i in entries ==>
                  && OutcomeOf(planned, t.failures, i) != Partial
                  && entries[i] == if OutcomeOf(planned, t.failures, i) == Failed then Authority.Status.Failed
                                   else Authority.Status.Success
      invariant forall i :: i in mixed ==> OutcomeOf(planned, t.failures, i) == Partial
    {
      var item :| item in rest;
      rest := rest - {item};
      match OutcomeOf(planned, t.failures, item)
      case Partial => mixed := mixed + {item};
      case Failed => entries := entries[item := Authority.Status.Failed];
      case Success => entries := entries[item := Authority.Status.Success];
    }
    receipt := Ok(Receipt(entries, mixed, t));
  }

  /**
   * A product is recorded as success exactly when each of its rows was read back with the
   * planned amount, as failed exactly when each of them is in the failure report, and as
   * neither exactly when it has rows of both kinds.
   */
  lemma ReceiptSplitsExactly(planned: Amounts, t: Terminal, receipt: Receipt, item: Item)
    requires Reconcilable(planned, t) && ReceiptExact(planned, t, receipt) && item in ItemsOf(planned)
    ensures var actual := Observed(t.readbacks).value;
            && (item in receipt.entries && receipt.entries[item] == Authority.Status.Success <==>
                  forall p :: p in planned && p.item == item ==> p in actual && actual[p] == planned[p])
            && (item in receipt.entries && receipt.entries[item] == Authority.Status.Failed <==>
                  forall p :: p in planned && p.item == item ==> p in t.failures && p !in actual)
            && (item !in receipt.entries <==>
                  (exists p :: p in planned && p.item == item && p in actual)
                  && exists p :: p in planned && p.item == item && p in t.failures)
  {
    var pairs := ItemPairs(planned, item);
    assert forall p :: p in pairs * SetOf(t.failures) <==> p in planned && p.item == item && p in t.failures;
    assert forall p :: p in pairs <==> p in planned && p.item == item;
    var some :| some in planned && some.item == item;
    assert some in pairs;
  }

  // ---------- the receipt, used later ----------

  /** The rows a partial receipt proves; the receipt must name a mixed product. */
  function VerifiedRows(rows: Amounts, receipt: Receipt): Result<set<Pair>> {
    var t := receipt.terminal;
    if receipt.partialItems == {} then Err("exact_partial_discount_receipt_required")
    else if !t.partialState then Err("partial_discount_official_readback_changed")
    else if !FailureRowsVerified(rows, t.failures, t.failed) then Err("partial_discount_original_failures_changed")
    else
      match Observed(t.readbacks)
      case Err(e) => Err(e)
      case Ok(actual) =>
        if actual != Without(rows, t.failures) || |actual| != t.success then
          Err("partial_discount_success_complement_not_proven")
        else Ok(actual.Keys)
  }

  lemma {:induction false} DistinctCount(failures: seq<Pair>)
    requires NoDuplicates(failures)
    ensures |SetOf(failures)| == |failures|
  {
    if failures == [] {
      assert SetOf(failures) == {};
    } else {
      var n := |failures| - 1;
      DistinctCount(failures[..n]);
      assert SetOf(failures) == SetOf(failures[..n]) + {failures[n]};
    }
  }

  lemma WithoutCount(planned: Amounts, failures: seq<Pair>)
    requires NoDuplicates(failures) && SetOf(failures) <= planned.Keys
    ensures |Without(planned, failures)| == |planned| - |failures|
    ensures Without(planned, failures).Keys == planned.Keys - SetOf(failures)
  {
    DistinctCount(failures);
    assert Without(planned, failures).Keys == planned.Keys - SetOf(failures);
    assert |Without(planned, failures).Keys| == |Without(planned, failures)|;
    assert |planned.Keys| == |planned|;
  }

  /** Some product has both failed and successful rows. */
  ghost predicate SomeMixed(planned: Amounts, failures: seq<Pair>) {
    exists p, q :: p in planned && q in planned && p.item == q.item && p in failures && q !in failures
  }

  lemma MixedIsPartial(planned: Amounts, failures: seq<Pair>, item: Item)
    ensures item in ItemsOf(planned) && OutcomeOf(planned, failures, item) == Partial <==>
            exists p, q :: p in planned && q in planned && p.item == q.item == item && p in failures && q !in failures
  {
    var pairs := ItemPairs(planned, item);
    if item in ItemsOf(planned) && OutcomeOf(planned, failures, item) == Partial {
      var q :| q in pairs && q !in SetOf(failures);
      var p :| p in pairs * SetOf(failures);
    } else {
      forall p, q | p in planned && q in planned && p.item == q.item == item && p in failures ensures q in failures {
        assert p in pairs * SetOf(failures) && q in pairs;
      }
    }
  }

  lemma PartialItemsMeanMixed(planned: Amounts, t: Terminal, receipt: Receipt)
    requires ReceiptExact(planned, t, receipt)
    ensures receipt.partialItems != {} <==> SomeMixed(planned, t.failures)
  {
    if receipt.partialItems != {} {
      var item :| item in receipt.partialItems;
      MixedIsPartial(planned, t.failures, item);
    } else if SomeMixed(planned, t.failures) {
      var p, q :| p in planned && q in planned && p.item == q.item && p in t.failures && q !in t.failures;
      MixedIsPartial(planned, t.failures, p.item);
    }
  }

  /**
   * The receipt of a partial import proves exactly the planned rows minus the failed ones,
   * if and only if some product was mixed. When every product wholly failed or wholly
   * succeeded the stored receipt cannot be used again.
   */
  lemma ReceiptProvesComplement(planned: Amounts, t: Terminal, receipt: Receipt)
    requires Reconcilable(planned, t) && ReceiptExact(planned, t, receipt) && t.partialState
    ensures VerifiedRows(planned, receipt).Ok? <==> SomeMixed(planned, t.failures)
    ensures VerifiedRows(planned, receipt).Ok? ==>
              VerifiedRows(planned, receipt) == Ok(planned.Keys - SetOf(t.failures))
  {
    WithoutCount(planned, t.failures);
    PartialItemsMeanMixed(planned, t, receipt);
  }

  /** A concrete import of that kind: one product succeeds, another one fails. */
  lemma UnusableReceipt(a: Item, b: Item, sku: Sku)
    returns (planned: Amounts, t: Terminal, receipt: Receipt)
    requires a != b
    ensures Reconcilable(planned, t) && ReceiptExact(planned, t, receipt) && t.partialState
    ensures receipt.entries == map[a := Authority.Status.Success, b := Authority.Status.Failed]
    ensures VerifiedRows(planned, receipt).Err?
  {
    var pa, pb, page := Pair(a, sku), Pair(b, sku), Readback(a, true, map[sku := 100]);
    planned := map[pa := 100, pb := 100];
    t := Terminal(true, 1, 1, [pb], [page]);
    receipt := Receipt(map[a := Authority.Status.Success, b := Authority.Status.Failed], {}, t);
    TwoRows(pa, pb);
    OnePage(page);
    assert PairsOf(page) == map[pa := 100];
    OutcomeOfOne(planned, a, pa, [pb]);
    OutcomeOfOne(planned, b, pb, [pb]);
  }

  /** Two planned rows of different products, the second of which failed. */
  lemma TwoRows(pa: Pair, pb: Pair)
    requires pa.item != pb.item
    ensures var planned := map[pa := 100, pb := 100];
            && |planned| == 2 && Without(planned, [pb]) == map[pa := 100] && ItemsOf(planned) == {pa.item, pb.item}
            && ItemPairs(planned, pa.item) == {pa} && ItemPairs(planned, pb.item) == {pb}
            && SetOf([pb]) == {pb}
  {
  }

  lemma OnePage(page: Readback)
    requires page.windowExact
    ensures Observed([page]) == Ok(PairsOf(page))
  {
    var none: Amounts := map[];
    assert [page][..0] == [] && Observed([]) == Ok(none);
    assert none + PairsOf(page) == PairsOf(page);
  }

  /** A product with a single planned row succeeds or fails with that row. */
  lemma OutcomeOfOne(planned: Amounts, item: Item, p: Pair, failures: seq<Pair>)
    requires ItemPairs(planned, item) == {p}
    ensures OutcomeOf(planned, failures, item) == if p in failures then Failed else Success
  {
  }

  /** A mixed product's claim stays unknown, so it keeps blocking every overlapping claim. */
  lemma PartialProductsStayBlocked(planned: Amounts, t: Terminal, receipt: Receipt, s: Authority.State,
                                   claim: Authority.ClaimId, item: Item, r: Authority.Request,
                                   campaign: Authority.Campaign, window: Window)
    requires ReceiptExact(planned, t, receipt) && item in receipt.partialItems && (claim, item) in s.attempts
    requires s.attempts[(claim, item)].status == Authority.Status.Unknown
    requires s.attempts[(claim, item)].phase == Authority.Phase.Discount && s.attempts[(claim, item)].item == item
    requires r.phase == Authority.Phase.Discount && s.attempts[(claim, item)].window.Overlaps(window)
    requires !Authority.Released(r, Authority.OfBundle(s.attempts[(claim, item)].bundle),
                                 s.attempts[(claim, item)].window, window)
    ensures var u := Authority.AfterTerminal(s, claim, receipt.entries);
            u.attempts[(claim, item)].status == Authority.Status.Unknown
            && item in Authority.Blocked(u, r, campaign, window)
  {
  }

  // ---------- when an import is accepted, from its rows alone ----------

  /** This page shows this amount for the SKU. */
  predicate Shows(r: Readback, p: Pair, amount: Cents) {
    r.item == p.item && p.sku in r.values && r.values[p.sku] == amount
  }

  /** Every page shows the exact window, and no SKU stands on two pages. */
  ghost predicate PagesSound(pages: seq<Readback>) {
    && (forall i :: 0 <= i < |pages| ==> pages[i].windowExact)
    && (forall i, j, sku :: 0 <= i < j < |pages| && pages[i].item == pages[j].item && sku in pages[i].values ==>
                              sku !in pages[j].values)
  }

  ghost predicate ShownOn(pages: seq<Readback>, p: Pair, amount: Cents) {
    exists i :: 0 <= i < |pages| && Shows(pages[i], p, amount)
  }

  predicate Holds(amounts: Amounts, p: Pair, amount: Cents) {
    p in amounts && amounts[p] == amount
  }

  /** The pages are sound and show exactly these amounts. */
  ghost predicate ReadBack(pages: seq<Readback>, amounts: Amounts) {
    PagesSound(pages) && forall p, a :: Holds(amounts, p, a) <==> ShownOn(pages, p, a)
  }

  lemma PageShows(r: Readback, p: Pair, a: Cents)
    ensures Shows(r, p, a) <==> Holds(PairsOf(r), p, a)
  {
    if p in PairsOf(r) {
      assert p == Pair(r.item, p.sku);
    }
  }

  lemma ShownOneMore(pages: seq<Readback>, last: Readback, p: Pair, a: Cents)
    ensures ShownOn(pages + [last], p, a) <==> ShownOn(pages, p, a) || Shows(last, p, a)
  {
    hide Shows;
    var all := pages + [last];
    if i :| 0 <= i < |pages| && Shows(pages[i], p, a) {
      assert Shows(all[i], p, a);
    }
    assert all[|pages|] == last;
  }

  lemma TwoPages(pages: seq<Readback>, i: nat, j: nat, sku: Sku)
    requires PagesSound(pages) && i < j < |pages| && pages[i].item == pages[j].item && sku in pages[i].values
    ensures sku !in pages[j].values
  {
  }

  lemma OnePageMore(pages: seq<Readback>, last: Readback, before: Amounts)
    requires ReadBack(pages, before) && last.windowExact && PairsOf(last).Keys * before.Keys == {}
    ensures ReadBack(pages + [last], before + PairsOf(last))
  {
    var all, amounts := pages + [last], before + PairsOf(last);
    forall p | p in PairsOf(last) ensures p !in before {
      assert p !in PairsOf(last).Keys * before.Keys;
    }
    forall i, j, sku | 0 <= i < j < |all| && all[i].item == all[j].item && sku in all[i].values
      ensures sku !in all[j].values
    {
      if j < |pages| {
        TwoPages(pages, i, j, sku);
      } else {
        var p := Pair(all[i].item, sku);
        assert Shows(pages[i], p, pages[i].values[sku]) && ShownOn(pages, p, pages[i].values[sku]);
        assert Holds(before, p, pages[i].values[sku]) && p !in PairsOf(last);
      }
    }
    forall p, a ensures Holds(amounts, p, a) <==> ShownOn(all, p, a) {
      PageShows(last, p, a);
      ShownOneMore(pages, last, p, a);
    }
  }

  lemma PrefixSound(pages: seq<Readback>, last: Readback)
    requires PagesSound(pages + [last])
    ensures PagesSound(pages) && last.windowExact
  {
    var all := pages + [last];
    assert all[|pages|] == last;
    assert forall i :: 0 <= i < |pages| ==> all[i] == pages[i];
  }

  lemma NothingTwice(pages: seq<Readback>, last: Readback, amounts: Amounts)
    requires PagesSound(pages + [last]) && ReadBack(pages, amounts)
    ensures PairsOf(last).Keys * amounts.Keys == {}
  {
    var all := pages + [last];
    forall p | p in amounts ensures p !in PairsOf(last) {
      assert Holds(amounts, p, amounts[p]);
      var i :| 0 <= i < |pages| && Shows(pages[i], p, amounts[p]);
      assert all[i] == pages[i] && all[|pages|] == last;
      if p.item == last.item {
        TwoPages(all, i, |pages|, p.sku);
      }
    }
  }

  lemma OneReading(pages: seq<Readback>, a: Amounts, b: Amounts)
    requires ReadBack(pages, a) && ReadBack(pages, b)
    ensures a == b
  {
    forall p ensures p in a <==> p in b {
      assert p in a ==> Holds(a, p, a[p]) && Holds(b, p, a[p]);
      assert p in b ==> Holds(b, p, b[p]) && Holds(a, p, b[p]);
    }
    forall p | p in a ensures a[p] == b[p] {
      assert Holds(a, p, a[p]) && Holds(b, p, a[p]);
    }
  }

  /** The amounts are read exactly when the pages are sound, and then they are those on the pages. */
  lemma {:induction false} ObservedExactly(pages: seq<Readback>)
    ensures Observed(pages).Ok? <==> PagesSound(pages)
    ensures Observed(pages).Ok? ==> ReadBack(pages, Observed(pages).value)
  {
    hide PairsOf, ReadBack, PagesSound;
    if pages == [] {
      NothingRead();
    } else {
      var n := |pages| - 1;
      ObservedExactly(pages[..n]);
      assert pages == pages[..n] + [pages[n]];
      if PagesSound(pages) {
        PrefixSound(pages[..n], pages[n]);
        NothingTwice(pages[..n], pages[n], Observed(pages[..n]).value);
      }
      if Observed(pages).Ok? {
        OnePageMore(pages[..n], pages[n], Observed(pages[..n]).value);
        ReadIsSound(pages, Observed(pages).value);
      }
    }
  }

  lemma NothingRead()
    ensures PagesSound([]) && ReadBack([], map[])
  {
  }

  lemma ReadIsSound(pages: seq<Readback>, amounts: Amounts)
    requires ReadBack(pages, amounts)
    ensures PagesSound(pages)
  {
  }

  /** The failure report names this many planned rows, each once. */
  predicate FailuresCounted(planned: Amounts, failures: seq<Pair>, failed: int) {
    && |failures| == failed && (forall p :: p in failures ==> p in planned)
    && forall i, j :: 0 <= i < j < |failures| ==> failures[i] != failures[j]
  }

  /** A planned row that the report does not name. */
  predicate Left(planned: Amounts, failures: seq<Pair>, p: Pair, amount: Cents) {
    p in planned && p !in failures && planned[p] == amount
  }

  /** Read back are exactly the planned rows that the report does not name, with their planned amounts. */
  ghost predicate RestReadBack(planned: Amounts, t: Terminal) {
    PagesSound(t.readbacks) && forall p, a :: Left(planned, t.failures, p, a) <==> ShownOn(t.readbacks, p, a)
  }

  lemma RestExactly(planned: Amounts, t: Terminal)
    ensures Observed(t.readbacks) == Ok(Without(planned, t.failures)) <==> RestReadBack(planned, t)
  {
    hide ShownOn, PagesSound;
    var rest := Without(planned, t.failures);
    ObservedExactly(t.readbacks);
    assert forall p, a :: Holds(rest, p, a) <==> Left(planned, t.failures, p, a);
    if RestReadBack(planned, t) {
      assert ReadBack(t.readbacks, rest);
      OneReading(t.readbacks, rest, Observed(t.readbacks).value);
    }
  }

  /**
   * An import is accepted if and only if something succeeded, its two counts add up to the planned
   * rows, it is called partial exactly when something failed, the report names exactly the counted
   * planned rows, and exactly all other rows are read back with their planned amounts.
   */
  lemma ReconcilesExactly(planned: Amounts, t: Terminal)
    ensures Reconcilable(planned, t)
            <==> && t.success > 0 && t.failed >= 0 && t.success + t.failed == |planned|
                 && (t.partialState <==> t.failed > 0)
                 && FailuresCounted(planned, t.failures, t.failed) && RestReadBack(planned, t)
  {
    hide RestReadBack, Without;
    RestExactly(planned, t);
    assert SetOf(t.failures) <= planned.Keys <==> forall p :: p in t.failures ==> p in planned by {
      assert forall p :: p in SetOf(t.failures) <==> p in t.failures;
    }
  }

  /**
   * A stored receipt proves the rows of an offer if and only if it is partial and names a mixed
   * product, its report names exactly the counted rows of the offer, and exactly the others, as many
   * as it counts successes, are read back with the offer's amounts. It proves exactly these.
   */
  lemma VerifiesExactly(rows: Amounts, receipt: Receipt)
    ensures var t := receipt.terminal;
            && (VerifiedRows(rows, receipt).Ok?
                <==> && receipt.partialItems != {} && t.partialState && t.failed >= 1
                     && FailuresCounted(rows, t.failures, t.failed) && RestReadBack(rows, t)
                     && |rows| - t.failed == t.success)
            && (VerifiedRows(rows, receipt).Ok? ==>
                  forall p :: p in VerifiedRows(rows, receipt).value <==> p in rows && p !in t.failures)
  {
    hide RestReadBack, Observed;
    var t := receipt.terminal;
    RestExactly(rows, t);
    assert SetOf(t.failures) <= rows.Keys <==> forall p :: p in t.failures ==> p in rows by {
      assert forall p :: p in SetOf(t.failures) <==> p in t.failures;
    }
    if FailuresCounted(rows, t.failures, t.failed) {
      WithoutCount(rows, t.failures);
    }
  }
}
