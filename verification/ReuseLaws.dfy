/**
 * The verdict on every SKU of a reconciliation, exactly, in terms of the saved offers, their windows
 * and their rows alone: when a custom SKU is free of issues, when a saved amount of an ordinary SKU
 * is reused, and what causes each issue.
 */
module ReuseLaws {
  import opened CampaignTypes
  import opened Prices
  import opened Planning
  import opened Reuse
  import Authority
  import Overlays
  import PartialImport

  // ---------- the offers of one product ----------

  /** An offer that speaks about the product: active or unknown for it, over a common day, and not set aside. */
  predicate Evidence(o: Offer, item: Item, q: Request) {
    && item in o.items && (o.items[item] == Authority.Status.Success || o.items[item] == Authority.Status.Unknown)
    && o.window.start <= q.window.end && q.window.start <= o.window.end && o.id !in q.released
    && q.excluding != Some(o.id)
  }

  ghost predicate NoEvidence(offers: seq<Offer>, item: Item, q: Request) {
    forall i :: 0 <= i < |offers| ==> !Evidence(offers[i], item, q)
  }

  ghost predicate OnlyEvidence(offers: seq<Offer>, i: int, item: Item, q: Request) {
    0 <= i < |offers| && forall j :: 0 <= j < |offers| ==> (Evidence(offers[j], item, q) <==> j == i)
  }

  ghost predicate SeveralEvidences(offers: seq<Offer>, item: Item, q: Request) {
    exists i, j :: 0 <= i < j < |offers| && Evidence(offers[i], item, q) && Evidence(offers[j], item, q)
  }

  lemma EvidenceCounts(o: Offer, item: Item, q: Request)
    ensures Evidence(o, item, q) <==> Counts(o, q) && Lists(o, item)
  {
  }

  /** The candidates are the offers that speak about the product. */
  lemma {:induction false} CandidatesExactly(offers: seq<Offer>, item: Item, q: Request)
    ensures Candidates(offers, item, q) == [] <==> NoEvidence(offers, item, q)
    ensures |Candidates(offers, item, q)| > 1 <==> SeveralEvidences(offers, item, q)
    ensures |Candidates(offers, item, q)| == 1 ==>
              exists i :: OnlyEvidence(offers, i, item, q) && Candidates(offers, item, q) == [offers[i]]
    ensures forall i :: OnlyEvidence(offers, i, item, q) ==> Candidates(offers, item, q) == [offers[i]]
  {
    hide Evidence, Counts, Lists;
    if offers != [] {
      var n := |offers| - 1;
      CandidatesExactly(offers[..n], item, q);
      EvidenceCounts(offers[n], item, q);
      EvidencesOneMore(offers, item, q);
    }
  }

  lemma EvidencesOneMore(offers: seq<Offer>, item: Item, q: Request)
    requires offers != []
    ensures var n := |offers| - 1;
            var before, last := offers[..n], Evidence(offers[n], item, q);
            && (NoEvidence(offers, item, q) <==> NoEvidence(before, item, q) && !last)
            && (forall i :: OnlyEvidence(offers, i, item, q) <==>
                              if i == n then NoEvidence(before, item, q) && last
                              else OnlyEvidence(before, i, item, q) && !last)
            && (SeveralEvidences(offers, item, q) <==>
                SeveralEvidences(before, item, q) || (last && !NoEvidence(before, item, q)))
  {
    hide Evidence;
    var n := |offers| - 1;
    assert forall i :: 0 <= i < n ==> offers[..n][i] == offers[i];
    if SeveralEvidences(offers[..n], item, q) {
      var i, j :| 0 <= i < j < n && Evidence(offers[..n][i], item, q) && Evidence(offers[..n][j], item, q);
      assert Evidence(offers[i], item, q) && Evidence(offers[j], item, q);
    }
    if Evidence(offers[n], item, q) && !NoEvidence(offers[..n], item, q) {
      var i :| 0 <= i < n && Evidence(offers[..n][i], item, q);
      assert Evidence(offers[i], item, q);
    }
  }

  // ---------- the saved rows of one SKU ----------

  predicate NoRow(rows: seq<Overlays.SavedRow>, p: Pair) {
    forall k :: 0 <= k < |rows| ==> rows[k].pair != p
  }

  /** The SKU is saved once, with this amount. */
  ghost predicate OneRow(rows: seq<Overlays.SavedRow>, p: Pair, amount: Cents) {
    exists k :: 0 <= k < |rows| && rows[k] == Overlays.SavedRow(p, amount)
                && forall j :: 0 <= j < |rows| && j != k ==> rows[j].pair != p
  }

  /** The last row of the SKU has this amount. */
  ghost predicate LastRow(rows: seq<Overlays.SavedRow>, p: Pair, amount: Cents) {
    exists k :: 0 <= k < |rows| && rows[k] == Overlays.SavedRow(p, amount)
                && forall j :: k < j < |rows| ==> rows[j].pair != p
  }

  lemma {:induction false} AmountExactly(rows: seq<Overlays.SavedRow>, p: Pair, amount: Cents)
    ensures Overlays.AmountOf(rows, p) == Some(amount) <==> LastRow(rows, p, amount)
    ensures Overlays.AmountOf(rows, p).None? <==> NoRow(rows, p)
  {
    if rows != [] {
      var n := |rows| - 1;
      AmountExactly(rows[..n], p, amount);
      if k :| 0 <= k < n && rows[..n][k] == Overlays.SavedRow(p, amount)
              && forall j :: k < j < n ==> rows[..n][j].pair != p {
        assert rows[k] == Overlays.SavedRow(p, amount);
      }
      if k :| 0 <= k < |rows| && rows[k] == Overlays.SavedRow(p, amount)
              && forall j :: k < j < |rows| ==> rows[j].pair != p {
        if k < n {
          assert rows[..n][k] == Overlays.SavedRow(p, amount);
        }
      }
      assert forall k :: 0 <= k < n ==> rows[..n][k] == rows[k];
    }
  }

  lemma {:induction false} RowCountExactly(rows: seq<Overlays.SavedRow>, p: Pair)
    ensures Overlays.RowCount(rows, p) == 0 <==> NoRow(rows, p)
    ensures Overlays.RowCount(rows, p) == 1 <==> exists amount :: OneRow(rows, p, amount)
  {
    if rows != [] {
      var n := |rows| - 1;
      RowCountExactly(rows[..n], p);
      assert forall k :: 0 <= k < n ==> rows[..n][k] == rows[k];
      if amount :| OneRow(rows[..n], p, amount) && rows[n].pair != p {
        var k :| 0 <= k < n && rows[..n][k] == Overlays.SavedRow(p, amount)
                 && forall j :: 0 <= j < n && j != k ==> rows[..n][j].pair != p;
        assert rows[k] == Overlays.SavedRow(p, amount);
        assert OneRow(rows, p, amount);
      }
      if NoRow(rows[..n], p) && rows[n].pair == p {
        assert rows[n] == Overlays.SavedRow(p, rows[n].deduct) && OneRow(rows, p, rows[n].deduct);
      }
      if amount :| OneRow(rows, p, amount) {
        var k :| 0 <= k < |rows| && rows[k] == Overlays.SavedRow(p, amount)
                 && forall j :: 0 <= j < |rows| && j != k ==> rows[j].pair != p;
        if k < n {
          assert rows[..n][k] == Overlays.SavedRow(p, amount);
          assert OneRow(rows[..n], p, amount);
        }
      }
    }
  }

  lemma OneRowIsLast(rows: seq<Overlays.SavedRow>, p: Pair, amount: Cents)
    ensures OneRow(rows, p, amount) <==> Overlays.RowCount(rows, p) == 1 && Overlays.AmountOf(rows, p) == Some(amount)
  {
    RowCountExactly(rows, p);
    AmountExactly(rows, p, amount);
    if Overlays.RowCount(rows, p) == 1 && Overlays.AmountOf(rows, p) == Some(amount) {
      var a :| OneRow(rows, p, a);
      var k :| 0 <= k < |rows| && rows[k] == Overlays.SavedRow(p, amount);
      assert rows[k].pair == p;
    }
  }

  // ---------- a partial import that proves a SKU absent ----------

  /** The receipt of an inclusion shows its rows saved for the exact window, and the offer still has these amounts. */
  ghost predicate Included(o: Offer, inc: Overlays.Inclusion) {
    && inc.windowExact
    && (forall p: Pair {:trigger p in inc.saved} :: (p in inc.saved ==> LastRow(inc.rows, p, inc.saved[p])))
    && (forall k :: 0 <= k < |inc.rows| ==> inc.rows[k].pair in inc.saved)
    && (forall p :: p in inc.saved ==> LastRow(o.rows, p, inc.saved[p]))
  }

  /** The offer's rows are distinct and hold the original scope; any other row is backed by a sound inclusion. */
  ghost predicate ScopeProven(o: Offer) {
    && (forall j, k :: 0 <= j < k < |o.rows| ==> o.rows[j].pair != o.rows[k].pair)
    && (forall p :: p in o.original ==> !NoRow(o.rows, p))
    && ((forall k :: 0 <= k < |o.rows| ==> o.rows[k].pair in o.original)
        || ((forall inc :: inc in o.included ==> Included(o, inc))
            && forall k :: 0 <= k < |o.rows| ==>
                 o.rows[k].pair in o.original || exists inc :: inc in o.included && o.rows[k].pair in inc.saved))
  }

  lemma WantedExactly(rows: seq<Overlays.SavedRow>, saved: map<Pair, Cents>)
    ensures saved == WantedOf(rows)
            <==> && (forall p: Pair {:trigger p in saved} :: (p in saved ==> LastRow(rows, p, saved[p])))
                 && (forall k :: 0 <= k < |rows| ==> rows[k].pair in saved)
  {
    hide LastRow;
    var wanted := WantedOf(rows);
    forall p ensures p in wanted <==> p in Overlays.PairsOf(rows) {
      InRows(rows, p);
      AmountExactly(rows, p, 0);
    }
    forall p, a | p in wanted ensures wanted[p] == a <==> LastRow(rows, p, a) {
      AmountExactly(rows, p, a);
    }
    forall p, a | LastRow(rows, p, a) ensures p in Overlays.PairsOf(rows) {
      AmountExactly(rows, p, a);
      InRows(rows, p);
    }
    if forall k :: 0 <= k < |rows| ==> rows[k].pair in saved {
      forall p | p in wanted ensures p in saved {
        InRows(rows, p);
      }
    }
    forall k | 0 <= k < |rows| ensures rows[k].pair in Overlays.PairsOf(rows) {
      InRows(rows, rows[k].pair);
    }
  }

  lemma InRows(rows: seq<Overlays.SavedRow>, p: Pair)
    ensures p in Overlays.PairsOf(rows) <==> !NoRow(rows, p)
    ensures p in Overlays.PairsOf(rows) <==> exists k :: 0 <= k < |rows| && rows[k].pair == p
  {
    if p in Overlays.PairsOf(rows) {
      var r :| r in rows && r.pair == p;
    }
  }

  lemma IncludedExactly(o: Offer, inc: Overlays.Inclusion)
    ensures InclusionProven(o, inc) <==> Included(o, inc)
  {
    hide LastRow;
    WantedExactly(inc.rows, inc.saved);
    forall p | p in inc.saved
      ensures Overlays.AmountOf(o.rows, p) == Some(inc.saved[p]) <==> LastRow(o.rows, p, inc.saved[p])
    {
      AmountExactly(o.rows, p, inc.saved[p]);
    }
  }

  lemma ScopeExactly(o: Offer)
    ensures AddedScopeProven(o) <==> ScopeProven(o)
  {
    hide InclusionProven, Included, NoRow;
    var current := Overlays.PairsOf(o.rows);
    forall p ensures p in current <==> exists k :: 0 <= k < |o.rows| && o.rows[k].pair == p
             ensures p in current <==> !NoRow(o.rows, p)
    {
      InRows(o.rows, p);
    }
    forall inc | inc in o.included ensures InclusionProven(o, inc) <==> Included(o, inc) {
      IncludedExactly(o, inc);
    }
    assert forall p :: p in current - o.original.Keys <==> p in current && p !in o.original;
  }

  /** The rows of a partial import are all accounted for, so what has no row was never saved. */
  ghost predicate RestProven(o: Offer) {
    && o.partialReceipt.Some? && ScopeProven(o)
    && var r := o.partialReceipt.value;
    && r.partialItems != {} && r.terminal.partialState && r.terminal.failed >= 1
    && PartialImport.FailuresCounted(o.original, r.terminal.failures, r.terminal.failed)
    && PartialImport.RestReadBack(o.original, r.terminal) && |o.original| - r.terminal.failed == r.terminal.success
  }

  lemma RestExactly(o: Offer)
    requires o.partialReceipt.Some?
    ensures RestProven(o) <==>
            AddedScopeProven(o) && PartialImport.VerifiedRows(o.original, o.partialReceipt.value).Ok?
  {
    hide ScopeProven, AddedScopeProven, PartialImport.RestReadBack, PartialImport.FailuresCounted;
    ScopeExactly(o);
    PartialImport.VerifiesExactly(o.original, o.partialReceipt.value);
  }

  // ---------- custom SKUs ----------

  /** The offer's outcome for the SKU is known: success, or one of the rows that a receipt verified. */
  predicate Known(o: Offer, p: Pair) {
    (p.item in o.items && o.items[p.item] == Authority.Status.Success) || p in o.verified
  }

  /** The offer proves that the custom SKU has no saved discount in the window. */
  ghost predicate ProvesAbsence(o: Offer, p: Pair, q: Request) {
    NoRow(o.rows, p) && if o.partialReceipt.Some? then RestProven(o) else Known(o, p) && o.window == q.window
  }

  /** No offer speaks about the product, or a single one does and proves the SKU absent. */
  ghost predicate CustomFree(p: Pair, offers: seq<Offer>, q: Request) {
    || NoEvidence(offers, p.item, q)
    || exists i :: OnlyEvidence(offers, i, p.item, q) && ProvesAbsence(offers[i], p, q)
  }

  /** What makes a custom SKU an issue; a partial import without a row of it is none, unless it is not proven. */
  ghost predicate CustomCause(code: Code, p: Pair, offers: seq<Offer>, q: Request) {
    || (code == MultipleOverlapping && SeveralEvidences(offers, p.item, q))
    || exists i :: OnlyEvidence(offers, i, p.item, q) && (offers[i].partialReceipt.None? || !NoRow(offers[i].rows, p))
                   && match code
                      case OutcomeUnknown => !Known(offers[i], p)
                      case WindowNotExact => Known(offers[i], p) && offers[i].window != q.window
                      case CustomHasDiscount =>
                        Known(offers[i], p) && offers[i].window == q.window && !NoRow(offers[i].rows, p)
                      case _ => false
  }

  /** The only offer is a partial import without a row of the SKU, and its receipt does not prove the rest. */
  ghost predicate ReceiptBroken(p: Pair, offers: seq<Offer>, q: Request) {
    exists i :: OnlyEvidence(offers, i, p.item, q) && NoRow(offers[i].rows, p) && offers[i].partialReceipt.Some?
                && !RestProven(offers[i])
  }

  /** The verdict of one offer on a custom SKU. */
  lemma CustomByOffer(p: Pair, o: Offer, q: Request)
    requires Lists(o, p.item)
    ensures var v := JudgeOffer(CustomCheck(p), o, q);
            && (v == Fine <==> ProvesAbsence(o, p, q))
            && (v.Fatal? <==> NoRow(o.rows, p) && o.partialReceipt.Some? && !RestProven(o))
            && !v.Reused?
            && (v.Problem? <==> (o.partialReceipt.None? || !NoRow(o.rows, p)) && !ProvesAbsence(o, p, q))
            && (v.Problem? ==>
                  v.code == if !Known(o, p) then OutcomeUnknown else if o.window != q.window then WindowNotExact
                            else CustomHasDiscount)
  {
    hide NoRow, RestProven, AddedScopeProven, PartialImport.VerifiedRows;
    RowCountExactly(o.rows, p);
    if o.partialReceipt.Some? {
      RestExactly(o);
    }
  }

  /**
   * A custom SKU is free of issues if and only if no offer speaks about its product, or a single one
   * proves it absent; each issue has its exact cause, and only a broken receipt ends the reconciliation.
   */
  lemma CustomVerdictExactly(p: Pair, planned: seq<Discount>, offers: seq<Offer>, q: Request)
    ensures var v := VerdictOf(CustomCheck(p), planned, offers, q);
            && (v == Fine <==> CustomFree(p, offers, q))
            && (forall code :: v == Problem(code) <==> CustomCause(code, p, offers, q))
            && (v.Fatal? <==> ReceiptBroken(p, offers, q)) && !v.Reused?
  {
    hide Evidence, NoRow, RestProven, Known, JudgeOffer, Candidates, NoEvidence, SeveralEvidences;
    CandidatesExactly(offers, p.item, q);
    var found := Candidates(offers, p.item, q);
    if |found| == 1 {
      var i :| OnlyEvidence(offers, i, p.item, q) && found == [offers[i]];
      OnlyOne(offers, i, p.item, q);
      EvidenceCounts(offers[i], p.item, q);
      CustomByOffer(p, offers[i], q);
    } else {
      NotOne(offers, p.item, q);
    }
  }

  lemma OnlyOne(offers: seq<Offer>, i: int, item: Item, q: Request)
    requires OnlyEvidence(offers, i, item, q)
    ensures Evidence(offers[i], item, q) && !NoEvidence(offers, item, q) && !SeveralEvidences(offers, item, q)
    ensures forall j :: OnlyEvidence(offers, j, item, q) ==> j == i
  {
    hide Evidence;
  }

  lemma NotOne(offers: seq<Offer>, item: Item, q: Request)
    requires |Candidates(offers, item, q)| != 1
    ensures forall i :: !OnlyEvidence(offers, i, item, q)
  {
    hide Evidence, Candidates;
    CandidatesExactly(offers, item, q);
  }

  /** After an issue-free reconciliation no custom SKU of the plan has a saved discount in the window. */
  lemma CleanCustomHasNoDiscount(p: Plan, offers: seq<Offer>, q: Request, pair: Pair, i: nat)
    requires Clean(p, offers, q) && CustomCheck(pair) in Checks(p)
    requires i < |offers| && Evidence(offers[i], pair.item, q)
    ensures NoRow(offers[i].rows, pair) && OnlyEvidence(offers, i, pair.item, q)
  {
    hide Evidence, RestProven;
    CleanVerdicts(p, offers, q, CustomCheck(pair));
    CustomVerdictExactly(pair, p.discounts, offers, q);
    assert !NoEvidence(offers, pair.item, q);
    var j :| OnlyEvidence(offers, j, pair.item, q) && ProvesAbsence(offers[j], pair, q);
  }

  // ---------- ordinary SKUs ----------

  /** A single offer speaks about the product, for exactly the window and with a known outcome; the SKU has this row. */
  ghost predicate SavedFor(c: Check, offers: seq<Offer>, i: int, q: Request, deduct: Cents) {
    && OnlyEvidence(offers, i, c.pair.item, q) && Known(offers[i], c.pair) && offers[i].window == q.window
    && OneRow(offers[i].rows, c.pair, deduct)
  }

  predicate PriceSound(c: Check) {
    c.OrdinaryCheck? && c.price > 0 && 0 < c.big <= c.goal
  }

  /** Under the cap the target, cut down to it, is a possible price at most two yuan below the target. */
  predicate CapReachable(c: Check, rate: Rate) {
    c.OrdinaryCheck? && (c.cap.Some? ==>
                           var f := Min(c.goal, c.cap.value.Floor);
                           rate.num > 0 && 0 < f <= Net(c.price, rate) && c.goal - f <= TWO_YUAN)
  }

  predicate CapKept(c: Check, final: Cents) {
    c.OrdinaryCheck? && (c.cap.Some? ==> (final as real) <= c.cap.value)
  }

  /** What the final price of a saved amount must be: near the target under a cap or a tolerance, else the target. */
  predicate PromiseKept(c: Check, final: Cents, q: Request) {
    && c.OrdinaryCheck? && final > 0
    && (c.cap.Some? || q.scoped ==> -TWO_YUAN <= final - c.goal <= TWO_YUAN)
    && (c.cap.None? && !q.scoped ==> final == c.goal)
  }

  /** The saved amount meets the current promise. */
  predicate Meets(c: Check, deduct: Cents, q: Request) {
    && PriceSound(c) && deduct > 0 && CapReachable(c, q.rate) && CapKept(c, Net(c.price, q.rate) - deduct)
    && PromiseKept(c, Net(c.price, q.rate) - deduct, q)
  }

  /** The first promise that a saved amount of a sound price breaks. */
  function Broken(c: Check, deduct: Cents, q: Request): Code
    requires c.OrdinaryCheck?
  {
    var final := Net(c.price, q.rate) - deduct;
    if deduct <= 0 then AmountInvalid
    else if !PriceSound(c) then PriceInputInvalid
    else if !CapReachable(c, q.rate) then CapUnreachable
    else if !CapKept(c, final) then CapExceeded
    else if c.cap.Some? && !(-TWO_YUAN <= final - c.goal <= TWO_YUAN) then OutsideCapTolerance
    else if final <= 0 then FinalNonpositive
    else if q.scoped then OutsideScopedTolerance
    else if final < c.big then BelowBigFloor
    else NotFrozenTarget
  }

  lemma AmountExactlyJudged(c: Check, o: Offer, deduct: Cents, q: Request)
    requires c.OrdinaryCheck?
    ensures JudgeAmount(c, o, deduct, q) ==
            if Meets(c, deduct, q) then Reused(o.id, deduct, Net(c.price, q.rate) - deduct)
            else Problem(Broken(c, deduct, q))
  {
    if PriceSound(c) && c.cap.Some? {
      OrdinaryPriceFollows(c.price, c.goal, q.rate, c.cap.value);
    }
  }

  /** What makes an ordinary SKU an issue. */
  ghost predicate OrdinaryCause(code: Code, c: Check, planned: bool, offers: seq<Offer>, q: Request)
    requires c.OrdinaryCheck?
  {
    || (code == RequiredDiscountMissing && NoEvidence(offers, c.pair.item, q) && !planned
        && Net(c.price, q.rate) != c.goal)
    || (code == MultipleOverlapping && SeveralEvidences(offers, c.pair.item, q))
    || (exists i, deduct :: SavedFor(c, offers, i, q, deduct) && !Meets(c, deduct, q) && code == Broken(c, deduct, q))
    || exists i :: OnlyEvidence(offers, i, c.pair.item, q)
                   && match code
                      case OutcomeUnknown => !Known(offers[i], c.pair)
                      case WindowNotExact => Known(offers[i], c.pair) && offers[i].window != q.window
                      case SkuMissingOrDuplicate =>
                        Known(offers[i], c.pair) && offers[i].window == q.window
                        && forall deduct :: !OneRow(offers[i].rows, c.pair, deduct)
                      case _ => false
  }

  /** The verdict of one offer on an ordinary SKU. */
  lemma OrdinaryByOffer(c: Check, o: Offer, q: Request)
    requires c.OrdinaryCheck? && Lists(o, c.pair.item)
    ensures var v := JudgeOffer(c, o, q);
            && (!Known(o, c.pair) ==> v == Problem(OutcomeUnknown))
            && (Known(o, c.pair) && o.window != q.window ==> v == Problem(WindowNotExact))
            && (Known(o, c.pair) && o.window == q.window ==>
                  && (forall deduct :: OneRow(o.rows, c.pair, deduct) ==> v == JudgeAmount(c, o, deduct, q))
                  && ((forall deduct :: !OneRow(o.rows, c.pair, deduct)) ==> v == Problem(SkuMissingOrDuplicate)))
  {
    hide OneRow, JudgeAmount;
    RowCountExactly(o.rows, c.pair);
    forall deduct
      ensures OneRow(o.rows, c.pair, deduct) <==>
              Overlays.RowCount(o.rows, c.pair) == 1 && Overlays.AmountOf(o.rows, c.pair) == Some(deduct)
    {
      OneRowIsLast(o.rows, c.pair, deduct);
    }
  }

  lemma OneAmount(rows: seq<Overlays.SavedRow>, p: Pair, a: Cents, b: Cents)
    requires OneRow(rows, p, a) && OneRow(rows, p, b)
    ensures a == b
  {
    OneRowIsLast(rows, p, a);
    OneRowIsLast(rows, p, b);
  }

  /**
   * An ordinary SKU is fine exactly when no offer speaks about its product and it is planned or the
   * official cut alone gives its target. A saved amount is reused exactly when the single offer has it
   * once for the exact window, with a known outcome, and it meets the promise. Each issue has its cause.
   */
  lemma OrdinaryVerdictExactly(c: Check, planned: seq<Discount>, offers: seq<Offer>, q: Request)
    requires c.OrdinaryCheck?
    ensures var v, isPlanned := VerdictOf(c, planned, offers, q), exists d :: d in planned && d.pair == c.pair;
            && (v == Fine <==> NoEvidence(offers, c.pair.item, q) && (isPlanned || Net(c.price, q.rate) == c.goal))
            && (forall id, deduct, final :: v == Reused(id, deduct, final) <==>
                  && final == Net(c.price, q.rate) - deduct && Meets(c, deduct, q)
                  && exists i :: SavedFor(c, offers, i, q, deduct) && offers[i].id == id)
            && (forall code :: v == Problem(code) <==> OrdinaryCause(code, c, isPlanned, offers, q)) && !v.Fatal?
  {
    hide Evidence, Known, Candidates, NoEvidence, SeveralEvidences, Meets, Broken;
    CandidatesExactly(offers, c.pair.item, q);
    var found := Candidates(offers, c.pair.item, q);
    if |found| == 1 {
      var i :| OnlyEvidence(offers, i, c.pair.item, q) && found == [offers[i]];
      OnlyOne(offers, i, c.pair.item, q);
      OrdinaryOfOne(c, planned, offers, i, q);
    } else {
      hide JudgeOffer;
      NotOne(offers, c.pair.item, q);
    }
  }

  lemma OrdinaryOfOne(c: Check, planned: seq<Discount>, offers: seq<Offer>, i: int, q: Request)
    requires c.OrdinaryCheck? && OnlyEvidence(offers, i, c.pair.item, q)
    requires Candidates(offers, c.pair.item, q) == [offers[i]]
    requires !NoEvidence(offers, c.pair.item, q) && !SeveralEvidences(offers, c.pair.item, q)
    requires forall j :: OnlyEvidence(offers, j, c.pair.item, q) ==> j == i
    ensures var v := VerdictOf(c, planned, offers, q);
            && !v.Fine? && !v.Fatal?
            && (forall id, deduct, final :: v == Reused(id, deduct, final) <==>
                  && final == Net(c.price, q.rate) - deduct && Meets(c, deduct, q)
                  && exists i :: SavedFor(c, offers, i, q, deduct) && offers[i].id == id)
            && (forall planned, code :: v == Problem(code) <==> OrdinaryCause(code, c, planned, offers, q))
  {
    hide Evidence, Known, Candidates, NoEvidence, SeveralEvidences, Meets, Broken, JudgeOffer, OnlyEvidence, OneRow;
    OnlyIsListed(offers, i, c.pair.item, q);
    var o := offers[i];
    OrdinaryByOffer(c, o, q);
    if Known(o, c.pair) && o.window == q.window {
      if deduct :| OneRow(o.rows, c.pair, deduct) {
        AmountExactlyJudged(c, o, deduct, q);
        assert SavedFor(c, offers, i, q, deduct);
        forall other | OneRow(o.rows, c.pair, other) ensures other == deduct {
          OneAmount(o.rows, c.pair, deduct, other);
        }
      }
    }
  }

  lemma OnlyIsListed(offers: seq<Offer>, i: int, item: Item, q: Request)
    requires OnlyEvidence(offers, i, item, q)
    ensures 0 <= i < |offers| && Lists(offers[i], item)
  {
  }

  // ---------- the lists of a reconciliation ----------

  function ChecksPairs(cs: seq<Check>): seq<Pair> {
    seq(|cs|, i requires 0 <= i < |cs| => cs[i].pair)
  }

  function ReusePairs(reuse: seq<(Pair, Verdict)>): seq<Pair> {
    seq(|reuse|, i requires 0 <= i < |reuse| => reuse[i].0)
  }

  function ProblemPairs(issues: seq<(Pair, Code)>): seq<Pair> {
    seq(|issues|, i requires 0 <= i < |issues| => issues[i].0)
  }

  /** Each reused SKU is listed with its verdict, and each issue with its cause. */
  lemma {:induction false} ListedExactly(cs: seq<Check>, planned: seq<Discount>, offers: seq<Offer>, q: Request)
    requires Sorted(cs, planned, offers, q).Ok?
    ensures var o := Sorted(cs, planned, offers, q).value;
            && (forall x :: x in o.reuse <==>
                  exists c :: c in cs && c.pair == x.0 && VerdictOf(c, planned, offers, q) == x.1 && x.1.Reused?)
            && (forall x :: x in o.issues <==>
                  exists c :: c in cs && c.pair == x.0 && VerdictOf(c, planned, offers, q) == Problem(x.1))
  {
    hide VerdictOf;
    if cs != [] {
      var n := |cs| - 1;
      ListedExactly(cs[..n], planned, offers, q);
      var before, o := Sorted(cs[..n], planned, offers, q).value, Sorted(cs, planned, offers, q).value;
      var v := VerdictOf(cs[n], planned, offers, q);
      assert cs == cs[..n] + [cs[n]];
      assert forall x :: x in o.reuse <==> x in before.reuse || (v.Reused? && x == (cs[n].pair, v));
      assert forall x :: x in o.issues <==> x in before.issues || (v.Problem? && x == (cs[n].pair, v.code));
    }
  }

  /** Both lists are in the order of the checks. */
  lemma {:induction false} ListsKeepOrder(cs: seq<Check>, planned: seq<Discount>, offers: seq<Offer>, q: Request)
    requires NoDuplicates(ChecksPairs(cs)) && Sorted(cs, planned, offers, q).Ok?
    ensures var o := Sorted(cs, planned, offers, q).value;
            InOrder(ReusePairs(o.reuse), ChecksPairs(cs)) && InOrder(ProblemPairs(o.issues), ChecksPairs(cs))
  {
    hide VerdictOf, InOrder;
    var all := ChecksPairs(cs);
    if cs == [] {
      NothingInOrder(all);
      var o := Sorted(cs, planned, offers, q).value;
      assert ReusePairs(o.reuse) == [] && ProblemPairs(o.issues) == [];
    } else {
      var n := |cs| - 1;
      assert all[..n] == ChecksPairs(cs[..n]);
      ListsKeepOrder(cs[..n], planned, offers, q);
      var before, o := Sorted(cs[..n], planned, offers, q).value, Sorted(cs, planned, offers, q).value;
      var v := VerdictOf(cs[n], planned, offers, q);
      assert ReusePairs(o.reuse) == ReusePairs(before.reuse) + if v.Reused? then [cs[n].pair] else [];
      assert ProblemPairs(o.issues) == ProblemPairs(before.issues) + if v.Problem? then [cs[n].pair] else [];
      OrderGrows(ReusePairs(before.reuse), all, if v.Reused? then [cs[n].pair] else []);
      OrderGrows(ProblemPairs(before.issues), all, if v.Problem? then [cs[n].pair] else []);
    }
  }

  /** What a signup row is checked for. */
  predicate ChecksActivity(c: Check, a: Activity) {
    match a
    case CustomSignup(pair, _) => c == CustomCheck(pair)
    case OrdinarySignup(pair, price, goal, big, cap) => c == OrdinaryCheck(pair, price, goal, big, cap)
  }

  /** Checked are exactly the signup rows, and the planned rows of SKUs that are not signed up, each once. */
  lemma ChecksExactly(p: Plan, rate: Rate)
    requires Coherent(p, rate)
    ensures NoDuplicates(ChecksPairs(Checks(p)))
    ensures forall c :: c in Checks(p) <==>
              || (exists a :: a in p.activity && ChecksActivity(c, a))
              || exists d :: d in p.discounts && c == OrdinaryCheck(d.pair, d.daily, d.goal, d.big, d.cap)
                             && forall a :: a in p.activity ==> a.pair != d.pair
  {
    var first := ActivityChecks(p.activity);
    ChecksOfPlan(p, rate);
    ActivityChecksExact(p.activity);
    AllChecksExact(first, p.discounts);
    forall c ensures c in first <==> exists a :: a in p.activity && ChecksActivity(c, a) {
      assert forall a :: c == CheckOf(a) <==> ChecksActivity(c, a);
    }
    forall d | d in p.discounts
      ensures Has(first, d.pair) <==> exists a :: a in p.activity && a.pair == d.pair
    {
      if a :| a in p.activity && a.pair == d.pair {
        assert CheckOf(a) in first;
      }
    }
    var all := ChecksPairs(Checks(p));
    forall i, j | 0 <= i < j < |all| ensures all[i] != all[j] {
      assert Checks(p)[i].pair != Checks(p)[j].pair;
    }
  }
}
