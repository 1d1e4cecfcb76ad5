/**
 * Concrete histories in which the controller does what it should not: each shows that the exact
 * condition stated elsewhere is not always met.
 */
module Witnesses {
  import opened CampaignTypes
  import opened Policy
  import opened Rounds
  import opened RoundProofs
  import opened RoundGate
  import opened ScopeProofs
  import opened Requirements
  import opened Runs

  /** A transport on which every call fails. */
  const SILENT := Oracle(None, n => None, n => None, n => None, n => None, n => None, n => false, n => None, n => None,
                         n => None)

  const PROVEN := Proof(true, true, "", true, true, false, false, false, "", [], None, None)

  const NO_FACTS := Facts(None, None, None, false, None, None, None, None, None, None, None)

  /** A proven failure that a file change can repair. */
  function ShippingFailure(item: Item, batch: string): Failure {
    Failure(item, "1", UnknownKind, FreeShippingRequired, batch, PROVEN, NO_FACTS)
  }

  function Working(items: set<Item>): State {
    NEW_RUN.(pending := Some(items), initial := items)
  }

  function Bundle(items: set<Item>, discountItems: seq<Item>): BundleReply {
    BundleReply([], true, items, discountItems)
  }

  // ---------- an unnamed price-gap import ----------

  const WAITING := NEW_RUN.(pending := Some({}), initial := {"a"},
                            exceptions := map["a" := [Decision("a", "", ReadbackMissing, Manual, None)]])

  const UNNAMED := SILENT.(priceGaps := n => Some(map["a" := Legacy("b", Records([]))]))

  lemma UnnamedIsImported()
    ensures var p := RecoverPriceGaps(UNNAMED, WAITING, 0);
            && p.fault.None? && p.calls == 1 && p.state.legacy == map["a" := Legacy("b", Records([]))]
            && p.state.exceptions.Keys == {} && p.state.success == {} && p.state.pending == Some({})
            && p.state.initial == {"a"} && p.state.enrolled == {} && p.state.status == Ready
  {
    assert WAITING.exceptions["a"][0].reason == ReadbackMissing;
    assert WaitingForReadback(WAITING) == {"a"};
    hide WaitingForReadback;
    var imported := map["a" := Legacy("b", Records([]))];
    assert UNNAMED.priceGaps(0) == Some(imported) && imported.Keys == {"a"};
    assert WAITING.exceptions - imported.Keys == map[] && WAITING.legacy + imported == imported;
  }

  /** A report without errors decides nothing. */
  lemma NothingToRepair(o: Oracle, s: State, n: nat)
    ensures var p := RepairFailed(o, s, [], n);
            p.fault.None? && p.next == {} && p.state.exceptions.Keys == s.exceptions.Keys
  {
    RepairFailedFacts(o, s, [], n);
    assert RepairableOf([]).Keys == {};
  }

  /**
   * A price-gap reply whose report is empty: the product leaves the exceptions, retiring the
   * batch forgets it, and nothing remains to be done.
   */
  lemma UnnamedImportLosesProduct()
    ensures Safe(WAITING) && !GapsNamed(UNNAMED)
    ensures var t := RecoverPriceGaps(UNNAMED, WAITING, 0).state;
            && Lists(t, "b", ["a"])
            && var p := RetireBatch(UNNAMED, t, "b", ["a"], 1);
               && p.fault.None? && PendingOf(p.state) == {} && p.state.legacy.Keys == {}
               && p.state.exceptions.Keys == {} && !Accounted(p.state, "a")
  {
    hide RepairFailed, RecoverPriceGaps;
    UnnamedIsImported();
    var t := RecoverPriceGaps(UNNAMED, WAITING, 0).state;
    assert UNNAMED.priceGaps(0).Some? && !Named("a", UNNAMED.priceGaps(0).value["a"]);
    assert SetOf(["a"]) == {"a"} && BatchItems(t, "b") == {"a"};
    assert ["a"][..0] == [] && ErrorsOf(t, ["a"]) == [];
    NothingToRepair(UNNAMED, t, 1);
    RepairFailedFrame(UNNAMED, t, [], 1);
    var p := RetireBatch(UNNAMED, t, "b", ["a"], 1);
    assert t.legacy["a"].errors.Records?;
    assert p.state.legacy.Keys == {} && PendingOf(p.state) == {};
  }

  lemma UnnamedBatch()
    ensures var t := RecoverPriceGaps(UNNAMED, WAITING, 0).state; Lists(t, "b", ["a"])
  {
    hide RecoverPriceGaps;
    UnnamedIsImported();
    assert SetOf(["a"]) == {"a"} && BatchItems(RecoverPriceGaps(UNNAMED, WAITING, 0).state, "b") == {"a"};
  }

  /** The steps of a run with that reply. */
  function UnnamedRun(): seq<Entry>
    ensures Lists(RecoverPriceGaps(UNNAMED, WAITING, 0).state, "b", ["a"])
  {
    UnnamedBatch();
    var t := RecoverPriceGaps(UNNAMED, WAITING, 0).state;
    var u := RetireBatch(UNNAMED, t, "b", ["a"], 1);
    [Entry(ImportPrior, WAITING, 0, WAITING, 0, None), Entry(ImportGaps, WAITING, 0, t, 1, None),
     Entry(RestoreInputs, t, 1, t, 1, None), Entry(ImportPrior, t, 1, t, 1, None),
     Entry(RetireOne("b", ["a"]), t, 1, u.state, u.calls, None)]
  }

  /** That run ends complete and without exceptions, although "a" was never signed up. */
  lemma UnnamedRunSignsUpAll()
    ensures var log := UnnamedRun();
            && History(UNNAMED, false, log, WAITING, 0) && Ended(log)
            && log[4].after.exceptions.Keys == {} && "a" in log[4].after.initial && "a" !in log[4].after.success
  {
    UnnamedIsImported();
    UnnamedImportLosesProduct();
    UnnamedSteps();
    hide RecoverPrior, RecoverPriceGaps, RecoverInputs, RetireBatch;
    var log := UnnamedRun();
    RetireBatchFrame(UNNAMED, log[4].before, "b", ["a"], 1);
    assert Fits(UNNAMED, false, log[0]) && Fits(UNNAMED, false, log[1]) && Fits(UNNAMED, false, log[2]);
    assert Fits(UNNAMED, false, log[3]) && Fits(UNNAMED, false, log[4]);
    assert RightOp(log, 0) && RightOp(log, 1) && RightOp(log, 2) && RightOp(log, 3) && RightOp(log, 4);
  }

  lemma UnnamedSteps()
    ensures var t := RecoverPriceGaps(UNNAMED, WAITING, 0).state;
            && RecoverPrior(UNNAMED, WAITING, 0) == Step(WAITING, 0, None, {})
            && RecoverInputs(UNNAMED, t, 1) == Step(t, 1, None, {})
            && RecoverPrior(UNNAMED, t, 1) == Step(t, 1, None, {})
  {
    hide RecoverPriceGaps;
    UnnamedIsImported();
    var t := RecoverPriceGaps(UNNAMED, WAITING, 0).state;
    assert WAITING.exceptions["a"][0].reason == ReadbackMissing;
    assert WaitingForImport(WAITING) == {} && WaitingForImport(t) == {};
    assert "a" in t.legacy && !Idle(t);
  }

  // ---------- a half-read history ----------

  const HALF_HISTORY := ScopeReply(["a", "b"], true, map["a" := PriorFailed, "b" := PriorUnknown],
                                   map["a" := Legacy("old", NotIterable)])

  /** A transport that answers a round with neither discounts nor failures. */
  function Smooth(items: set<Item>, rows: seq<Row>): Oracle {
    SILENT.(template := Some({}), bundle := n => Some(Bundle(items, [])),
            window := n => Some(WindowReply(true, true, items)), rows := n => Some(RowsReply("s", rows, {}, false)))
  }

  lemma SmoothTurn(s: State, items: set<Item>, rows: seq<Row>)
    requires s.pending == Some(items) && items != {} && s.required == {} && s.enrolled == {} && items <= s.initial
    requires TerminalScope(RowsReply("s", rows, {}, false), items, false)
    requires forall r :: r in rows ==> r.outcome == Succeeded
    ensures var r := Turn(Smooth(items, rows), false, s, 0);
            r.fault.None? && r.signup.Some? && r.submitted == items
            && items <= r.state.success && PendingOf(r.state) == {}
  {
    var o := Smooth(items, rows);
    var t := AfterTemplate(s, {}, false);
    assert PendingOf(t) == items && BundleAccepted(Bundle(items, []), items, t.required) by {
      assert SetOf<Item>([]) == {};
    }
    var r := Quiet(t, 1, None).(bundle := Some(0));
    assert Turn(o, false, s, 0) == Submit(o, t, {}, r);
    assert Submit(o, t, {}, r) == Enrol(o, r, items, {}) by {
      assert items - {} == items;
    }
    assert items - t.enrolled == items;
    var reply := RowsReply("s", rows, {}, false);
    assert ItemsWith(reply, FailedItem) == {} && ItemsWith(reply, Succeeded) == RowItems(rows);
  }

  const HALF_READ := SILENT.(scope := n => Some(HALF_HISTORY))

  lemma HistoryIsHalfRead()
    ensures var p := InitScope(HALF_READ, false, NEW_RUN, 0);
            && p.fault == Some(HistoryUnreadable(0, "a")) && p.state == Opened(NEW_RUN, HALF_HISTORY)
            && p.state.pending == Some({"a", "b"}) && p.state.initial == {"a", "b"}
  {
    hide ValidImport, TakePrior;
    var r := HALF_HISTORY;
    assert r.scope[0] == "a" && Unreadable(r, "a") && SetOf(r.scope) == {"a", "b"};
    assert TakeHistory(NEW_RUN, r, false, 0, 0) == Step(Opened(NEW_RUN, r), 1, None, {});
    var p := TakeHistory(NEW_RUN, r, false, 1, 0);
    assert p == Step(Opened(NEW_RUN, r), 1, Some(HistoryUnreadable(0, "a")), {});
    assert TakeHistory(NEW_RUN, r, false, 2, 0) == p;
  }

  /**
   * The record of "a" stops the reading after everything was made pending, and that state is
   * saved. The next run does not read the history again, and submits "b", whose earlier outcome
   * is unknown.
   */
  lemma UnknownProductIsSubmitted()
    ensures var p := InitScope(HALF_READ, false, NEW_RUN, 0);
            var next := Smooth({"a", "b"}, [Row("a", true, Succeeded), Row("b", true, Succeeded)]);
            && p.fault == Some(HistoryUnreadable(0, "a")) && !Crashes(p.fault.value)
            && PriorIs(HALF_HISTORY, "b", PriorUnknown) && p.state.pending.Some?
            && "b" in Turn(next, false, p.state, 0).submitted
  {
    hide InitScope, Turn;
    HistoryIsHalfRead();
    var rows := [Row("a", true, Succeeded), Row("b", true, Succeeded)];
    assert RowItems(rows) == {"a", "b"} by {
      assert rows[0].item == "a" && rows[1].item == "b";
    }
    SmoothTurn(InitScope(HALF_READ, false, NEW_RUN, 0).state, {"a", "b"}, rows);
  }

  // ---------- a product number that is not text ----------

  const NUMERIC_PARTIAL := RowsReply("d", [Row("a", false, PartialItem)], {}, false)

  const ENROLLED_A := RowsReply("s", [Row("a", true, Succeeded)], {}, false)

  const NUMBERING := SILENT.(template := Some({}), bundle := n => Some(Bundle({"a"}, if n == 0 then ["a"] else [])),
                             rows := n => Some(if n == 1 then NUMERIC_PARTIAL else ENROLLED_A),
                             window := n => Some(WindowReply(true, true, {"a"})))

  lemma NumericReply()
    ensures var reply := NUMERIC_PARTIAL;
            && RowItems(reply.rows) == {"a"} && ItemsWith(reply, PartialItem) == {"a"}
            && ItemsWith(reply, FailedItem) == {} && RemovedBy(reply) == {} && TerminalScope(reply, {"a"}, true)
    ensures var reply := ENROLLED_A;
            && RowItems(reply.rows) == {"a"} && ItemsWith(reply, Succeeded) == {"a"}
            && ItemsWith(reply, FailedItem) == {} && TerminalScope(reply, {"a"}, false)
  {
    assert NUMERIC_PARTIAL.rows[0] == Row("a", false, PartialItem);
    assert Numeric(NUMERIC_PARTIAL) == {"a"};
    assert ENROLLED_A.rows[0] == Row("a", true, Succeeded);
  }

  /** The discount of "a" is partial, but its number comes as a number: it is signed up all the same. */
  lemma NumericPartialIsSignedUp()
    ensures var r := Turn(NUMBERING, false, Working({"a"}), 0);
            && r.discount == Some(1) && "a" in RefusedIn(NUMBERING, r, PartialItem) && "a" in r.submitted
            && "a" in r.state.success
  {
    hide ItemsWith, RowItems, TerminalScope, RemovedBy, Numeric;
    var o, t := NUMBERING, AfterTemplate(Working({"a"}), {}, false);
    NumericReply();
    assert PendingOf(t) == {"a"} && SetOf(["a"]) == {"a"};
    assert BundleAccepted(Bundle({"a"}, ["a"]), {"a"}, t.required);
    var r := Quiet(t, 1, None).(bundle := Some(0));
    assert Turn(o, false, Working({"a"}), 0) == Submit(o, t, {"a"}, r);
    var d := DiscountsOf(o, t, {"a"}, 1);
    assert d == Discounts(Held(t, {"a"}, PartialImport).(required := {}), 2, None, {}, true, {});
    assert PendingOf(t) - d.removed == {"a"} && {"a"} - d.state.enrolled == {"a"};
    var u := r.(state := d.state, calls := 3, discount := Some(1));
    assert o.bundle(2).Some?;
    assert o.bundle(2).value == Bundle({"a"}, []);
    assert Regenerated(o, 2, {"a"});
    var v := r.(state := d.state, calls := 2, discount := Some(1));
    assert Submit(o, t, {"a"}, r) == AfterDiscounts(o, t, v, d);
    assert AfterDiscounts(o, t, v, d) == Enrol(o, u, {"a"}, {});
  }

  // ---------- a required product that the template lists as registered ----------

  const FAILED_A := RowsReply("d", [Row("a", true, FailedItem)], {}, false)
  const REPAIRED_A := RowsReply("r", [Row("a", true, Succeeded)], {"a"}, false)

  /** The discount of "a" fails and is repaired; then the readback of "b" is not answered. */
  const INTERRUPTED := SILENT.(template := Some({}),
                               bundle := n => Some(if n == 0 then Bundle({"a", "b"}, ["a"]) else Bundle({"b"}, [])),
                               rows := n => Some(if n == 1 then FAILED_A else REPAIRED_A),
                               report := n => Some([ShippingFailure("a", "d")]))

  function ShippingDecision(): Decision {
    Decision("a", "1", Message(""), DoRepair, Some(FileShipping("d")))
  }

  lemma InterruptedReplies()
    ensures RowItems(FAILED_A.rows) == {"a"} && ItemsWith(FAILED_A, FailedItem) == {"a"}
    ensures ItemsWith(FAILED_A, PartialItem) == {} && Numeric(FAILED_A) == {}
    ensures TerminalScope(FAILED_A, {"a"}, true) && RemovedBy(FAILED_A) == {"a"}
    ensures TerminalScope(REPAIRED_A, {"a"}, false) && ReadRows(REPAIRED_A, 1) == 1
            && VerifiedIn(REPAIRED_A, 1) == {"a"}
  {
    assert FAILED_A.rows[0] == Row("a", true, FailedItem);
    assert REPAIRED_A.rows[0] == Row("a", true, Succeeded) && REPAIRED_A.rows[..1] == REPAIRED_A.rows;
    assert ReadRows(REPAIRED_A, 0) == 0;
  }

  lemma InterruptedReport()
    ensures var errors := [ShippingFailure("a", "d")];
            && ItemsOf(errors) == {"a"} && ReportFits(errors, "d", {"a"})
            && RepairableOf(errors) == map["a" := [ShippingDecision()]]
  {
    var errors := [ShippingFailure("a", "d")];
    assert errors[0] == ShippingFailure("a", "d") && errors[..0] == [];
    assert Classify(errors[0]) == ShippingDecision();
    assert DecisionsOf(errors, "a") == [ShippingDecision()] by {
      assert DecisionsOf([], "a") == [];
    }
  }

  /** The discounts of that round: "a" is held out, repaired, and required in the next bundle. */
  lemma InterruptedDiscounts(t: State)
    requires t == Working({"a", "b"})
    ensures var d := DiscountsOf(INTERRUPTED, t, {"a"}, 1);
            && d.fault.None? && d.calls == 4 && d.removed == {"a"} && d.refused
            && d.state.required == {"a"} && d.state.pending == t.pending
  {
    hide ItemsWith, RowItems, TerminalScope, RemovedBy, Numeric,
         ReadRows, VerifiedIn, RepairableOf, ManualOf, ReportFits;
    hide HoldAll, AfterRows;
    var o, errors := INTERRUPTED, [ShippingFailure("a", "d")];
    InterruptedReplies();
    InterruptedReport();
    assert "a" in {"a"} && o.rows(1) == Some(FAILED_A) && o.rows(3) == Some(REPAIRED_A) && o.report(2) == Some(errors);
    var u := Held(t, {}, PartialImport);
    assert RepairPartial(o, t, FAILED_A, 2) == Step(u, 2, None, {});
    var v, repairs := BeforeRepair(u, errors), RepairableOf(errors);
    assert AttemptedIn(u, repairs) == {} && repairs.Keys == {"a"} && repairs - {} == repairs;
    RepairFailedFrame(o, u, errors, 3);
    assert RepairFailed(o, u, errors, 3) == CallRepair(o, v, repairs, 3);
    var p := CallRepair(o, v, repairs, 3);
    assert p.next == {"a"} && p.calls == 4 && p.fault.None? && p.state.pending == t.pending;
    assert RepairRefusals(o, u, FAILED_A, 2) == p;
  }

  /**
   * The run stops with "a" pending and required. When the next run finds "a" registered, nothing
   * is signed up in its first round, whatever else the transport answers, although "b" was never
   * refused: no bundle can be accepted.
   */
  lemma RegisteredRequirementBlocks(o: Oracle, n: nat)
    requires o.template == Some({"a"})
    ensures var first := Turn(INTERRUPTED, false, Working({"a", "b"}), 0);
            && first.fault == Some(WindowRefused(5, {"b"})) && RequiredPending(first.state)
            && PendingOf(AtStart(o, false, first.state)) == {"b"}
            && (forall b :: !BundleAccepted(b, {"b"}, first.state.required))
            && Turn(o, false, first.state, n).signup.None?
  {
    var s, o' := Working({"a", "b"}), INTERRUPTED;
    var first := Turn(o', false, s, 0);
    InterruptedRound();
    assert PendingOf(AtStart(o, false, first.state)) == {"b"};
    assert "a" in first.state.required;
    TurnGate(o, false, first.state, n);
  }

  lemma InterruptedRound()
    ensures var first := Turn(INTERRUPTED, false, Working({"a", "b"}), 0);
            && first.fault == Some(WindowRefused(5, {"b"})) && first.state.required == {"a"}
            && PendingOf(first.state) == {"a", "b"}
  {
    hide DiscountPhase;
    var s, o := Working({"a", "b"}), INTERRUPTED;
    assert AfterTemplate(s, {}, false) == s by {
      assert {"a", "b"} - {} == {"a", "b"} && s.success + {} == s.success;
    }
    assert SetOf(["a"]) == {"a"};
    assert o.bundle(0) == Some(Bundle({"a", "b"}, ["a"])) && BundleAccepted(o.bundle(0).value, {"a", "b"}, {});
    var r := Quiet(s, 1, None).(bundle := Some(0));
    assert Turn(o, false, s, 0) == Submit(o, s, {"a"}, r);
    InterruptedDiscounts(s);
    var d := DiscountsOf(o, s, {"a"}, 1);
    assert "a" in {"a"} && {"a", "b"} - d.removed == {"b"};
    assert o.bundle(4) == Some(Bundle({"b"}, [])) && Regenerated(o, 4, {"b"});
    var v := r.(state := d.state, calls := 4, discount := Some(1));
    assert Submit(o, s, {"a"}, r) == AfterDiscounts(o, s, v, d);
    assert "b" in {"b"};
    assert AfterDiscounts(o, s, v, d) == Enrol(o, v.(calls := 5), {"b"}, d.retries);
  }
}
