/**
 * What laying the later tables over the saved offers means, from the rows of the tables alone:
 * which offers a record means, which amount each row of a table finds, when the whole projection
 * succeeds, and what every offer says afterwards.
 */
module OverlayLaws {
  import opened CampaignTypes
  import Authority
  import opened Overlays

  // ---------- the rows of the tables, in the order in which they are laid over the offers ----------

  /** A row of a table: 0 amendments, 1 revisions, 2 repairs, 3 inclusions; 4 is the end. */
  datatype Place = Place(table: nat, record: nat, row: nat)

  const END := Place(4, 0, 0)

  function Records(t: Tables, table: nat): nat {
    match table
    case 0 => |t.amendments|
    case 1 => |t.revisions|
    case 2 => |t.repairs|
    case 3 => |t.inclusions|
    case _ => 0
  }

  function Rows(t: Tables, table: nat, record: nat): nat {
    if record >= Records(t, table) then 0
    else
      match table
      case 0 => |t.amendments[record].rows|
      case 1 => |t.revisions[record].rows|
      case 2 => |t.repairs[record].rows|
      case _ => |t.inclusions[record].rows|
  }

  predicate IsRow(t: Tables, e: Place) {
    e.table < 4 && e.record < Records(t, e.table) && e.row < Rows(t, e.table, e.record)
  }

  /** Amendments before revisions before repairs before inclusions, each table record by record, row by row. */
  predicate Before(e: Place, f: Place) {
    || e.table < f.table
    || (e.table == f.table && (e.record < f.record || (e.record == f.record && e.row < f.row)))
  }

  /** The record of the row takes part: it was verified, and its evidence holds. */
  predicate TakesPart(t: Tables, e: Place)
    requires IsRow(t, e)
  {
    match e.table
    case 0 => true
    case 1 =>
      var c := t.revisions[e.record];
      c.stage == Verified && !c.later && c.proven
    case 2 => t.repairs[e.record].stage == Verified && t.repairs[e.record].rows[e.row].proven
    case _ => t.inclusions[e.record].stage == Verified
  }

  /** The offer that the row is about: an amendment names its identity, the others its platform number. */
  predicate Meant(t: Tables, e: Place, o: Offer)
    requires IsRow(t, e)
  {
    match e.table
    case 0 => o.window == t.amendments[e.record].window && o.id == t.amendments[e.record].offer
    case 1 => o.window == t.revisions[e.record].window && o.platform == t.revisions[e.record].platform
    case 2 => o.window == t.repairs[e.record].window && o.platform == t.repairs[e.record].rows[e.row].platform
    case _ => o.window == t.inclusions[e.record].window && o.platform == t.inclusions[e.record].platform
  }

  function PairOf(t: Tables, e: Place): Pair
    requires IsRow(t, e)
  {
    match e.table
    case 0 => t.amendments[e.record].rows[e.row].pair
    case 1 => Pair(t.revisions[e.record].item, t.revisions[e.record].rows[e.row].sku)
    case 2 => t.repairs[e.record].rows[e.row].pair
    case _ => t.inclusions[e.record].rows[e.row].pair
  }

  function NewAmount(t: Tables, e: Place): Cents
    requires IsRow(t, e)
  {
    match e.table
    case 0 => t.amendments[e.record].rows[e.row].after
    case 1 => t.revisions[e.record].rows[e.row].after
    case 2 => t.repairs[e.record].rows[e.row].after
    case _ => t.inclusions[e.record].rows[e.row].deduct
  }

  /** The amounts that the row may find: its old one, and for a repair also its new one. */
  predicate MayFind(t: Tables, e: Place, x: Cents)
    requires IsRow(t, e) && e.table < 3
  {
    match e.table
    case 0 => x == t.amendments[e.record].rows[e.row].before
    case 1 => x == t.revisions[e.record].rows[e.row].before
    case _ => x == t.repairs[e.record].rows[e.row].before || x == t.repairs[e.record].rows[e.row].after
  }

  /** The row changes the amount of this SKU of this offer, if the offer has it. */
  predicate Changes(t: Tables, e: Place, o: Offer, p: Pair) {
    && IsRow(t, e) && TakesPart(t, e) && Meant(t, e, o) && PairOf(t, e) == p
    && (e.table == 0 ==> var r := t.amendments[e.record].rows[e.row]; r.status == Authority.Status.Success && r.proven)
  }

  predicate LastOf(rows: seq<SavedRow>, p: Pair, j: int) {
    0 <= j < |rows| && rows[j].pair == p && forall k :: j < k < |rows| ==> rows[k].pair != p
  }

  predicate HasSku(o: Offer, p: Pair) {
    exists j :: 0 <= j < |o.rows| && o.rows[j].pair == p
  }

  /** The offer saves this amount for the SKU: its last row of it does. */
  ghost predicate Saves(o: Offer, p: Pair, x: Cents) {
    exists j :: LastOf(o.rows, p, j) && o.rows[j].deduct == x
  }

  /** The last change of the SKU before a place. */
  ghost predicate LastChange(t: Tables, e: Place, f: Place, o: Offer, p: Pair) {
    && Changes(t, f, o, p) && Before(f, e)
    && forall g :: Changes(t, g, o, p) && Before(g, e) ==> g == f || Before(g, f)
  }

  /**
   * The amount that the rows before a place leave: that of the last change, where only an inclusion
   * changes a SKU that the offer did not have; without any change the imported one.
   */
  ghost predicate Stands(t: Tables, e: Place, o: Offer, p: Pair, x: Cents) {
    || (exists f :: LastChange(t, e, f, o, p) && (f.table == 3 || HasSku(o, p)) && NewAmount(t, f) == x)
    || ((forall f :: Changes(t, f, o, p) ==> !Before(f, e)) && Saves(o, p, x))
  }

  // ---------- the rows one by one ----------

  predicate Placed(t: Tables, e: Place) {
    if e.table < 4 then e.record <= Records(t, e.table) && e.row <= Rows(t, e.table, e.record) else e == END
  }

  /** One step back: to the row just before, or to the end of the record or table before. */
  function Back(t: Tables, e: Place): Place
    requires Placed(t, e) && e != Place(0, 0, 0)
  {
    if e.row > 0 then Place(e.table, e.record, e.row - 1)
    else if e.record > 0 then Place(e.table, e.record - 1, Rows(t, e.table, e.record - 1))
    else Place(e.table - 1, Records(t, e.table - 1), 0)
  }

  lemma BackIsNext(t: Tables, e: Place, f: Place)
    requires Placed(t, e) && e != Place(0, 0, 0) && IsRow(t, f)
    ensures Before(f, e) <==> Before(f, Back(t, e)) || (e.row > 0 && f == Back(t, e))
    ensures Placed(t, Back(t, e)) && (e.row > 0 <==> IsRow(t, Back(t, e)))
  {
  }

  /** The amount at a place, row by row from the imported one. */
  function Amount(t: Tables, e: Place, o: Offer, p: Pair): Option<Cents>
    requires Placed(t, e)
    decreases e.table, e.record, e.row
  {
    if e == Place(0, 0, 0) then AmountOf(o.rows, p)
    else
      var q := Back(t, e);
      var before := Amount(t, q, o, p);
      if Changes(t, q, o, p) && (q.table == 3 || before.Some?) then Some(NewAmount(t, q)) else before
  }

  lemma {:induction false} AmountSaved(rows: seq<SavedRow>, p: Pair)
    ensures AmountOf(rows, p).None? <==> forall j :: 0 <= j < |rows| ==> rows[j].pair != p
    ensures forall x :: AmountOf(rows, p) == Some(x) <==> exists j :: LastOf(rows, p, j) && rows[j].deduct == x
  {
    if rows != [] {
      var n := |rows| - 1;
      AmountSaved(rows[..n], p);
      if rows[n].pair == p {
        assert LastOf(rows, p, n) && forall j :: LastOf(rows, p, j) ==> j == n;
      } else {
        forall j ensures LastOf(rows, p, j) <==> LastOf(rows[..n], p, j) {
        }
      }
    }
  }

  lemma SavedExactly(o: Offer, p: Pair)
    ensures AmountOf(o.rows, p).Some? <==> HasSku(o, p)
    ensures forall x :: AmountOf(o.rows, p) == Some(x) <==> Saves(o, p, x)
  {
    AmountSaved(o.rows, p);
  }

  /** Before the inclusions no SKU comes or goes. */
  lemma {:induction false} SkusStay(t: Tables, e: Place, o: Offer, p: Pair)
    requires Placed(t, e) && (e.table < 3 || e == Place(3, 0, 0))
    ensures Amount(t, e, o, p).Some? <==> AmountOf(o.rows, p).Some?
    decreases e.table, e.record, e.row
  {
    if e != Place(0, 0, 0) {
      hide Changes;
      SkusStay(t, Back(t, e), o, p);
    }
  }

  lemma {:induction false} AmountStands(t: Tables, e: Place, o: Offer, p: Pair, x: Cents)
    requires Placed(t, e)
    ensures Amount(t, e, o, p) == Some(x) <==> Stands(t, e, o, p, x)
    decreases e.table, e.record, e.row
  {
    hide Changes, HasSku, Saves, AmountOf;
    SavedExactly(o, p);
    if e == Place(0, 0, 0) {
      assert forall f :: !Before(f, e);
    } else {
      var q := Back(t, e);
      AmountStands(t, q, o, p, x);
      if q.table < 3 {
        SkusStay(t, q, o, p);
      }
      forall f | Changes(t, f, o, p) ensures IsRow(t, f) {
        ChangesAreRows(t, f, o, p);
      }
      forall f | IsRow(t, f) ensures Before(f, e) <==> Before(f, q) || (e.row > 0 && f == q) {
        BackIsNext(t, e, f);
      }
      hide Amount;
      if Changes(t, q, o, p) {
        LastIsHere(t, e, o, p);
      } else {
        forall f ensures LastChange(t, e, f, o, p) <==> LastChange(t, q, f, o, p) {
        }
      }
    }
  }

  lemma ChangesAreRows(t: Tables, f: Place, o: Offer, p: Pair)
    requires Changes(t, f, o, p)
    ensures IsRow(t, f)
  {
  }

  lemma LastIsHere(t: Tables, e: Place, o: Offer, p: Pair)
    requires Placed(t, e) && e != Place(0, 0, 0) && Changes(t, Back(t, e), o, p)
    ensures forall f :: LastChange(t, e, f, o, p) <==> f == Back(t, e)
  {
    hide Changes;
    var q := Back(t, e);
    forall f | Changes(t, f, o, p) ensures Before(f, e) <==> Before(f, q) || (e.row > 0 && f == q) {
      ChangesAreRows(t, f, o, p);
      BackIsNext(t, e, f);
    }
    ChangesAreRows(t, q, o, p);
    BackIsNext(t, e, q);
  }

  // ---------- the rows and the steps ----------

  function RevisionTarget(c: CostRevision): Target { ByPlatform(c.platform, c.window) }

  /** The steps of the tables up to a place; an inclusion adds all its rows in one step. */
  function StepsTo(t: Tables, e: Place): seq<Step>
    requires Placed(t, e) && e.table < 3
  {
    var part := e.record < Records(t, e.table);
    var amended := Each(t.amendments, AmendmentSteps) + Each(t.revisions, OpenRevisionSteps);
    match e.table
    case 0 =>
      Each(t.amendments[..e.record], AmendmentSteps)
      + if part then PartAmendment(t.amendments[e.record], e.row) else []
    case 1 =>
      amended + Each(t.revisions[..e.record], SavedRevisionSteps)
      + if part then PartRevision(t.revisions[e.record], e.row) else []
    case _ =>
      amended + Each(t.revisions, SavedRevisionSteps) + Each(t.repairs[..e.record], RepairSteps)
      + if part then PartRepair(t.repairs[e.record], e.row) else []
  }

  function PartAmendment(a: Amendment, row: nat): seq<Step>
    requires row <= |a.rows|
  {
    var t := ByOffer(a.offer, a.window);
    [Parent(t), Distinct(t)] + AmendedRowsSteps(t, a.rows[..row])
  }

  function PartRevision(c: CostRevision, row: nat): seq<Step>
    requires row <= |c.rows|
  {
    if c.stage == Verified && !c.later && c.proven then ChangeSteps(RevisionTarget(c), c.item, c.rows[..row]) else []
  }

  function PartRepair(s: SavedRepair, row: nat): seq<Step>
    requires row <= |s.rows|
  {
    if s.stage == Verified then RepairRowSteps(s.window, s.rows[..row]) else []
  }

  predicate Quiet(steps: seq<Step>, o: Offer, p: Pair) {
    forall s :: s in steps ==> Overlays.Writes(s, o, p).None?
  }

  lemma {:induction false} QuietAfter(a: seq<Step>, b: seq<Step>, o: Offer, p: Pair)
    requires Quiet(b, o, p)
    ensures LastWritten(a + b, o, p) == LastWritten(a, o, p)
  {
    hide Overlays.Writes;
    if b == [] {
      assert a + b == a;
    } else {
      var n := |b| - 1;
      assert (a + b)[..|a + b| - 1] == a + b[..n] && (a + b)[|a + b| - 1] == b[n] && b[n] in b;
      QuietAfter(a, b[..n], o, p);
    }
  }

  lemma OneAfter(a: seq<Step>, s: Step, o: Offer, p: Pair)
    ensures var prior, w := LastWritten(a, o, p), Overlays.Writes(s, o, p);
            LastWritten(a + [s], o, p) == if w.Some? && (s.Include? || prior.Some?) then w else prior
  {
    hide Overlays.Writes;
    assert (a + [s])[..|a + [s]| - 1] == a;
  }

  lemma EachSnoc<T>(rows: seq<T>, k: nat, f: T -> seq<Step>)
    requires k < |rows|
    ensures Each(rows[..k + 1], f) == Each(rows[..k], f) + f(rows[k])
  {
    assert rows[..k + 1][..k] == rows[..k];
  }

  /** One amended row, as a step. */
  lemma AmendedRowGives(t: Tables, q: Place, a: seq<Step>, o: Offer, p: Pair)
    requires IsRow(t, q) && q.table == 0
    ensures var r, prior := t.amendments[q.record].rows[q.row], LastWritten(a, o, p);
            var target := ByOffer(t.amendments[q.record].offer, t.amendments[q.record].window);
            LastWritten(a + AmendedRowSteps(target, r), o, p)
            == if Changes(t, q, o, p) && prior.Some? then Some(NewAmount(t, q)) else prior
  {
    hide LastWritten;
    var r := t.amendments[q.record].rows[q.row];
    var target := ByOffer(t.amendments[q.record].offer, t.amendments[q.record].window);
    if r.status == Authority.Status.Success && r.proven {
      OneAfter(a, Amend(target, r.pair, {r.before}, Some(r.after)), o, p);
    } else {
      QuietAfter(a, AmendedRowSteps(target, r), o, p);
    }
  }

  lemma AmendedRowsSnoc(target: Target, rows: seq<AmendedRow>, k: nat)
    requires k < |rows|
    ensures AmendedRowsSteps(target, rows[..k + 1])
           == AmendedRowsSteps(target, rows[..k]) + AmendedRowSteps(target, rows[k])
  {
    hide AmendedRowSteps;
    assert rows[..k + 1][..k] == rows[..k];
  }

  lemma AmendmentRow(t: Tables, e: Place)
    requires Placed(t, e) && e.table == 0 && e.row > 0
    ensures var a := t.amendments[e.record];
            StepsTo(t, e) == StepsTo(t, Back(t, e)) + AmendedRowSteps(ByOffer(a.offer, a.window), a.rows[e.row - 1])
  {
    hide AmendedRowSteps, Each, AmendmentSteps;
    var a := t.amendments[e.record];
    AmendedRowsSnoc(ByOffer(a.offer, a.window), a.rows, e.row - 1);
    hide AmendedRowsSteps;
  }

  lemma AmendmentGap(t: Tables, e: Place)
    requires Placed(t, e) && e.table == 0 && e.row == 0 && e.record > 0
    ensures StepsTo(t, e)
            == StepsTo(t, Back(t, e))
               + if e.record < |t.amendments| then PartAmendment(t.amendments[e.record], 0) else []
  {
    hide AmendedRowsSteps, Each;
    var a := t.amendments[e.record - 1];
    EachSnoc(t.amendments, e.record - 1, AmendmentSteps);
    assert a.rows[..|a.rows|] == a.rows;
  }

  lemma AmendmentBack(t: Tables, e: Place, o: Offer, p: Pair)
    requires Placed(t, e) && e != Place(0, 0, 0) && e.table == 0
    requires LastWritten(StepsTo(t, Back(t, e)), o, p) == Amount(t, Back(t, e), o, p)
    ensures LastWritten(StepsTo(t, e), o, p) == Amount(t, e, o, p)
  {
    hide LastWritten, AmendedRowSteps, StepsTo, Changes;
    var q := Back(t, e);
    if e.row > 0 {
      AmendmentRow(t, e);
      AmendedRowGives(t, q, StepsTo(t, q), o, p);
    } else {
      AmendmentGap(t, e);
      GapChangesNothing(t, q, o, p);
      QuietAfter(StepsTo(t, q), if e.record < |t.amendments| then PartAmendment(t.amendments[e.record], 0) else [],
                o, p);
    }
  }

  /** The end of a record is no row. */
  lemma GapChangesNothing(t: Tables, q: Place, o: Offer, p: Pair)
    requires !IsRow(t, q)
    ensures !Changes(t, q, o, p)
  {
  }

  lemma OpenIsQuiet(t: Tables, o: Offer, p: Pair)
    ensures Quiet(Each(t.revisions, OpenRevisionSteps), o, p)
  {
    forall s | s in Each(t.revisions, OpenRevisionSteps) ensures Overlays.Writes(s, o, p).None? {
      InEach(t.revisions, OpenRevisionSteps, s);
    }
  }

  /** The step of a revised row; none where the record takes no part. */
  function RevisionStep(c: CostRevision, row: nat): seq<Step>
    requires row < |c.rows|
  {
    if c.stage == Verified && !c.later && c.proven then [ChangeStep(RevisionTarget(c), c.item, c.rows[row])] else []
  }

  lemma RevisionRow(t: Tables, e: Place)
    requires Placed(t, e) && e.table == 1 && e.row > 0
    ensures StepsTo(t, e) == StepsTo(t, Back(t, e)) + RevisionStep(t.revisions[e.record], e.row - 1)
  {
    hide Each, ChangeStep, RevisionTarget;
    var c := t.revisions[e.record];
    assert PartRevision(c, e.row) == PartRevision(c, e.row - 1) + RevisionStep(c, e.row - 1);
  }

  lemma RevisionRowGives(t: Tables, q: Place, a: seq<Step>, o: Offer, p: Pair)
    requires IsRow(t, q) && q.table == 1
    ensures var prior := LastWritten(a, o, p);
            LastWritten(a + RevisionStep(t.revisions[q.record], q.row), o, p)
            == if Changes(t, q, o, p) && prior.Some? then Some(NewAmount(t, q)) else prior
  {
    hide LastWritten;
    var c := t.revisions[q.record];
    if c.stage == Verified && !c.later && c.proven {
      OneAfter(a, ChangeStep(RevisionTarget(c), c.item, c.rows[q.row]), o, p);
    } else {
      QuietAfter(a, [], o, p);
    }
  }

  /** What a record leaves besides its rows: the refusal of one without proof. */
  function Unproven(c: CostRevision): seq<Step> {
    if c.stage == Verified && !c.later && !c.proven then SavedRevisionSteps(c) else []
  }

  lemma WholeRevision(c: CostRevision)
    ensures SavedRevisionSteps(c) == PartRevision(c, |c.rows|) + Unproven(c)
    ensures PartRevision(c, 0) == []
  {
    assert c.rows[..|c.rows|] == c.rows;
  }

  lemma RevisionRecordGap(t: Tables, e: Place)
    requires Placed(t, e) && e.table == 1 && e.row == 0 && e.record > 0
    ensures StepsTo(t, e) == StepsTo(t, Back(t, e)) + Unproven(t.revisions[e.record - 1])
  {
    hide Each, SavedRevisionSteps, Unproven, PartRevision, OpenRevisionSteps, AmendmentSteps;
    EachSnoc(t.revisions, e.record - 1, SavedRevisionSteps);
    WholeRevision(t.revisions[e.record - 1]);
    if e.record < |t.revisions| {
      WholeRevision(t.revisions[e.record]);
    }
  }

  lemma RevisionTableGap(t: Tables)
    ensures StepsTo(t, Place(1, 0, 0))
            == StepsTo(t, Back(t, Place(1, 0, 0))) + Each(t.revisions, OpenRevisionSteps)
  {
    hide Each, SavedRevisionSteps, PartRevision, OpenRevisionSteps, AmendmentSteps;
    assert t.amendments[..|t.amendments|] == t.amendments;
    NoneOfEach(t.revisions, SavedRevisionSteps);
    if t.revisions != [] {
      WholeRevision(t.revisions[0]);
    }
  }

  lemma RevisionGap(t: Tables, e: Place)
    requires Placed(t, e) && e.table == 1 && e.row == 0
    ensures StepsTo(t, e)
            == StepsTo(t, Back(t, e))
               + if e.record > 0 then Unproven(t.revisions[e.record - 1]) else Each(t.revisions, OpenRevisionSteps)
  {
    hide StepsTo, Each, Unproven;
    if e.record > 0 {
      RevisionRecordGap(t, e);
    } else {
      RevisionTableGap(t);
    }
  }

  lemma NoneOfEach<T>(rows: seq<T>, f: T -> seq<Step>)
    ensures Each(rows[..0], f) == []
  {
  }

  lemma RevisionBack(t: Tables, e: Place, o: Offer, p: Pair)
    requires Placed(t, e) && e.table == 1
    requires LastWritten(StepsTo(t, Back(t, e)), o, p) == Amount(t, Back(t, e), o, p)
    ensures LastWritten(StepsTo(t, e), o, p) == Amount(t, e, o, p)
  {
    hide LastWritten, StepsTo, Changes, Each, RevisionStep;
    var q := Back(t, e);
    if e.row > 0 {
      RevisionRow(t, e);
      RevisionRowGives(t, q, StepsTo(t, q), o, p);
    } else {
      RevisionGap(t, e);
      GapChangesNothing(t, q, o, p);
      OpenIsQuiet(t, o, p);
      QuietAfter(StepsTo(t, q), if e.record > 0 then Unproven(t.revisions[e.record - 1])
                                else Each(t.revisions, OpenRevisionSteps), o, p);
    }
  }

  /** The step of a repaired row; none where the repair is not verified. */
  function RepairStep(s: SavedRepair, row: nat): seq<Step>
    requires row < |s.rows|
  {
    if s.stage == Verified then [RepairRowStep(s.window, s.rows[row])] else []
  }

  lemma RepairRowOf(t: Tables, e: Place)
    requires Placed(t, e) && e.table == 2 && e.row > 0
    ensures StepsTo(t, e) == StepsTo(t, Back(t, e)) + RepairStep(t.repairs[e.record], e.row - 1)
  {
    hide Each, RepairRowStep;
    var s := t.repairs[e.record];
    assert PartRepair(s, e.row) == PartRepair(s, e.row - 1) + RepairStep(s, e.row - 1);
  }

  lemma RepairRowGives(t: Tables, q: Place, a: seq<Step>, o: Offer, p: Pair)
    requires IsRow(t, q) && q.table == 2
    ensures var prior := LastWritten(a, o, p);
            LastWritten(a + RepairStep(t.repairs[q.record], q.row), o, p)
            == if Changes(t, q, o, p) && prior.Some? then Some(NewAmount(t, q)) else prior
  {
    hide LastWritten;
    var s := t.repairs[q.record];
    if s.stage == Verified {
      OneAfter(a, RepairRowStep(s.window, s.rows[q.row]), o, p);
    } else {
      QuietAfter(a, [], o, p);
    }
  }

  lemma RepairGap(t: Tables, e: Place)
    requires Placed(t, e) && e.table == 2 && e.row == 0
    ensures StepsTo(t, e) == StepsTo(t, Back(t, e))
  {
    hide Each, RepairRowStep;
    if e.record > 0 {
      var s := t.repairs[e.record - 1];
      EachSnoc(t.repairs, e.record - 1, RepairSteps);
      assert s.rows[..|s.rows|] == s.rows && RepairSteps(s) == PartRepair(s, |s.rows|);
    } else {
      assert t.revisions[..|t.revisions|] == t.revisions;
      NoneOfEach(t.repairs, RepairSteps);
    }
  }

  lemma RepairBack(t: Tables, e: Place, o: Offer, p: Pair)
    requires Placed(t, e) && e.table == 2
    requires LastWritten(StepsTo(t, Back(t, e)), o, p) == Amount(t, Back(t, e), o, p)
    ensures LastWritten(StepsTo(t, e), o, p) == Amount(t, e, o, p)
  {
    hide LastWritten, StepsTo, Changes, RepairStep;
    var q := Back(t, e);
    if e.row > 0 {
      RepairRowOf(t, e);
      RepairRowGives(t, q, StepsTo(t, q), o, p);
    } else {
      RepairGap(t, e);
      GapChangesNothing(t, q, o, p);
    }
  }

  /** The steps up to a place leave the amount that its rows leave. */
  lemma {:induction false} StepsGive(t: Tables, e: Place, o: Offer, p: Pair)
    requires Placed(t, e) && e.table < 3
    ensures LastWritten(StepsTo(t, e), o, p) == Amount(t, e, o, p)
    decreases e.table, e.record, e.row
  {
    hide Amount, LastWritten;
    if e == Place(0, 0, 0) {
      FirstGives(t, o, p);
    } else {
      StepsGive(t, Back(t, e), o, p);
      match e.table
      case 0 => AmendmentBack(t, e, o, p);
      case 1 => RevisionBack(t, e, o, p);
      case _ => RepairBack(t, e, o, p);
    }
  }

  lemma FirstGives(t: Tables, o: Offer, p: Pair)
    ensures LastWritten(StepsTo(t, Place(0, 0, 0)), o, p) == Amount(t, Place(0, 0, 0), o, p)
  {
    var steps := StepsTo(t, Place(0, 0, 0));
    assert Quiet(steps, o, p);
    assert steps == [] + steps;
    QuietAfter([], steps, o, p);
  }

  /** An inclusion's rows, one by one, change what its one step changes. */
  lemma {:induction false} InclusionGives(t: Tables, record: nat, row: nat, o: Offer, p: Pair)
    requires record < |t.inclusions| && row <= |t.inclusions[record].rows|
    ensures var c, included := t.inclusions[record], AmountOf(t.inclusions[record].rows[..row], p);
            Amount(t, Place(3, record, row), o, p)
            == if c.stage == Verified && Hits(ByPlatform(c.platform, c.window), o) && included.Some? then included
               else Amount(t, Place(3, record, 0), o, p)
    decreases row
  {
    if row > 0 {
      var c := t.inclusions[record];
      assert c.rows[..row][..row - 1] == c.rows[..row - 1];
      InclusionGives(t, record, row - 1, o, p);
    }
  }

  lemma NothingIncludedGives(t: Tables, o: Offer, p: Pair)
    ensures LastWritten(StepsBeforeInclusions(t), o, p) == Amount(t, Place(3, 0, 0), o, p)
  {
    hide LastWritten, Each;
    var q := Place(2, |t.repairs|, 0);
    assert t.repairs[..|t.repairs|] == t.repairs;
    assert StepsBeforeInclusions(t) == StepsTo(t, q);
    StepsGive(t, q, o, p);
  }

  /** Between two records nothing changes. */
  lemma NextRecordGives(t: Tables, record: nat, o: Offer, p: Pair)
    requires record < |t.inclusions|
    ensures Amount(t, Place(3, record + 1, 0), o, p)
            == Amount(t, Place(3, record, |t.inclusions[record].rows|), o, p)
  {
    hide AmountOf;
  }

  lemma {:induction false} InclusionsGive(t: Tables, record: nat, o: Offer, p: Pair)
    requires record <= |t.inclusions|
    ensures LastWritten(StepsBeforeInclusions(t) + Each(t.inclusions[..record], IncludeSteps), o, p)
            == Amount(t, Place(3, record, 0), o, p)
  {
    hide LastWritten, Amount, StepsBeforeInclusions, IncludeSteps;
    var early := StepsBeforeInclusions(t);
    if record == 0 {
      NothingIncludedGives(t, o, p);
      NoneOfEach(t.inclusions, IncludeSteps);
      assert early + Each(t.inclusions[..0], IncludeSteps) == early;
    } else {
      hide Each;
      var c := t.inclusions[record - 1];
      var before := early + Each(t.inclusions[..record - 1], IncludeSteps);
      InclusionsGive(t, record - 1, o, p);
      InclusionGives(t, record - 1, |c.rows|, o, p);
      NextRecordGives(t, record - 1, o, p);
      assert c.rows[..|c.rows|] == c.rows;
      EachSnoc(t.inclusions, record - 1, IncludeSteps);
      assert early + Each(t.inclusions[..record], IncludeSteps) == before + IncludeSteps(c);
      IncludeGives(c, before, o, p);
    }
  }

  lemma IncludeGives(c: IncludeClaim, before: seq<Step>, o: Offer, p: Pair)
    ensures var included := AmountOf(c.rows, p);
            LastWritten(before + IncludeSteps(c), o, p)
            == if c.stage == Verified && Hits(ByPlatform(c.platform, c.window), o) && included.Some? then included
               else LastWritten(before, o, p)
  {
    hide LastWritten;
    var steps := IncludeSteps(c);
    if c.stage == Verified {
      assert before + steps == (before + [steps[0]]) + [steps[1]];
      OneAfter(before, steps[0], o, p);
      OneAfter(before + [steps[0]], steps[1], o, p);
    } else {
      QuietAfter(before, steps, o, p);
    }
  }

  lemma AllGive(t: Tables, o: Offer, p: Pair)
    ensures LastWritten(AllSteps(t), o, p) == Amount(t, END, o, p)
  {
    hide LastWritten;
    assert t.inclusions[..|t.inclusions|] == t.inclusions;
    InclusionsGive(t, |t.inclusions|, o, p);
    assert Back(t, END) == Place(3, |t.inclusions|, 0);
  }

  // ---------- where a row's step stands ----------

  lemma Prefixes<T>(a: seq<T>, b: seq<T>, k: nat)
    requires k <= |b|
    ensures (a + b)[..|a| + k] == a + b[..k]
    ensures k < |b| ==> (a + b)[|a| + k] == b[k]
  {
  }

  lemma {:induction false} EachAt<T>(rows: seq<T>, f: T -> seq<Step>, r: nat, j: nat)
    requires r < |rows| && j < |f(rows[r])|
    ensures var k := |Each(rows[..r], f)| + j;
            && k < |Each(rows, f)| && Each(rows, f)[k] == f(rows[r])[j]
            && Each(rows, f)[..k] == Each(rows[..r], f) + f(rows[r])[..j]
    decreases |rows|
  {
    var n := |rows| - 1;
    var before, last := Each(rows[..n], f), f(rows[n]);
    if r == n {
      Prefixes(before, last, j);
    } else {
      assert rows[..n][..r] == rows[..r];
      EachAt(rows[..n], f, r, j);
    }
  }

  lemma {:induction false} EachFind<T>(rows: seq<T>, f: T -> seq<Step>, k: nat) returns (r: nat, j: nat)
    requires k < |Each(rows, f)|
    ensures r < |rows| && j < |f(rows[r])| && k == |Each(rows[..r], f)| + j
    decreases |rows|
  {
    var n := |rows| - 1;
    var before := Each(rows[..n], f);
    if k < |before| {
      r, j := EachFind(rows[..n], f, k);
      assert rows[..n][..r] == rows[..r];
    } else {
      r, j := n, k - |before|;
    }
  }

  lemma {:induction false} AmendedRowsEach(t: Target, rows: seq<AmendedRow>, f: AmendedRow -> seq<Step>)
    requires forall r :: f(r) == AmendedRowSteps(t, r)
    ensures AmendedRowsSteps(t, rows) == Each(rows, f)
  {
    hide AmendedRowSteps;
    if rows != [] {
      AmendedRowsEach(t, rows[..|rows| - 1], f);
    }
  }

  predicate Checked(t: Tables, e: Place) {
    IsRow(t, e) && e.table < 3 && TakesPart(t, e)
  }

  function TargetOf(t: Tables, e: Place): Target
    requires IsRow(t, e) && e.table < 3
  {
    match e.table
    case 0 => ByOffer(t.amendments[e.record].offer, t.amendments[e.record].window)
    case 1 => RevisionTarget(t.revisions[e.record])
    case _ => ByPlatform(t.repairs[e.record].rows[e.row].platform, t.repairs[e.record].window)
  }

  /** The step is the one of this row, and the steps before it are those of the rows before it. */
  ghost predicate StandsAt(t: Tables, e: Place, k: int) {
    && Checked(t, e) && Placed(t, e) && k == |StepsTo(t, e)| < |AllSteps(t)|
    && AllSteps(t)[..k] == StepsTo(t, e) && var s := AllSteps(t)[k];
    && s.Amend? && s.target == TargetOf(t, e) && s.pair == PairOf(t, e)
    && forall x :: x in s.expected <==> MayFind(t, e, x)
  }

  lemma AmendmentAt(t: Tables, e: Place)
    requires Checked(t, e) && e.table == 0
    ensures var all, part := Each(t.amendments, AmendmentSteps), StepsTo(t, e);
            && |part| < |all| && all[..|part|] == part
            && all[|part|] == AmendedRowSteps(TargetOf(t, e), t.amendments[e.record].rows[e.row])[0]
  {
    hide AmendedRowSteps, Each;
    var a, target := t.amendments[e.record], TargetOf(t, e);
    var f := (r: AmendedRow) => AmendedRowSteps(target, r);
    AmendedRowsEach(target, a.rows, f);
    AmendedRowsEach(target, a.rows[..e.row], f);
    AmendedRowIsSome(target, a.rows[e.row]);
    EachAt(a.rows, f, e.row, 0);
    assert f(a.rows[e.row])[..0] == [];
    var j, head := |Each(a.rows[..e.row], f)|, [Parent(target), Distinct(target)];
    Prefixes(head, Each(a.rows, f), j);
    assert AmendmentSteps(a) == head + Each(a.rows, f);
    assert AmendmentSteps(a)[..2 + j] == PartAmendment(a, e.row);
    EachAt(t.amendments, AmendmentSteps, e.record, 2 + j);
  }

  lemma AmendedRowIsSome(t: Target, r: AmendedRow)
    ensures AmendedRowSteps(t, r) != [] && AmendedRowSteps(t, r)[0].Amend?
    ensures AmendedRowSteps(t, r)[0].target == t && AmendedRowSteps(t, r)[0].pair == r.pair
    ensures AmendedRowSteps(t, r)[0].expected == {r.before}
    ensures forall j :: 0 < j < |AmendedRowSteps(t, r)| ==> !AmendedRowSteps(t, r)[j].Amend?
  {
  }

  lemma RevisionAt(t: Tables, e: Place)
    requires Checked(t, e) && e.table == 1
    ensures var c := t.revisions[e.record];
            var k := |Each(t.revisions[..e.record], SavedRevisionSteps)| + e.row;
            && k < |Each(t.revisions, SavedRevisionSteps)|
            && Each(t.revisions, SavedRevisionSteps)[..k]
               == Each(t.revisions[..e.record], SavedRevisionSteps) + PartRevision(c, e.row)
            && Each(t.revisions, SavedRevisionSteps)[k] == ChangeStep(RevisionTarget(c), c.item, c.rows[e.row])
  {
    hide Each, ChangeStep;
    var c := t.revisions[e.record];
    EachAt(t.revisions, SavedRevisionSteps, e.record, e.row);
    assert SavedRevisionSteps(c)[..e.row] == PartRevision(c, e.row);
  }

  lemma RepairAt(t: Tables, e: Place)
    requires Checked(t, e) && e.table == 2
    ensures var s := t.repairs[e.record];
            var k := |Each(t.repairs[..e.record], RepairSteps)| + e.row;
            && k < |RepairList(t)|
            && RepairList(t)[..k] == Each(t.repairs[..e.record], RepairSteps) + PartRepair(s, e.row)
            && RepairList(t)[k] == RepairRowStep(s.window, s.rows[e.row])
  {
    hide Each, RepairRowStep;
    var s := t.repairs[e.record];
    EachAt(t.repairs, RepairSteps, e.record, e.row);
    assert RepairSteps(s)[..e.row] == PartRepair(s, e.row);
  }

  /** The steps up to a row, and its own, within those of its table; earlier tables come first. */
  lemma StepWithin(t: Tables, e: Place, early: seq<Step>, mine: seq<Step>, late: seq<Step>, k: nat, s: Step)
    requires Checked(t, e) && AllSteps(t) == early + mine + late && k < |mine| && mine[k] == s
    requires StepsTo(t, e) == early + mine[..k]
    requires s.Amend? && s.target == TargetOf(t, e) && s.pair == PairOf(t, e)
    requires forall x :: x in s.expected <==> MayFind(t, e, x)
    ensures StandsAt(t, e, |StepsTo(t, e)|)
  {
    hide AllSteps, StepsTo, TargetOf, PairOf, MayFind, TakesPart;
    Prefixes(early, mine + late, k);
    assert early + mine + late == early + (mine + late);
    assert (mine + late)[..k] == mine[..k] && (mine + late)[k] == mine[k];
  }

  lemma AmendmentHasStep(t: Tables, e: Place)
    requires Checked(t, e) && e.table == 0
    ensures StandsAt(t, e, |StepsTo(t, e)|)
  {
    hide Each, AmendedRowSteps, PartAmendment, StandsAt;
    AmendmentAt(t, e);
    AmendedRowIsSome(TargetOf(t, e), t.amendments[e.record].rows[e.row]);
    var a, k := Each(t.amendments, AmendmentSteps), |StepsTo(t, e)|;
    StepWithin(t, e, [], a, AllSteps(t)[|a|..], k, a[k]);
  }

  lemma RevisionHasStep(t: Tables, e: Place)
    requires Checked(t, e) && e.table == 1
    ensures StandsAt(t, e, |StepsTo(t, e)|)
  {
    hide Each, PartRevision, StandsAt;
    RevisionAt(t, e);
    var early := Each(t.amendments, AmendmentSteps) + Each(t.revisions, OpenRevisionSteps);
    var r, k := Each(t.revisions, SavedRevisionSteps), |Each(t.revisions[..e.record], SavedRevisionSteps)| + e.row;
    StepWithin(t, e, early, r, RepairList(t) + Each(t.inclusions, IncludeSteps), k, r[k]);
  }

  lemma RepairHasStep(t: Tables, e: Place)
    requires Checked(t, e) && e.table == 2
    ensures StandsAt(t, e, |StepsTo(t, e)|)
  {
    hide Each, PartRepair, StandsAt;
    RepairAt(t, e);
    var early := Each(t.amendments, AmendmentSteps) + Each(t.revisions, OpenRevisionSteps)
                 + Each(t.revisions, SavedRevisionSteps);
    var k := |Each(t.repairs[..e.record], RepairSteps)| + e.row;
    StepWithin(t, e, early, RepairList(t), Each(t.inclusions, IncludeSteps), k, RepairList(t)[k]);
  }

  /** Every row that takes part has its step. */
  lemma RowHasStep(t: Tables, e: Place)
    requires Checked(t, e)
    ensures StandsAt(t, e, |StepsTo(t, e)|)
  {
    hide StandsAt, StepsTo, TakesPart;
    match e.table
    case 0 => AmendmentHasStep(t, e);
    case 1 => RevisionHasStep(t, e);
    case _ => RepairHasStep(t, e);
  }

  lemma AmendmentStepIsRow(t: Tables, k: nat) returns (e: Place)
    requires k < |Each(t.amendments, AmendmentSteps)| && Each(t.amendments, AmendmentSteps)[k].Amend?
    ensures Checked(t, e) && e.table == 0 && k == |StepsTo(t, e)|
  {
    hide AmendedRowSteps, Each;
    var r, j := EachFind(t.amendments, AmendmentSteps, k);
    EachAt(t.amendments, AmendmentSteps, r, j);
    var a := t.amendments[r];
    var target := ByOffer(a.offer, a.window);
    var f := (x: AmendedRow) => AmendedRowSteps(target, x);
    AmendedRowsEach(target, a.rows, f);
    assert AmendmentSteps(a) == [Parent(target), Distinct(target)] + Each(a.rows, f) && j >= 2;
    var row, i := EachFind(a.rows, f, j - 2);
    EachAt(a.rows, f, row, i);
    AmendedRowIsSome(target, a.rows[row]);
    assert i == 0;
    AmendedRowsEach(target, a.rows[..row], f);
    e := Place(0, r, row);
  }

  lemma RevisionStepIsRow(t: Tables, k: nat) returns (e: Place)
    requires k < |Each(t.revisions, SavedRevisionSteps)| && Each(t.revisions, SavedRevisionSteps)[k].Amend?
    ensures Checked(t, e) && e.table == 1 && k == |Each(t.revisions[..e.record], SavedRevisionSteps)| + e.row
  {
    hide Each;
    var r, j := EachFind(t.revisions, SavedRevisionSteps, k);
    EachAt(t.revisions, SavedRevisionSteps, r, j);
    e := Place(1, r, j);
  }

  lemma RepairStepIsRow(t: Tables, k: nat) returns (e: Place)
    requires k < |RepairList(t)| && RepairList(t)[k].Amend?
    ensures Checked(t, e) && e.table == 2 && k == |Each(t.repairs[..e.record], RepairSteps)| + e.row
  {
    hide Each;
    var r, j := EachFind(t.repairs, RepairSteps, k);
    EachAt(t.repairs, RepairSteps, r, j);
    e := Place(2, r, j);
  }

  lemma OpenNeverAmends(t: Tables)
    ensures forall s :: s in Each(t.revisions, OpenRevisionSteps) ==> !s.Amend?
    ensures forall s :: s in Each(t.inclusions, IncludeSteps) ==> !s.Amend?
  {
    forall s | s in Each(t.revisions, OpenRevisionSteps) ensures !s.Amend? {
      InEach(t.revisions, OpenRevisionSteps, s);
    }
    forall s | s in Each(t.inclusions, IncludeSteps) ensures !s.Amend? {
      InclusionsAmendNothing(t, s);
    }
  }

  /** Every step that amends is the one of a row that takes part. */
  lemma StepHasRow(t: Tables, k: nat) returns (e: Place)
    requires k < |AllSteps(t)| && AllSteps(t)[k].Amend?
    ensures StandsAt(t, e, k)
  {
    hide Each, AmendmentSteps, SavedRevisionSteps, RepairSteps, IncludeSteps, OpenRevisionSteps, RepairList, StandsAt;
    var a, o := Each(t.amendments, AmendmentSteps), Each(t.revisions, OpenRevisionSteps);
    var r, p, i := Each(t.revisions, SavedRevisionSteps), RepairList(t), Each(t.inclusions, IncludeSteps);
    assert AllSteps(t) == a + o + r + p + i;
    OpenNeverAmends(t);
    var ao, aor := |a| + |o|, |a| + |o| + |r|;
    if k < |a| {
      e := AmendmentStepIsRow(t, k);
    } else if k < ao {
      assert false;
    } else if k < aor {
      e := RevisionStepIsRow(t, k - ao);
      RevisionLength(t, e);
    } else if k < aor + |p| {
      e := RepairStepIsRow(t, k - aor);
      RepairLength(t, e);
    } else {
      assert false;
    }
    RowHasStep(t, e);
  }

  lemma RevisionLength(t: Tables, e: Place)
    requires Checked(t, e) && e.table == 1
    ensures |StepsTo(t, e)|
            == |Each(t.amendments, AmendmentSteps)| + |Each(t.revisions, OpenRevisionSteps)|
               + |Each(t.revisions[..e.record], SavedRevisionSteps)| + e.row
  {
    hide Each;
  }

  lemma RepairLength(t: Tables, e: Place)
    requires Checked(t, e) && e.table == 2
    ensures |StepsTo(t, e)|
            == |Each(t.amendments, AmendmentSteps)| + |Each(t.revisions, OpenRevisionSteps)|
               + |Each(t.revisions, SavedRevisionSteps)| + |Each(t.repairs[..e.record], RepairSteps)| + e.row
  {
    hide Each;
  }

  // ---------- when the projection succeeds ----------

  /** The offer is one that the target names: by identity or platform number, and by window. */
  predicate Is(t: Target, o: Offer) {
    match t
    case ByOffer(id, window) => o.id == id && o.window == window
    case ByPlatform(platform, window) => o.platform == platform && o.window == window
  }

  predicate OnlyOffer(offers: seq<Offer>, t: Target, i: int) {
    0 <= i < |offers| && Is(t, offers[i]) && forall j :: 0 <= j < |offers| && Is(t, offers[j]) ==> j == i
  }

  predicate RowAt(offers: seq<Offer>, t: Target, p: Pair, i: int, j: int) {
    0 <= i < |offers| && Is(t, offers[i]) && 0 <= j < |offers[i].rows| && offers[i].rows[j].pair == p
  }

  /** Among all offers that the target names there is one row of this SKU. */
  ghost predicate OneRow(offers: seq<Offer>, t: Target, p: Pair) {
    exists i, j :: OnlyRow(offers, t, p, i, j)
  }

  ghost predicate OnlyRow(offers: seq<Offer>, t: Target, p: Pair, i: int, j: int) {
    RowAt(offers, t, p, i, j) && forall k, l :: RowAt(offers, t, p, k, l) ==> k == i && l == j
  }

  ghost predicate AmendmentMeets(offers: seq<Offer>, a: Amendment) {
    var t := ByOffer(a.offer, a.window);
    && (exists i :: OnlyOffer(offers, t, i) && Distinguished(offers[i].rows))
    && forall r :: r in a.rows ==> OneRow(offers, t, r.pair) && (r.status == Authority.Status.Unknown || r.proven)
  }

  /** There are rows, each of another SKU. */
  predicate Distinguished(rows: seq<SavedRow>) {
    |rows| > 0 && forall i, j :: 0 <= i < j < |rows| ==> rows[i].pair != rows[j].pair
  }

  ghost predicate RevisionMeets(offers: seq<Offer>, c: CostRevision) {
    c.stage == Verified && !c.later ==>
      c.proven
      && forall r :: r in c.rows ==> OneRow(offers, ByPlatform(c.platform, c.window), Pair(c.item, r.sku))
  }

  ghost predicate RepairMeets(offers: seq<Offer>, s: SavedRepair) {
    s.stage == Verified ==>
      forall r :: r in s.rows ==> r.proven && OneRow(offers, ByPlatform(r.platform, s.window), r.pair)
  }

  ghost predicate InclusionMeets(offers: seq<Offer>, c: IncludeClaim) {
    c.stage == Dispatched || c.stage == Verified ==>
      exists i :: OnlyOffer(offers, ByPlatform(c.platform, c.window), i)
  }

  /** The amount that the rows before this one left is one that it may find. */
  ghost predicate Finds(t: Tables, e: Place, offers: seq<Offer>) {
    Checked(t, e) ==>
      forall i, x :: 0 <= i < |offers| && Meant(t, e, offers[i]) && Stands(t, e, offers[i], PairOf(t, e), x) ==>
                       MayFind(t, e, x)
  }

  lemma {:induction false} HitsExactly(offers: seq<Offer>, t: Target)
    ensures HitCount(offers, t) == 0 <==> forall i :: 0 <= i < |offers| ==> !Is(t, offers[i])
    ensures HitCount(offers, t) == 1 <==> exists i :: OnlyOffer(offers, t, i)
  {
    if offers != [] {
      var n := |offers| - 1;
      HitsExactly(offers[..n], t);
      assert Hits(t, offers[n]) <==> Is(t, offers[n]);
      hide Hits, Is;
      if Is(t, offers[n]) {
        assert HitCount(offers[..n], t) == 0 <==> OnlyOffer(offers, t, n);
      } else {
        forall i ensures OnlyOffer(offers, t, i) <==> OnlyOffer(offers[..n], t, i) {
        }
      }
    }
  }

  predicate OnlyIn(rows: seq<SavedRow>, p: Pair, j: int) {
    0 <= j < |rows| && rows[j].pair == p && forall k :: 0 <= k < |rows| && rows[k].pair == p ==> k == j
  }

  lemma {:induction false} CountExactly(rows: seq<SavedRow>, p: Pair)
    ensures RowCount(rows, p) == 0 <==> forall j :: 0 <= j < |rows| ==> rows[j].pair != p
    ensures RowCount(rows, p) == 1 <==> exists j :: OnlyIn(rows, p, j)
  {
    if rows != [] {
      var n := |rows| - 1;
      CountExactly(rows[..n], p);
      if rows[n].pair == p {
        assert RowCount(rows[..n], p) == 0 <==> OnlyIn(rows, p, n);
      } else {
        forall j ensures OnlyIn(rows, p, j) <==> OnlyIn(rows[..n], p, j) {
        }
      }
    }
  }

  lemma {:induction false} NoRowsExactly(offers: seq<Offer>, t: Target, p: Pair)
    ensures RowHits(offers, t, p) == 0 <==> forall i, j :: !RowAt(offers, t, p, i, j)
  {
    if offers != [] {
      var n := |offers| - 1;
      NoRowsExactly(offers[..n], t, p);
      assert Hits(t, offers[n]) <==> Is(t, offers[n]);
      CountExactly(offers[n].rows, p);
      hide Hits, Is, RowCount;
      forall i, j | i < n ensures RowAt(offers, t, p, i, j) <==> RowAt(offers[..n], t, p, i, j) {
      }
      forall j | 0 <= j < |offers[n].rows| && offers[n].rows[j].pair == p
        ensures RowAt(offers, t, p, n, j) <==> Is(t, offers[n])
      {
      }
    }
  }

  lemma {:induction false} OneRowExactly(offers: seq<Offer>, t: Target, p: Pair)
    ensures RowHits(offers, t, p) == 1 <==> OneRow(offers, t, p)
  {
    if offers != [] {
      var n := |offers| - 1;
      var rest := offers[..n];
      OneRowExactly(rest, t, p);
      NoRowsExactly(rest, t, p);
      assert Hits(t, offers[n]) <==> Is(t, offers[n]);
      CountExactly(offers[n].rows, p);
      hide Hits, Is, RowCount;
      forall i, j | i < n ensures RowAt(offers, t, p, i, j) <==> RowAt(rest, t, p, i, j) {
      }
      OneMoreOffer(offers, t, p);
    }
  }

  /** The one row is among the earlier offers, or it is the only one of the last offer. */
  lemma OneMoreOffer(offers: seq<Offer>, t: Target, p: Pair)
    requires offers != []
    ensures var n := |offers| - 1;
            OneRow(offers, t, p)
            <==> if Is(t, offers[n]) && exists j :: 0 <= j < |offers[n].rows| && offers[n].rows[j].pair == p
                 then (exists j :: OnlyIn(offers[n].rows, p, j)) && forall i, j :: !RowAt(offers[..n], t, p, i, j)
                 else OneRow(offers[..n], t, p)
  {
    var n := |offers| - 1;
    var rest, rows := offers[..n], offers[n].rows;
    forall i, j | i < n ensures RowAt(offers, t, p, i, j) <==> RowAt(rest, t, p, i, j) {
    }
    if Is(t, offers[n]) && exists j :: 0 <= j < |rows| && rows[j].pair == p {
      var last :| 0 <= last < |rows| && rows[last].pair == p;
      assert RowAt(offers, t, p, n, last);
      forall j ensures RowAt(offers, t, p, n, j) <==> 0 <= j < |rows| && rows[j].pair == p {
      }
      if j :| OnlyIn(rows, p, j) && forall i, l :: !RowAt(rest, t, p, i, l) {
        assert OnlyRow(offers, t, p, n, j);
      }
      if i, j :| OnlyRow(offers, t, p, i, j) {
        assert i == n && OnlyIn(rows, p, j);
        forall k, l ensures !RowAt(rest, t, p, k, l) {
        }
      }
    } else {
      forall i, j ensures RowAt(offers, t, p, i, j) <==> RowAt(rest, t, p, i, j) {
      }
      forall i, j ensures OnlyRow(offers, t, p, i, j) <==> OnlyRow(rest, t, p, i, j) {
      }
    }
  }

  // ---------- the whole projection ----------

  lemma OneOfferDistinct(offers: seq<Offer>, t: Target)
    ensures (HitCount(offers, t) == 1
             && (forall o :: o in offers && Hits(t, o) ==> o.rows != [] && DistinctPairs(o.rows)))
            <==> exists i :: OnlyOffer(offers, t, i) && Distinguished(offers[i].rows)
  {
    hide HitCount;
    HitsExactly(offers, t);
    forall o ensures Hits(t, o) <==> Is(t, o) {
    }
    hide Hits, Is;
    if i :| OnlyOffer(offers, t, i) {
      assert offers[i] in offers;
      forall o | o in offers && Is(t, o) ensures o == offers[i] {
        var j :| 0 <= j < |offers| && offers[j] == o;
      }
      assert forall j :: OnlyOffer(offers, t, j) ==> j == i;
    }
  }

  /** What the records need of the offers, counted or said of their places. */
  lemma MeetsExactly(offers: seq<Offer>, t: Tables)
    ensures TablesFit(offers, t)
            <==> && (forall a :: a in t.amendments ==> AmendmentMeets(offers, a))
                 && (forall c :: c in t.revisions ==> RevisionMeets(offers, c))
                 && (forall s :: s in t.repairs ==> RepairMeets(offers, s))
                 && (forall c :: c in t.inclusions ==> InclusionMeets(offers, c))
  {
    hide RowHits, OneRow, HitCount, OnlyOffer;
    forall target, p ensures RowHits(offers, target, p) == 1 <==> OneRow(offers, target, p) {
      OneRowExactly(offers, target, p);
    }
    forall a | a in t.amendments ensures AmendmentFits(offers, a) <==> AmendmentMeets(offers, a) {
      OneOfferDistinct(offers, ByOffer(a.offer, a.window));
    }
    forall c | c in t.revisions ensures RevisionFits(offers, c) <==> RevisionMeets(offers, c) {
    }
    forall s | s in t.repairs ensures RepairFits(offers, s) <==> RepairMeets(offers, s) {
    }
    forall c | c in t.inclusions ensures InclusionFits(offers, c) <==> InclusionMeets(offers, c) {
      HitsExactly(offers, ByPlatform(c.platform, c.window));
    }
    hide AmendmentFits, RevisionFits, RepairFits, InclusionFits;
    hide AmendmentMeets, RevisionMeets, RepairMeets, InclusionMeets;
  }

  lemma FindsExactly(t: Tables, e: Place, k: nat, offers: seq<Offer>)
    requires StandsAt(t, e, k)
    ensures OldAmountFits(offers, AllSteps(t), k) <==> Finds(t, e, offers)
  {
    hide AllSteps, StepsTo, LastWritten, Stands, TakesPart, PairOf, MayFind;
    var s, p := AllSteps(t)[k], PairOf(t, e);
    forall i | 0 <= i < |offers|
      ensures Hits(s.target, offers[i]) <==> Meant(t, e, offers[i])
      ensures LastWritten(AllSteps(t)[..k], offers[i], p) == Amount(t, e, offers[i], p)
    {
      StepsGive(t, e, offers[i], p);
    }
    forall i, x | 0 <= i < |offers| ensures Amount(t, e, offers[i], p) == Some(x) <==> Stands(t, e, offers[i], p, x) {
      AmountStands(t, e, offers[i], p, x);
    }
    assert s.Amend? && s.pair == p && forall x :: x in s.expected <==> MayFind(t, e, x);
    hide Hits, Meant, Amount, TargetOf, StandsAt, Placed;
    if Finds(t, e, offers) {
      forall i | 0 <= i < |offers| && Meant(t, e, offers[i]) && Amount(t, e, offers[i], p).Some?
        ensures Amount(t, e, offers[i], p).value in s.expected
      {
        assert Stands(t, e, offers[i], p, Amount(t, e, offers[i], p).value);
      }
    }
    if OldAmountFits(offers, AllSteps(t), k) {
      forall i, x | 0 <= i < |offers| && Meant(t, e, offers[i]) && Stands(t, e, offers[i], p, x)
        ensures MayFind(t, e, x)
      {
        assert Hits(s.target, offers[i]) && LastWritten(AllSteps(t)[..k], offers[i], s.pair) == Some(x);
      }
    }
  }

  /**
   * The whole projection succeeds if and only if every record has its evidence and finds its one
   * offer and its one row each among the imported ones, and every row that takes part finds an
   * amount that it may find.
   */
  lemma ProjectionExactly(t: Tables, offers: seq<Offer>)
    ensures Run(AllSteps(t), offers).Ok?
            <==> && (forall a :: a in t.amendments ==> AmendmentMeets(offers, a))
                 && (forall c :: c in t.revisions ==> RevisionMeets(offers, c))
                 && (forall s :: s in t.repairs ==> RepairMeets(offers, s))
                 && (forall c :: c in t.inclusions ==> InclusionMeets(offers, c))
                 && (forall e :: Finds(t, e, offers))
  {
    hide AllSteps, StandsAt, OldAmountFits, Finds, TablesFit, Checked;
    hide AmendmentMeets, RevisionMeets, RepairMeets, InclusionMeets;
    ProjectsExactly(t, offers);
    MeetsExactly(offers, t);
    var steps := AllSteps(t);
    forall k | 0 <= k < |steps| && !steps[k].Amend? ensures OldAmountFits(offers, steps, k) {
      NoAmountNeeded(offers, offers, steps, k);
    }
    forall e | !Checked(t, e) ensures Finds(t, e, offers) {
      UncheckedFinds(t, e, offers);
    }
    if forall e :: Finds(t, e, offers) {
      forall k | 0 <= k < |steps| && steps[k].Amend? ensures OldAmountFits(offers, steps, k) {
        var e := StepHasRow(t, k);
        FindsExactly(t, e, k, offers);
      }
    }
    if forall k :: 0 <= k < |steps| ==> OldAmountFits(offers, steps, k) {
      forall e | Checked(t, e) ensures Finds(t, e, offers) {
        RowFindsIts(t, e, offers);
      }
    }
  }

  lemma UncheckedFinds(t: Tables, e: Place, offers: seq<Offer>)
    requires !Checked(t, e)
    ensures Finds(t, e, offers)
  {
  }

  lemma RowFindsIts(t: Tables, e: Place, offers: seq<Offer>)
    requires Checked(t, e) && forall k :: 0 <= k < |AllSteps(t)| ==> OldAmountFits(offers, AllSteps(t), k)
    ensures Finds(t, e, offers)
  {
    hide OldAmountFits, Finds, AllSteps, StepsTo;
    RowHasStep(t, e);
    FindsExactly(t, e, |StepsTo(t, e)|, offers);
  }

  /** A change of this product of this offer whose outcome is not recorded. */
  ghost predicate Pending(t: Tables, o: Offer, item: Item) {
    || (exists a, r :: a in t.amendments && r in a.rows && o.id == a.offer && o.window == a.window
                       && r.status == Authority.Status.Unknown && r.pair.item == item)
    || (exists c :: c in t.revisions && c.stage == Dispatched && o.platform == c.platform && o.window == c.window
                    && c.item == item)
    || (exists c, r :: c in t.inclusions && r in c.rows && c.stage == Dispatched && o.platform == c.platform
                       && o.window == c.window && r.pair.item == item)
  }

  lemma PendingIsOpen(t: Tables, o: Offer, item: Item)
    ensures IsOpen(t, o, item) <==> Pending(t, o, item)
  {
    forall c | c in t.inclusions
      ensures item in ItemsOfRows(c.rows) <==> exists r :: r in c.rows && r.pair.item == item
    {
    }
  }

  /**
   * After a projection that succeeds, every offer keeps its identity and window; the status of a
   * product is the imported one, or unknown while a change of it is pending; and the amount of a SKU
   * is the one that the rows of all tables leave, in their order.
   */
  lemma ProjectedExactly(t: Tables, offers: seq<Offer>, i: nat, p: Pair, x: Cents)
    requires Run(AllSteps(t), offers).Ok? && i < |offers|
    ensures |Run(AllSteps(t), offers).value| == |offers|
    ensures var before, after := offers[i], Run(AllSteps(t), offers).value[i];
            && after.id == before.id && after.platform == before.platform && after.window == before.window
            && after.items.Keys == before.items.Keys
            && (p.item in before.items ==>
                  after.items[p.item]
                  == if Pending(t, before, p.item) then Authority.Status.Unknown else before.items[p.item])
            && (Saves(after, p, x) <==> Stands(t, END, before, p, x))
  {
    hide AllSteps, Run, LastWritten, Stands, IsOpen, Pending, IsVerified;
    ProjectionIsConservative(t, offers, i);
    PendingIsOpen(t, offers[i], p.item);
    AllGive(t, offers[i], p);
    AmountStands(t, END, offers[i], p, x);
    SavedExactly(Run(AllSteps(t), offers).value[i], p);
  }

  // ---------- what inclusions leave on the record ----------

  predicate Includes(s: Step, o: Offer, inc: Inclusion) {
    s.Include? && Hits(s.target, o) && s.inclusion == inc
  }

  /** The offer has recorded exactly these inclusions; only a partial one needs their SKUs as verified. */
  ghost predicate Recorded(steps: seq<Step>, before: Offer, after: Offer) {
    && after.partialReceipt == before.partialReceipt && after.original == before.original
    && after.id == before.id && after.platform == before.platform && after.window == before.window
    && (forall inc :: inc in after.included <==> inc in before.included || Brings(steps, before, inc))
    && (forall p :: p in after.verified
                    <==> p in before.verified
                         || (before.partialReceipt.Some?
                             && exists inc :: Brings(steps, before, inc) && AddsSku(inc, p)))
  }

  ghost predicate Brings(steps: seq<Step>, o: Offer, inc: Inclusion) {
    exists s :: s in steps && Includes(s, o, inc)
  }

  predicate AddsSku(inc: Inclusion, p: Pair) {
    exists r :: r in inc.rows && r.pair == p
  }

  lemma RecordOne(steps: seq<Step>, s: Step, before: Offer, mid: Offer)
    requires Recorded(steps, before, mid)
    ensures Recorded(steps + [s], before, Stepped(mid, s))
  {
    forall inc ensures Brings(steps + [s], before, inc) <==> Brings(steps, before, inc) || Includes(s, before, inc) {
    }
    hide Brings;
    forall inc: Inclusion, p ensures p in PairsOf(inc.rows) <==> AddsSku(inc, p) {
    }
    hide PairsOf, AddsSku;
    assert s.Include? ==> Hits(s.target, mid) == Hits(s.target, before);
    assert s.Include? ==> forall inc :: Includes(s, before, inc) <==> Hits(s.target, before) && inc == s.inclusion;
    hide Hits;
  }

  lemma {:induction false} RunRecords(steps: seq<Step>, offers: seq<Offer>, i: nat)
    requires Run(steps, offers).Ok? && i < |offers|
    ensures |Run(steps, offers).value| == |offers| && Recorded(steps, offers[i], Run(steps, offers).value[i])
  {
    hide Recorded;
    if steps == [] {
      NothingRecorded(offers[i]);
    } else {
      var n := |steps| - 1;
      RunRecords(steps[..n], offers, i);
      assert steps == steps[..n] + [steps[n]];
      RecordOne(steps[..n], steps[n], offers[i], Run(steps[..n], offers).value[i]);
    }
  }

  lemma NothingRecorded(o: Offer)
    ensures Recorded([], o, o)
  {
  }

  /** A verified inclusion of this offer. */
  ghost predicate Included(t: Tables, o: Offer, c: IncludeClaim) {
    c in t.inclusions && c.stage == Verified && o.platform == c.platform && o.window == c.window
  }

  lemma BringsExactly(t: Tables, o: Offer, inc: Inclusion)
    ensures Brings(AllSteps(t), o, inc)
            <==> exists c :: Included(t, o, c) && inc == Inclusion(c.rows, c.windowExact, c.saved)
  {
    hide StepsBeforeInclusions, Each;
    var early, late := StepsBeforeInclusions(t), Each(t.inclusions, IncludeSteps);
    if s :| s in AllSteps(t) && Includes(s, o, inc) {
      if s in early {
        NothingAddedBefore(t, s);
        assert false;
      } else {
        InEach(t.inclusions, IncludeSteps, s);
        var c :| c in t.inclusions && s in IncludeSteps(c);
        assert Included(t, o, c);
      }
    }
    if c :| Included(t, o, c) && inc == Inclusion(c.rows, c.windowExact, c.saved) {
      var s := Include(ByPlatform(c.platform, c.window), inc);
      assert s in IncludeSteps(c) && Includes(s, o, inc);
      InEach(t.inclusions, IncludeSteps, s);
    }
  }

  /**
   * The evidence of an offer stays, and with it exactly the verified inclusions of this offer are
   * recorded; the SKUs of a partially imported offer that count as verified grow by theirs.
   */
  lemma InclusionsExactly(t: Tables, offers: seq<Offer>, i: nat, p: Pair)
    requires Run(AllSteps(t), offers).Ok? && i < |offers|
    ensures |Run(AllSteps(t), offers).value| == |offers|
    ensures var before, after := offers[i], Run(AllSteps(t), offers).value[i];
            && after.partialReceipt == before.partialReceipt && after.original == before.original
            && (forall inc :: inc in after.included
                              <==> inc in before.included
                                   || exists c :: Included(t, before, c)
                                                  && inc == Inclusion(c.rows, c.windowExact, c.saved))
            && (p in after.verified
                <==> p in before.verified
                     || (before.partialReceipt.Some?
                         && exists c, r :: Included(t, before, c) && r in c.rows && r.pair == p))
  {
    hide AllSteps, Run, Brings, Included;
    RunRecords(AllSteps(t), offers, i);
    forall inc
      ensures Brings(AllSteps(t), offers[i], inc)
              <==> exists c :: Included(t, offers[i], c) && inc == Inclusion(c.rows, c.windowExact, c.saved)
    {
      BringsExactly(t, offers[i], inc);
    }
    if inc :| Brings(AllSteps(t), offers[i], inc) && AddsSku(inc, p) {
      var c :| Included(t, offers[i], c) && inc == Inclusion(c.rows, c.windowExact, c.saved);
      assert exists r :: r in c.rows && r.pair == p;
    }
    if c, r :| Included(t, offers[i], c) && r in c.rows && r.pair == p {
      assert AddsSku(Inclusion(c.rows, c.windowExact, c.saved), p);
    }
  }
}
