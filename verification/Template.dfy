/**
 * Compacting the official workbook: unselected rows are dropped, kept rows are renumbered
 * from row 4 and single-column merged ranges (sections 18.3.1.54 and 18.3.1.55 of ECMA-376
 * Part 1) are remapped. The visible value of every kept cell survives.
 */
module Template {
  import opened CampaignTypes

  type Col = nat
  type Cells = map<int, map<Col, string>>

  const ITEM_COL: Col := 0
  const STATE_COL: Col := 3
  const SKU_COL: Col := 4
  const LAST_HEADER_ROW := 3

  /** A merged range, its top-left corner first. */
  datatype Merge = Merge(col: Col, first: int, endCol: Col, last: int)

  /** Physical cells by row and column; order lists the rows upwards. */
  datatype Sheet = Sheet(order: seq<int>, cells: Cells, merges: seq<Merge>)

  datatype Layout = Layout(price: Col, percent: Col, amount: Col)

  function Cell(cells: Cells, n: int, col: Col): string {
    if n in cells && col in cells[n] then cells[n][col] else ""
  }

  predicate Owns(m: Merge, n: int, col: Col) {
    m.col == col == m.endCol && m.first <= n <= m.last
  }

  /** The single-column ranges over a cell, found by a linear scan. */
  function OwnerMerges(merges: seq<Merge>, n: int, col: Col): seq<Merge> {
    if merges == [] then []
    else
      var rest := OwnerMerges(merges[..|merges| - 1], n, col);
      if Owns(merges[|merges| - 1], n, col) then rest + [merges[|merges| - 1]] else rest
  }

  /** The visible value of a cell: its own, or the anchor's of the one range over it. */
  function Effective(cells: Cells, merges: seq<Merge>, n: int, col: Col): Result<string> {
    var owners := OwnerMerges(merges, n, col);
    if Cell(cells, n, col) != "" then Ok(Cell(cells, n, col))
    else if |owners| > 1 then Err("overlapping_merge")
    else if owners == [] then Ok("")
    else Ok(Cell(cells, owners[0].first, col))
  }

  // ---------- the indexed, cached lookup ----------

  function FirstRows(merges: seq<Merge>): (r: seq<int>)
    ensures |r| == |merges| && forall i :: 0 <= i < |r| ==> r[i] == merges[i].first
  {
    seq(|merges|, i requires 0 <= i < |merges| => merges[i].first)
  }

  /** The single-column ranges of one column as (first, last) spans, in sheet order. */
  function Spans(merges: seq<Merge>, col: Col): seq<(int, int)> {
    if merges == [] then []
    else
      var m := merges[|merges| - 1];
      var rest := Spans(merges[..|merges| - 1], col);
      if m.col == m.endCol == col then rest + [(m.first, m.last)] else rest
  }

  function BeginsOver(spans: seq<(int, int)>, n: int): seq<int> {
    if spans == [] then []
    else
      var s := spans[|spans| - 1];
      var rest := BeginsOver(spans[..|spans| - 1], n);
      if s.0 <= n <= s.1 then rest + [s.0] else rest
  }

  /** Looking up the column index finds the same anchors as scanning every range. */
  lemma {:induction false} IndexAgreesWithScan(merges: seq<Merge>, n: int, col: Col)
    ensures BeginsOver(Spans(merges, col), n) == FirstRows(OwnerMerges(merges, n, col))
  {
    if merges != [] {
      var k := |merges| - 1;
      var rest, m := merges[..k], merges[k];
      IndexAgreesWithScan(rest, n, col);
      if m.col == m.endCol == col {
        var spans := Spans(rest, col);
        assert (spans + [(m.first, m.last)])[..|spans|] == spans;
        assert FirstRows(OwnerMerges(rest, n, col) + [m]) == FirstRows(OwnerMerges(rest, n, col)) + [m.first];
      }
    }
  }

  class MergeRanges {
    const merges: seq<Merge>
    var columns: map<Col, seq<(int, int)>>
    var cache: map<(int, Col), seq<int>>

    /** The index and every cached answer are those of the ranges. */
    ghost predicate Valid()
      reads this
    {
      && (forall c: Col :: c !in columns ==> Spans(merges, c) == [])
      && (forall c: Col :: c in columns ==> columns[c] == Spans(merges, c))
      && forall n, c: Col :: (n, c) in cache ==> cache[(n, c)] == FirstRows(OwnerMerges(merges, n, c))
    }

    constructor (values: seq<Merge>)
      ensures Valid() && merges == values && cache == map[]
    {
      merges := values;
      columns := map[];
      cache := map[];
      new;
      for i := 0 to |values|
        invariant cache == map[]
        invariant forall c: Col :: c !in columns ==> Spans(values[..i], c) == []
        invariant forall c: Col :: c in columns ==> columns[c] == Spans(values[..i], c)
      {
        var m := values[i];
        assert values[..i + 1][..i] == values[..i];
        if m.endCol == m.col {
          var earlier := if m.col in columns then columns[m.col] else [];
          columns := columns[m.col := earlier + [(m.first, m.last)]];
        }
      }
      assert values[..|values|] == values;
    }

    /** The anchors over a cell; asking again is answered from the cache. */
    method Owners(n: int, col: Col) returns (anchors: seq<int>)
      requires Valid()
      modifies this`cache
      ensures Valid() && anchors == FirstRows(OwnerMerges(merges, n, col))
      ensures (n, col) in cache && forall k :: k in old(cache) ==> k in cache && cache[k] == old(cache[k])
    {
      var key := (n, col);
      if key !in cache {
        var spans := if col in columns then columns[col] else [];
        var found := [];
        for i := 0 to |spans|
          invariant found == BeginsOver(spans[..i], n)
        {
          assert spans[..i + 1][..i] == spans[..i];
          if spans[i].0 <= n <= spans[i].1 {
            found := found + [spans[i].0];
          }
        }
        assert spans[..|spans|] == spans;
        IndexAgreesWithScan(merges, n, col);
        cache := cache[key := found];
      }
      anchors := cache[key];
    }

    /** The indexed visible value is the one of the plain list of ranges. */
    method VisibleValue(cells: Cells, n: int, col: Col) returns (value: Result<string>)
      requires Valid()
      modifies this`cache
      ensures Valid() && value == Effective(cells, merges, n, col)
    {
      if Cell(cells, n, col) != "" {
        return Ok(Cell(cells, n, col));
      }
      var anchors := Owners(n, col);
      if |anchors| > 1 {
        return Err("overlapping_merge");
      }
      return Ok(if anchors == [] then "" else Cell(cells, anchors[0], col));
    }
  }

  // ---------- one merged range ----------

  predicate Upwards(rows: seq<int>) {
    forall i, j :: 0 <= i < j < |rows| ==> rows[i] < rows[j]
  }

  /** Kept data rows, strictly upwards. */
  predicate KeptRows(kept: seq<int>) {
    && (forall i :: 0 <= i < |kept| ==> kept[i] > LAST_HEADER_ROW)
    && Upwards(kept)
  }

  function Retained(kept: seq<int>, m: Merge): seq<int> {
    if kept == [] then []
    else (if m.first <= kept[0] <= m.last then [kept[0]] else []) + Retained(kept[1..], m)
  }

  /** Exactly the rows from lo up to hi are in the range. */
  predicate Spanned(rows: seq<int>, m: Merge, lo: nat, hi: nat) {
    lo <= hi <= |rows| && forall k :: 0 <= k < |rows| ==> (m.first <= rows[k] <= m.last <==> lo <= k < hi)
  }

  /** A further row at the front, and where the span is then. */
  lemma SpanGrows(first: int, tail: seq<int>, m: Merge, a: nat, b: nat) returns (lo: nat, hi: nat)
    requires Upwards(tail) && Spanned(tail, m, a, b) && forall k :: 0 <= k < |tail| ==> first < tail[k]
    ensures Spanned([first] + tail, m, lo, hi)
    ensures ([first] + tail)[lo..hi] == (if m.first <= first <= m.last then [first] else []) + tail[a..b]
  {
    var rows := [first] + tail;
    assert forall k :: 0 < k < |rows| ==> rows[k] == tail[k - 1];
    if m.first <= first <= m.last {
      if a < b {
        assert m.first < tail[0] <= tail[a] <= m.last;
      }
      lo, hi := 0, if a == b then 1 else b + 1;
    } else {
      lo, hi := a + 1, b + 1;
    }
  }

  /** The retained rows of a range are consecutive kept rows, and no other kept row is in it. */
  lemma {:induction false} RetainedConsecutive(kept: seq<int>, m: Merge) returns (lo: nat, hi: nat)
    requires Upwards(kept)
    ensures Spanned(kept, m, lo, hi) && Retained(kept, m) == kept[lo..hi]
  {
    if kept == [] {
      lo, hi := 0, 0;
    } else {
      hide Spanned;
      var a, b := RetainedConsecutive(kept[1..], m);
      assert kept == [kept[0]] + kept[1..];
      lo, hi := SpanGrows(kept[0], kept[1..], m, a, b);
    }
  }

  predicate Data(m: Merge) { m.last > LAST_HEADER_ROW }

  /** The row number that a kept row gets. */
  function NewRow(kept: seq<int>, n: int): int {
    if kept == [] || kept[0] == n then LAST_HEADER_ROW + 1 else 1 + NewRow(kept[1..], n)
  }

  lemma {:induction false} NewRowOfIndex(kept: seq<int>, k: nat)
    requires k < |kept| && Upwards(kept)
    ensures NewRow(kept, kept[k]) == LAST_HEADER_ROW + 1 + k
  {
    if k > 0 {
      assert kept[1..][k - 1] == kept[k];
      NewRowOfIndex(kept[1..], k - 1);
    }
  }

  /** What remains of one range: header ranges stay, a data range spans its retained rows. */
  function Image(m: Merge, kept: seq<int>): seq<Merge> {
    var r := Retained(kept, m);
    if !Data(m) then [m]
    else if |r| > 1 then [Merge(m.col, NewRow(kept, r[0]), m.col, NewRow(kept, r[|r| - 1]))]
    else []
  }

  function Images(merges: seq<Merge>, kept: seq<int>): seq<Merge> {
    if merges == [] then []
    else Images(merges[..|merges| - 1], kept) + Image(merges[|merges| - 1], kept)
  }

  predicate Supported(m: Merge, layout: Layout) {
    Data(m) ==> && m.first > LAST_HEADER_ROW && m.col == m.endCol
                && m.col != SKU_COL && m.col != layout.price && m.col != layout.amount
  }

  lemma SingleRange(m: Merge, n: int, col: Col, kept: seq<int>)
    ensures OwnerMerges([m], n, col) == if Owns(m, n, col) then [m] else []
    ensures Images([m], kept) == Image(m, kept)
  {
  }

  /** The remapped range, from the positions of the retained rows among the kept ones. */
  lemma ImageSpan(m: Merge, kept: seq<int>) returns (lo: nat, hi: nat)
    requires KeptRows(kept)
    ensures lo <= hi <= |kept| && Retained(kept, m) == kept[lo..hi]
    ensures forall k :: 0 <= k < |kept| ==> (m.first <= kept[k] <= m.last <==> lo <= k < hi)
    ensures Data(m) && hi - lo > 1 ==>
              Image(m, kept) == [Merge(m.col, LAST_HEADER_ROW + 1 + lo, m.col, LAST_HEADER_ROW + hi)]
    ensures Data(m) && hi - lo <= 1 ==> Image(m, kept) == []
  {
    lo, hi := RetainedConsecutive(kept, m);
    if hi - lo > 1 {
      NewRowOfIndex(kept, lo);
      NewRowOfIndex(kept, hi - 1);
    }
  }

  /** A remapped range covers a renumbered row exactly when its source covered the old row. */
  lemma ImageCovers(m: Merge, kept: seq<int>, layout: Layout, k: nat, col: Col)
    requires KeptRows(kept) && Supported(m, layout) && k < |kept|
    ensures OwnerMerges(Image(m, kept), LAST_HEADER_ROW + 1 + k, col) ==
            if Owns(m, kept[k], col) then Image(m, kept) else []
  {
    var lo, hi := ImageSpan(m, kept);
    var image := if Data(m) then Merge(m.col, LAST_HEADER_ROW + 1 + lo, m.col, LAST_HEADER_ROW + hi) else m;
    SingleRange(image, LAST_HEADER_ROW + 1 + k, col, kept);
  }

  lemma {:induction false} OwnersAppend(a: seq<Merge>, b: seq<Merge>, n: int, col: Col)
    ensures OwnerMerges(a + b, n, col) == OwnerMerges(a, n, col) + OwnerMerges(b, n, col)
  {
    hide Owns;
    if b == [] {
      assert a + b == a;
    } else {
      var k := |b| - 1;
      assert (a + b)[..|a| + k] == a + b[..k];
      OwnersAppend(a, b[..k], n, col);
    }
  }

  lemma {:induction false} ImagesAppend(a: seq<Merge>, b: seq<Merge>, kept: seq<int>)
    ensures Images(a + b, kept) == Images(a, kept) + Images(b, kept)
  {
    hide Image;
    if b == [] {
      assert a + b == a;
    } else {
      var k := |b| - 1;
      assert (a + b)[..|a| + k] == a + b[..k];
      ImagesAppend(a, b[..k], kept);
    }
  }

  /** The ranges over a renumbered cell are the images of the ranges over the old cell. */
  lemma {:induction false} OwnersOfImages(merges: seq<Merge>, kept: seq<int>, layout: Layout, k: nat, col: Col)
    requires KeptRows(kept) && k < |kept| && forall m :: m in merges ==> Supported(m, layout)
    ensures OwnerMerges(Images(merges, kept), LAST_HEADER_ROW + 1 + k, col) ==
            Images(OwnerMerges(merges, kept[k], col), kept)
  {
    if merges != [] {
      var n := |merges| - 1;
      var rest, m := merges[..n], merges[n];
      OwnersOfImages(rest, kept, layout, k, col);
      OwnersAppend(Images(rest, kept), Image(m, kept), LAST_HEADER_ROW + 1 + k, col);
      ImageCovers(m, kept, layout, k, col);
      if Owns(m, kept[k], col) {
        ImagesAppend(OwnerMerges(rest, kept[k], col), [m], kept);
        SingleRange(m, kept[k], col, kept);
      }
    }
  }

  // ---------- filling the selected rows ----------

  /** Rewritten rows, remapped ranges, and the rows that carry their own percent cell. */
  datatype Work = Work(cells: Cells, merges: seq<Merge>, anchors: set<int>)

  predicate SameItem(sheet: Sheet, rows: seq<int>) {
    forall i :: 0 <= i < |rows| ==>
      Effective(sheet.cells, sheet.merges, rows[i], ITEM_COL).Ok?
      && Effective(sheet.cells, sheet.merges, rows[i], ITEM_COL)
         == Effective(sheet.cells, sheet.merges, rows[0], ITEM_COL)
  }

  /** One range: keep it, drop it, or carry its anchor to the first retained row. */
  function RemapOne(w: Work, m: Merge, sheet: Sheet, kept: seq<int>, layout: Layout): Result<Work> {
    var r := Retained(kept, m);
    if !Data(m) then Ok(w.(merges := w.merges + [m]))
    else if !Supported(m, layout) then Err("unsupported_data_merge")
    else if r == [] then Ok(w)
    else if !SameItem(sheet, r) then Err("cross_item_data_merge")
    else
      var anchors := if m.col == layout.percent then w.anchors - SetOf(r[1..]) else w.anchors;
      var first := r[0];
      if first == m.first then Ok(Work(w.cells, w.merges + Image(m, kept), anchors))
      else if m.first !in sheet.cells then Err("anchor_row_missing")
      else if m.col !in sheet.cells[m.first] then Ok(Work(w.cells, w.merges + Image(m, kept), anchors))
      else if first !in w.cells || m.col !in w.cells[first] then Err("merged_anchor_target_cell_missing")
      else
        var moved: map<Col, string> := w.cells[first][m.col := sheet.cells[m.first][m.col]];
        Ok(Work(w.cells[first := moved], w.merges + Image(m, kept), anchors))
  }

  function StartWork(sheet: Sheet, kept: seq<int>): Work {
    Work(map n | n in SetOf(kept) && n in sheet.cells :: sheet.cells[n], [], SetOf(kept))
  }

  function RemapAll(merges: seq<Merge>, sheet: Sheet, kept: seq<int>, layout: Layout): Result<Work> {
    if merges == [] then Ok(StartWork(sheet, kept))
    else
      match RemapAll(merges[..|merges| - 1], sheet, kept, layout)
      case Err(e) => Err(e)
      case Ok(w) => RemapOne(w, merges[|merges| - 1], sheet, kept, layout)
  }

  /** The finished row: the price, and the rate where the row carries a blank percent cell. */
  function FinishRow(w: Work, sheet: Sheet, n: int, layout: Layout, price: string, rate: string)
    : Result<map<Col, string>>
    requires n in w.cells
  {
    var row, shown := w.cells[n], Effective(sheet.cells, sheet.merges, n, layout.percent);
    if layout.price !in row then Err("official_target_cell_missing")
    else if n !in w.anchors then Ok(row[layout.price := price])
    else if shown.Err? then Err(shown.error)
    else if shown.value != "" then Ok(row[layout.price := price])
    else if layout.percent !in row then Err("official_target_cell_missing")
    else Ok(row[layout.price := price][layout.percent := rate])
  }

  /** The output has every kept row, finished, at its new number. */
  ghost predicate Compacted(out: Sheet, sheet: Sheet, kept: seq<int>, prices: seq<string>, layout: Layout, rate: string)
    requires |prices| == |kept|
  {
    && RemapAll(sheet.merges, sheet, kept, layout).Ok?
    && var w := RemapAll(sheet.merges, sheet, kept, layout).value;
    && out.merges == w.merges
    && forall k :: 0 <= k < |kept| ==>
         && LAST_HEADER_ROW + 1 + k in out.cells && kept[k] in w.cells
         && FinishRow(w, sheet, kept[k], layout, prices[k], rate) == Ok(out.cells[LAST_HEADER_ROW + 1 + k])
  }

  /** The header rows are untouched and the data rows are numbered without gaps. */
  ghost predicate HeadersAndRows(cells: Cells, sheet: Sheet, count: nat) {
    && (forall n :: n in cells <==>
          (n in sheet.cells && 1 <= n <= LAST_HEADER_ROW) || LAST_HEADER_ROW < n <= LAST_HEADER_ROW + count)
    && (forall n :: n in sheet.cells && 1 <= n <= LAST_HEADER_ROW ==> cells[n] == sheet.cells[n])
  }

  /** The row numbers from 1 to n. */
  function Numbered(n: nat): seq<int> {
    seq(n, i => i + 1)
  }

  method RemapMerges(sheet: Sheet, kept: seq<int>, layout: Layout) returns (result: Result<Work>)
    requires SetOf(kept) <= sheet.cells.Keys
    ensures result == RemapAll(sheet.merges, sheet, kept, layout)
    ensures result.Ok? ==> result.value.cells.Keys == SetOf(kept)
  {
    var w := StartWork(sheet, kept);
    for i := 0 to |sheet.merges|
      invariant RemapAll(sheet.merges[..i], sheet, kept, layout) == Ok(w)
      invariant w.cells.Keys == SetOf(kept)
    {
      RemapNext(sheet.merges, i, sheet, kept, layout, w);
      var next := RemapOne(w, sheet.merges[i], sheet, kept, layout);
      if next.Err? {
        RemapStops(sheet.merges, i + 1, sheet, kept, layout);
        return next;
      }
      RemapEffect(w, sheet.merges[i], sheet, kept, layout);
      w := next.value;
    }
    assert sheet.merges[..|sheet.merges|] == sheet.merges;
    result := Ok(w);
  }

  lemma RemapNext(merges: seq<Merge>, i: nat, sheet: Sheet, kept: seq<int>, layout: Layout, w: Work)
    requires i < |merges| && RemapAll(merges[..i], sheet, kept, layout) == Ok(w)
    ensures RemapAll(merges[..i + 1], sheet, kept, layout) == RemapOne(w, merges[i], sheet, kept, layout)
  {
    assert merges[..i + 1][..i] == merges[..i];
  }

  /** The first refused range refuses the file. */
  lemma {:induction false} RemapStops(merges: seq<Merge>, i: nat, sheet: Sheet, kept: seq<int>, layout: Layout)
    requires i <= |merges| && RemapAll(merges[..i], sheet, kept, layout).Err?
    ensures RemapAll(merges, sheet, kept, layout) == RemapAll(merges[..i], sheet, kept, layout)
    decreases |merges| - i
  {
    if i == |merges| {
      assert merges[..i] == merges;
    } else {
      assert merges[..i + 1][..i] == merges[..i];
      RemapStops(merges, i + 1, sheet, kept, layout);
    }
  }

  lemma {:induction false} RetainedMembers(kept: seq<int>, m: Merge)
    ensures forall n :: n in Retained(kept, m) <==> n in kept && m.first <= n <= m.last
  {
    if kept != [] {
      RetainedMembers(kept[1..], m);
    }
  }

  // ---------- when the rows can be filled ----------

  /**
   * A data range of a supported column keeps rows of one product only; if its anchor row is
   * dropped, the anchor's cell has a place in the first retained row.
   */
  predicate Remappable(m: Merge, sheet: Sheet, kept: seq<int>, layout: Layout) {
    Data(m) ==>
      && Supported(m, layout)
      && (Retained(kept, m) != [] ==>
            var first := Retained(kept, m)[0];
            && SameItem(sheet, Retained(kept, m))
            && (first != m.first ==>
                  m.first in sheet.cells
                  && (m.col in sheet.cells[m.first] ==> first in sheet.cells && m.col in sheet.cells[first])))
  }

  /** No percent range leaves the row without its own percent cell. */
  ghost predicate OwnsPercent(merges: seq<Merge>, kept: seq<int>, layout: Layout, n: int) {
    forall m :: m in merges && Data(m) && m.col == layout.percent && Retained(kept, m) != [] ==>
                  n !in Retained(kept, m)[1..]
  }

  /** The row has a price cell, and a percent cell if the rate must be written. */
  ghost predicate Finishable(sheet: Sheet, kept: seq<int>, layout: Layout, n: int) {
    var shown := Effective(sheet.cells, sheet.merges, n, layout.percent);
    && n in sheet.cells && layout.price in sheet.cells[n]
    && (OwnsPercent(sheet.merges, kept, layout, n) ==>
          shown.Ok? && (shown.value == "" ==> layout.percent in sheet.cells[n]))
  }

  /** Every range can be remapped and every kept row can be finished. */
  ghost predicate Fillable(sheet: Sheet, kept: seq<int>, layout: Layout) {
    && (forall m :: m in sheet.merges ==> Remappable(m, sheet, kept, layout))
    && (forall n :: n in kept ==> Finishable(sheet, kept, layout, n))
  }

  /** The ranges done so far moved values, but no cell has come or gone. */
  ghost predicate WorkKeys(w: Work, done: seq<Merge>, sheet: Sheet, kept: seq<int>, layout: Layout) {
    && w.cells.Keys == SetOf(kept) && SetOf(kept) <= sheet.cells.Keys
    && (forall n :: n in SetOf(kept) ==> w.cells[n].Keys == sheet.cells[n].Keys)
    && (forall n :: n in SetOf(kept) ==> (n in w.anchors <==> OwnsPercent(done, kept, layout, n)))
  }

  lemma OwnsPercentOneMore(done: seq<Merge>, m: Merge, kept: seq<int>, layout: Layout, n: int)
    ensures OwnsPercent(done + [m], kept, layout, n)
            <==> OwnsPercent(done, kept, layout, n) && OwnsPercent([m], kept, layout, n)
  {
  }

  lemma FirstRetained(kept: seq<int>, m: Merge)
    requires Retained(kept, m) != []
    ensures Retained(kept, m)[0] in kept
  {
    RetainedMembers(kept, m);
    assert Retained(kept, m)[0] in Retained(kept, m);
  }

  lemma RemapOneExactly(w: Work, done: seq<Merge>, m: Merge, sheet: Sheet, kept: seq<int>, layout: Layout)
    requires WorkKeys(w, done, sheet, kept, layout)
    ensures RemapOne(w, m, sheet, kept, layout).Ok? <==> Remappable(m, sheet, kept, layout)
    ensures RemapOne(w, m, sheet, kept, layout).Ok? ==>
              WorkKeys(RemapOne(w, m, sheet, kept, layout).value, done + [m], sheet, kept, layout)
  {
    hide SameItem, OwnsPercent;
    var r := Retained(kept, m);
    if r != [] {
      FirstRetained(kept, m);
    }
    forall n | n in SetOf(kept)
      ensures OwnsPercent(done + [m], kept, layout, n)
              <==> OwnsPercent(done, kept, layout, n)
                   && !(Data(m) && m.col == layout.percent && r != [] && n in SetOf(r[1..]))
    {
      OwnsPercentOneMore(done, m, kept, layout, n);
      OneRangePercent(m, kept, layout, n);
    }
  }

  lemma OneRangePercent(m: Merge, kept: seq<int>, layout: Layout, n: int)
    ensures var r := Retained(kept, m);
            OwnsPercent([m], kept, layout, n)
            <==> !(Data(m) && m.col == layout.percent && r != [] && n in SetOf(r[1..]))
  {
    assert m in [m];
  }

  lemma {:induction false} RemapsExactly(merges: seq<Merge>, sheet: Sheet, kept: seq<int>, layout: Layout)
    requires SetOf(kept) <= sheet.cells.Keys
    ensures RemapAll(merges, sheet, kept, layout).Ok?
            <==> forall m :: m in merges ==> Remappable(m, sheet, kept, layout)
    ensures RemapAll(merges, sheet, kept, layout).Ok? ==>
              WorkKeys(RemapAll(merges, sheet, kept, layout).value, merges, sheet, kept, layout)
  {
    hide Remappable, RemapOne;
    if merges != [] {
      var k := |merges| - 1;
      RemapsExactly(merges[..k], sheet, kept, layout);
      assert merges == merges[..k] + [merges[k]];
      if RemapAll(merges[..k], sheet, kept, layout).Ok? {
        RemapOneExactly(RemapAll(merges[..k], sheet, kept, layout).value, merges[..k], merges[k], sheet, kept, layout);
      }
    }
  }

  lemma FinishesExactly(w: Work, sheet: Sheet, kept: seq<int>, layout: Layout, n: int, price: string, rate: string)
    requires WorkKeys(w, sheet.merges, sheet, kept, layout) && n in SetOf(kept)
    ensures FinishRow(w, sheet, n, layout, price, rate).Ok? <==> Finishable(sheet, kept, layout, n)
  {
    hide OwnsPercent;
  }

  method FillSelectedRows(sheet: Sheet, kept: seq<int>, prices: seq<string>, layout: Layout, rate: string)
    returns (out: Result<Sheet>)
    requires KeptRows(kept) && |prices| == |kept| && SetOf(kept) <= sheet.cells.Keys
    ensures out.Ok? <==> Fillable(sheet, kept, layout)
    ensures out.Ok? ==> Compacted(out.value, sheet, kept, prices, layout, rate)
    ensures out.Ok? ==> HeadersAndRows(out.value.cells, sheet, |kept|)
    ensures out.Ok? ==> out.value.order == Numbered(LAST_HEADER_ROW + |kept|)
  {
    hide FinishRow, RemapAll, Remappable, Finishable;
    RemapsExactly(sheet.merges, sheet, kept, layout);
    var remapped := RemapMerges(sheet, kept, layout);
    if remapped.Err? {
      return Err(remapped.error);
    }
    var w := remapped.value;
    var cells: Cells := map n | n in sheet.cells && 1 <= n <= LAST_HEADER_ROW :: sheet.cells[n];
    var order := [1, 2, 3];
    for k := 0 to |kept|
      invariant HeadersAndRows(cells, sheet, k) && order == Numbered(LAST_HEADER_ROW + k)
      invariant forall j :: 0 <= j < k ==>
                  kept[j] in w.cells && Finishable(sheet, kept, layout, kept[j])
                  && FinishRow(w, sheet, kept[j], layout, prices[j], rate) == Ok(cells[LAST_HEADER_ROW + 1 + j])
    {
      assert kept[k] in SetOf(kept);
      FinishesExactly(w, sheet, kept, layout, kept[k], prices[k], rate);
      var row := FinishRow(w, sheet, kept[k], layout, prices[k], rate);
      if row.Err? {
        return Err(row.error);
      }
      cells, order := cells[LAST_HEADER_ROW + 1 + k := row.value], order + [LAST_HEADER_ROW + 1 + k];
    }
    out := Ok(Sheet(order, cells, w.merges));
  }

  // ---------- the visible value of every kept cell survives ----------

  /**
   * No kept cell lies under two ranges, and a range whose anchor row is dropped finds a
   * blank cell in its first retained row.
   */
  ghost predicate WellFormed(sheet: Sheet, kept: seq<int>) {
    && (forall k, col: Col :: 0 <= k < |kept| ==> |OwnerMerges(sheet.merges, kept[k], col)| <= 1)
    && (forall m :: m in sheet.merges && Data(m) && Retained(kept, m) != [] && Retained(kept, m)[0] != m.first ==>
                      Cell(sheet.cells, Retained(kept, m)[0], m.col) == "")
  }

  /** The usual form: disjoint ranges whose cells are all blank except the anchor. */
  lemma UsualFormIsWellFormed(sheet: Sheet, kept: seq<int>)
    requires forall n, col: Col :: |OwnerMerges(sheet.merges, n, col)| <= 1
    requires forall m, n :: m in sheet.merges && Data(m) && m.first < n <= m.last ==> Cell(sheet.cells, n, m.col) == ""
    ensures WellFormed(sheet, kept)
  {
    forall m | m in sheet.merges && Data(m) && Retained(kept, m) != [] && Retained(kept, m)[0] != m.first
      ensures Cell(sheet.cells, Retained(kept, m)[0], m.col) == ""
    {
      RetainedMembers(kept, m);
      assert Retained(kept, m)[0] in Retained(kept, m);
    }
  }

  predicate SameCell(a: Cells, b: Cells, n: int, col: Col) {
    n in a && n in b && (col in a[n] <==> col in b[n]) && (col in a[n] ==> a[n][col] == b[n][col])
  }

  /** The row is the first retained row of the range. */
  predicate Leads(kept: seq<int>, m: Merge, n: int) {
    Retained(kept, m) != [] && Retained(kept, m)[0] == n
  }

  /** What the ranges processed so far have made of one kept cell. */
  ghost predicate CellDone(w: Work, done: seq<Merge>, sheet: Sheet, kept: seq<int>, layout: Layout, n: int, col: Col) {
    var owners := OwnerMerges(done, n, col);
    && n in w.cells
    && (owners == [] || !Leads(kept, owners[0], n) ==> SameCell(w.cells, sheet.cells, n, col))
    && (owners != [] && Leads(kept, owners[0], n) ==>
          Cell(w.cells, n, col) == Cell(sheet.cells, owners[0].first, col))
    && (col == layout.percent ==> (n in w.anchors <==> owners == [] || Leads(kept, owners[0], n)))
  }

  /** One range touches at most the cell of its first retained row. */
  lemma RemapEffect(w: Work, m: Merge, sheet: Sheet, kept: seq<int>, layout: Layout)
    requires RemapOne(w, m, sheet, kept, layout).Ok?
    ensures var w' := RemapOne(w, m, sheet, kept, layout).value;
            && Supported(m, layout) && w'.cells.Keys == w.cells.Keys
            && (forall n, col: Col :: n in w.cells && !(Data(m) && col == m.col && Leads(kept, m, n)) ==>
                                        SameCell(w'.cells, w.cells, n, col))
            && (forall n :: n in w.cells && Data(m) && Leads(kept, m, n) ==>
                  Cell(w'.cells, n, m.col) == (if n != m.first && m.first in sheet.cells
                                                  && m.col in sheet.cells[m.first]
                                               then Cell(sheet.cells, m.first, m.col) else Cell(w.cells, n, m.col)))
            && w'.anchors == (if Data(m) && Retained(kept, m) != [] && m.col == layout.percent
                              then w.anchors - SetOf(Retained(kept, m)[1..]) else w.anchors)
  {
  }

  lemma RemapImage(w: Work, m: Merge, sheet: Sheet, kept: seq<int>, layout: Layout)
    requires RemapOne(w, m, sheet, kept, layout).Ok?
    ensures RemapOne(w, m, sheet, kept, layout).value.merges == w.merges + Image(m, kept)
  {
  }

  /** A kept row of a range either leads it or comes later in it, never both. */
  lemma RetainedSplit(kept: seq<int>, m: Merge, n: int)
    requires KeptRows(kept) && n in kept && Retained(kept, m) != []
    ensures (n in Retained(kept, m)[1..]) <==> (m.first <= n <= m.last && !Leads(kept, m, n))
    ensures Leads(kept, m, n) ==> m.first <= n <= m.last
  {
    var r := Retained(kept, m);
    RetainedMembers(kept, m);
    var lo, hi := RetainedConsecutive(kept, m);
    assert r[0] == kept[lo] && r[1..] == kept[lo + 1..hi] && r == [r[0]] + r[1..];
  }

  lemma StepCell(w: Work, done: seq<Merge>, m: Merge, sheet: Sheet, kept: seq<int>, layout: Layout, n: int, col: Col)
    requires KeptRows(kept) && n in kept && CellDone(w, done, sheet, kept, layout, n, col)
    requires RemapOne(w, m, sheet, kept, layout).Ok?
    requires Owns(m, n, col) ==> OwnerMerges(done, n, col) == []
    requires Data(m) && Leads(kept, m, n) && n != m.first ==> Cell(sheet.cells, n, m.col) == ""
    ensures CellDone(RemapOne(w, m, sheet, kept, layout).value, done + [m], sheet, kept, layout, n, col)
  {
    var w' := RemapOne(w, m, sheet, kept, layout).value;
    RemapEffect(w, m, sheet, kept, layout);
    RetainedMembers(kept, m);
    if Retained(kept, m) != [] {
      RetainedSplit(kept, m, n);
    }
    assert (done + [m])[..|done|] == done;
    var owners := OwnerMerges(done + [m], n, col);
    if Owns(m, n, col) {
      assert owners == [m];
    } else {
      assert owners == OwnerMerges(done, n, col);
      assert SameCell(w'.cells, w.cells, n, col);
    }
  }

  lemma {:induction false} OwnersOfPrefix(merges: seq<Merge>, i: nat, n: int, col: Col)
    requires i <= |merges|
    ensures |OwnerMerges(merges[..i], n, col)| <= |OwnerMerges(merges, n, col)|
    ensures i < |merges| && Owns(merges[i], n, col) ==>
              |OwnerMerges(merges[..i], n, col)| < |OwnerMerges(merges, n, col)|
    decreases |merges| - i
  {
    if i == |merges| {
      assert merges[..i] == merges;
    } else {
      assert merges[..i + 1][..i] == merges[..i];
      OwnersOfPrefix(merges, i + 1, n, col);
    }
  }

  /** Remapping a well-formed sheet moves values only to where their range now begins. */
  lemma {:induction false} RemapKeepsCells(sheet: Sheet, kept: seq<int>, layout: Layout, i: nat, n: int, col: Col)
    requires KeptRows(kept) && SetOf(kept) <= sheet.cells.Keys && WellFormed(sheet, kept) && i <= |sheet.merges|
    requires RemapAll(sheet.merges[..i], sheet, kept, layout).Ok? && n in kept
    ensures CellDone(RemapAll(sheet.merges[..i], sheet, kept, layout).value, sheet.merges[..i], sheet, kept, layout,
                     n, col)
  {
    if i > 0 {
      var done, m := sheet.merges[..i - 1], sheet.merges[i - 1];
      assert sheet.merges[..i][..i - 1] == done && sheet.merges[..i] == done + [m];
      RemapKeepsCells(sheet, kept, layout, i - 1, n, col);
      OwnersOfPrefix(sheet.merges, i - 1, n, col);
      StepCell(RemapAll(done, sheet, kept, layout).value, done, m, sheet, kept, layout, n, col);
    } else {
      assert n in SetOf(kept);
    }
  }

  /** The remapped ranges are the images of all ranges, each of a supported form. */
  lemma {:induction false} RemapImages(merges: seq<Merge>, sheet: Sheet, kept: seq<int>, layout: Layout)
    requires RemapAll(merges, sheet, kept, layout).Ok?
    ensures RemapAll(merges, sheet, kept, layout).value.merges == Images(merges, kept)
    ensures forall m :: m in merges ==> Supported(m, layout)
  {
    if merges != [] {
      var rest, m := merges[..|merges| - 1], merges[|merges| - 1];
      RemapImages(rest, sheet, kept, layout);
      RemapImage(RemapAll(rest, sheet, kept, layout).value, m, sheet, kept, layout);
      RemapEffect(RemapAll(rest, sheet, kept, layout).value, m, sheet, kept, layout);
      assert merges == rest + [m];
    }
  }

  /** The value a kept cell must show afterwards: a blank percent cell shows the rate. */
  function Expected(sheet: Sheet, n: int, col: Col, layout: Layout, rate: string): Result<string> {
    var shown := Effective(sheet.cells, sheet.merges, n, col);
    if col == layout.percent && shown == Ok("") then Ok(rate) else shown
  }

  /** A finished cell: the rate for a blank percent cell that carries its own, else as remapped. */
  lemma FinishedCell(w: Work, sheet: Sheet, n: int, layout: Layout, price: string, rate: string, row: map<Col, string>,
                     col: Col)
    requires n in w.cells && FinishRow(w, sheet, n, layout, price, rate) == Ok(row)
    requires layout.price != layout.percent
    ensures layout.price in row && row[layout.price] == price
    ensures col != layout.price ==>
              (if col in row then row[col] else "") ==
              if col == layout.percent && n in w.anchors && Effective(sheet.cells, sheet.merges, n, col) == Ok("")
              then rate else Cell(w.cells, n, col)
  {
  }

  /**
   * Every kept cell outside the price column shows after compaction what it showed before,
   * and every blank percent cell reads as the given rate.
   */
  lemma CompactionPreservesMeaning(out: Sheet, sheet: Sheet, kept: seq<int>, prices: seq<string>, layout: Layout,
                                   rate: string, k: nat, col: Col)
    requires KeptRows(kept) && |prices| == |kept| && SetOf(kept) <= sheet.cells.Keys && k < |kept|
    requires layout.price != layout.percent && rate != "" && col != layout.price
    requires WellFormed(sheet, kept) && Compacted(out, sheet, kept, prices, layout, rate)
    ensures Effective(out.cells, out.merges, LAST_HEADER_ROW + 1 + k, col) ==
            Expected(sheet, kept[k], col, layout, rate)
    ensures Cell(out.cells, LAST_HEADER_ROW + 1 + k, layout.price) == prices[k]
  {
    OutputCell(out, sheet, kept, prices, layout, rate, k, col);
    var owners := OwnerMerges(sheet.merges, kept[k], col);
    if owners == [] {
      UncoveredPreservesMeaning(out, sheet, kept, prices, layout, rate, k, col);
    } else {
      assert owners == [owners[0]];
      RangePreservesMeaning(out, sheet, kept, prices, layout, rate, k, col, owners[0]);
    }
  }

  /** The case of a cell under no range: its own value moves with its row. */
  lemma UncoveredPreservesMeaning(out: Sheet, sheet: Sheet, kept: seq<int>, prices: seq<string>, layout: Layout,
                                  rate: string, k: nat, col: Col)
    requires KeptRows(kept) && |prices| == |kept| && SetOf(kept) <= sheet.cells.Keys && k < |kept|
    requires layout.price != layout.percent && rate != "" && col != layout.price
    requires WellFormed(sheet, kept) && Compacted(out, sheet, kept, prices, layout, rate)
    requires OwnerMerges(sheet.merges, kept[k], col) == []
    ensures Effective(out.cells, out.merges, LAST_HEADER_ROW + 1 + k, col) ==
            Expected(sheet, kept[k], col, layout, rate)
  {
    OutputOwners(out, sheet, kept, prices, layout, rate, k, col);
    OutputCell(out, sheet, kept, prices, layout, rate, k, col);
  }

  /** The case of a cell under one range: the value travels with the range's leading row. */
  lemma RangePreservesMeaning(out: Sheet, sheet: Sheet, kept: seq<int>, prices: seq<string>, layout: Layout,
                              rate: string, k: nat, col: Col, m: Merge)
    requires KeptRows(kept) && |prices| == |kept| && SetOf(kept) <= sheet.cells.Keys && k < |kept|
    requires layout.price != layout.percent && rate != "" && col != layout.price
    requires WellFormed(sheet, kept) && Compacted(out, sheet, kept, prices, layout, rate)
    requires OwnerMerges(sheet.merges, kept[k], col) == [m]
    ensures Effective(out.cells, out.merges, LAST_HEADER_ROW + 1 + k, col) ==
            Expected(sheet, kept[k], col, layout, rate)
  {
    hide Compacted, WellFormed, Supported, Leads, Image, Images, OwnerMerges, KeptRows;
    OutputOwners(out, sheet, kept, prices, layout, rate, k, col);
    var lo, hi := LeadingRow(sheet, kept, layout, k, col, m);
    SingleRange(m, kept[k], col, kept);
    OutputCell(out, sheet, kept, prices, layout, rate, k, col);
    OutputCell(out, sheet, kept, prices, layout, rate, lo, col);
    SameRangeSameAnchor(sheet, kept, m, k, lo, col);
  }

  /** The ranges over a new cell are the images of those over the old one. */
  lemma OutputOwners(out: Sheet, sheet: Sheet, kept: seq<int>, prices: seq<string>, layout: Layout, rate: string,
                     k: nat, col: Col)
    requires KeptRows(kept) && |prices| == |kept| && k < |kept| && Compacted(out, sheet, kept, prices, layout, rate)
    ensures OwnerMerges(out.merges, LAST_HEADER_ROW + 1 + k, col) ==
            Images(OwnerMerges(sheet.merges, kept[k], col), kept)
    ensures forall m :: m in sheet.merges ==> Supported(m, layout)
  {
    hide FinishRow, Supported;
    RemapImages(sheet.merges, sheet, kept, layout);
    OwnersOfImages(sheet.merges, kept, layout, k, col);
  }

  /** Positions lo up to hi of the kept rows lie in the range; row lo leads it. */
  lemma LeadingRow(sheet: Sheet, kept: seq<int>, layout: Layout, k: nat, col: Col, m: Merge) returns (lo: nat, hi: nat)
    requires KeptRows(kept) && k < |kept| && WellFormed(sheet, kept)
    requires OwnerMerges(sheet.merges, kept[k], col) == [m] && forall x :: x in sheet.merges ==> Supported(x, layout)
    ensures lo <= k < hi <= |kept| && Leads(kept, m, kept[lo]) && Data(m)
    ensures k != lo ==> !Leads(kept, m, kept[k])
    ensures Image(m, kept) ==
            if hi - lo > 1 then [Merge(col, LAST_HEADER_ROW + 1 + lo, col, LAST_HEADER_ROW + hi)] else []
    ensures OwnerMerges(sheet.merges, kept[lo], col) == [m]
  {
    OwnersAreMembers(sheet.merges, kept[k], col);
    assert m in OwnerMerges(sheet.merges, kept[k], col);
    lo, hi := ImageSpan(m, kept);
    OwnersShared(sheet, kept, m, k, lo, col);
  }

  /** A blank cell of a range shows what its leading row shows. */
  lemma SameRangeSameAnchor(sheet: Sheet, kept: seq<int>, m: Merge, k: nat, lo: nat, col: Col)
    requires k < |kept| && lo < |kept| && WellFormed(sheet, kept) && Leads(kept, m, kept[lo])
    requires OwnerMerges(sheet.merges, kept[k], col) == [m] && OwnerMerges(sheet.merges, kept[lo], col) == [m]
    requires Data(m)
    ensures Effective(sheet.cells, sheet.merges, kept[lo], col) == Ok(Cell(sheet.cells, m.first, col))
    ensures Cell(sheet.cells, kept[k], col) == "" ==>
              Effective(sheet.cells, sheet.merges, kept[k], col) == Ok(Cell(sheet.cells, m.first, col))
  {
    OwnersAreMembers(sheet.merges, kept[lo], col);
    assert m in OwnerMerges(sheet.merges, kept[lo], col);
  }

  /** The physical cell of a new row: carried by its range's leading row, else its own. */
  lemma OutputCell(out: Sheet, sheet: Sheet, kept: seq<int>, prices: seq<string>, layout: Layout, rate: string,
                   k: nat, col: Col)
    requires KeptRows(kept) && |prices| == |kept| && SetOf(kept) <= sheet.cells.Keys && k < |kept|
    requires layout.price != layout.percent && col != layout.price
    requires WellFormed(sheet, kept) && Compacted(out, sheet, kept, prices, layout, rate)
    ensures var n, owners := kept[k], OwnerMerges(sheet.merges, kept[k], col);
            var leading := owners == [] || Leads(kept, owners[0], n);
            var carried := if owners != [] && leading then Cell(sheet.cells, owners[0].first, col)
                           else Cell(sheet.cells, n, col);
            Cell(out.cells, LAST_HEADER_ROW + 1 + k, col) ==
            if col == layout.percent && leading && Effective(sheet.cells, sheet.merges, n, col) == Ok("") then rate
            else carried
    ensures Cell(out.cells, LAST_HEADER_ROW + 1 + k, layout.price) == prices[k]
  {
    var w := RemapAll(sheet.merges, sheet, kept, layout).value;
    assert sheet.merges[..|sheet.merges|] == sheet.merges;
    RemapKeepsCells(sheet, kept, layout, |sheet.merges|, kept[k], col);
    FinishedCell(w, sheet, kept[k], layout, prices[k], rate, out.cells[LAST_HEADER_ROW + 1 + k], col);
  }

  lemma {:induction false} OwnersAreMembers(merges: seq<Merge>, n: int, col: Col)
    ensures forall m :: m in OwnerMerges(merges, n, col) <==> m in merges && Owns(m, n, col)
  {
    if merges != [] {
      assert merges == merges[..|merges| - 1] + [merges[|merges| - 1]];
      OwnersAreMembers(merges[..|merges| - 1], n, col);
    }
  }

  /** Two kept rows of one range have that range as their only owner. */
  lemma OwnersShared(sheet: Sheet, kept: seq<int>, m: Merge, k: nat, j: nat, col: Col)
    requires WellFormed(sheet, kept) && k < |kept| && j < |kept|
    requires OwnerMerges(sheet.merges, kept[k], col) == [m] && Owns(m, kept[j], col)
    ensures OwnerMerges(sheet.merges, kept[j], col) == [m]
  {
    OwnersAreMembers(sheet.merges, kept[k], col);
    OwnersAreMembers(sheet.merges, kept[j], col);
    assert m in OwnerMerges(sheet.merges, kept[k], col);
    assert m in OwnerMerges(sheet.merges, kept[j], col);
  }

  /**
   * The new ranges stay disjoint on the data rows, and one covers a new row only if its
   * source covered that row's old place: no unselected or foreign row is absorbed.
   */
  lemma NewRangesStaySeparate(out: Sheet, sheet: Sheet, kept: seq<int>, prices: seq<string>, layout: Layout,
                              rate: string, k: nat, col: Col)
    requires KeptRows(kept) && |prices| == |kept| && k < |kept|
    requires WellFormed(sheet, kept) && Compacted(out, sheet, kept, prices, layout, rate)
    ensures |OwnerMerges(out.merges, LAST_HEADER_ROW + 1 + k, col)| <= 1
    ensures forall r :: r in OwnerMerges(out.merges, LAST_HEADER_ROW + 1 + k, col) ==>
                          exists m :: m in sheet.merges && Owns(m, kept[k], col) && Image(m, kept) == [r]
                                      && r.last <= LAST_HEADER_ROW + |kept|
  {
    hide Compacted, Image, Images;
    OutputOwners(out, sheet, kept, prices, layout, rate, k, col);
    var owners := OwnerMerges(sheet.merges, kept[k], col);
    OwnersAreMembers(sheet.merges, kept[k], col);
    OneImage(owners, kept, k, col);
  }

  lemma OneImage(owners: seq<Merge>, kept: seq<int>, k: nat, col: Col)
    requires KeptRows(kept) && k < |kept| && |owners| <= 1 && forall m :: m in owners ==> Owns(m, kept[k], col)
    ensures |Images(owners, kept)| <= 1
    ensures forall r :: r in Images(owners, kept) ==>
                          exists m :: m in owners && Image(m, kept) == [r] && r.last <= LAST_HEADER_ROW + |kept|
  {
    hide Image;
    if owners != [] {
      assert owners == [owners[0]] && owners[0] in owners;
      SingleRange(owners[0], kept[k], col, kept);
      ImageEnds(owners[0], kept, k);
    }
  }

  /** A range over a kept row has at most one image, and that ends within the new rows. */
  lemma ImageEnds(m: Merge, kept: seq<int>, k: nat)
    requires KeptRows(kept) && k < |kept| && m.first <= kept[k] <= m.last
    ensures |Image(m, kept)| <= 1 && forall r :: r in Image(m, kept) ==> r.last <= LAST_HEADER_ROW + |kept|
  {
    var lo, hi := ImageSpan(m, kept);
  }

  // ---------- selecting, filling and reading back ----------

  /** The product and SKU that a data row shows; its state must be readable too. */
  function IdentityAt(sheet: Sheet, n: int): Result<Pair> {
    match (Effective(sheet.cells, sheet.merges, n, ITEM_COL), Effective(sheet.cells, sheet.merges, n, STATE_COL))
    case (Err(e), _) => Err(e)
    case (Ok(_), Err(e)) => Err(e)
    case (Ok(item), Ok(_)) => Ok(Pair(item, Cell(sheet.cells, n, SKU_COL)))
  }

  predicate DataRow(sheet: Sheet, n: int) {
    n > LAST_HEADER_ROW && Cell(sheet.cells, n, SKU_COL) != ""
  }

  predicate RowsInOrder(sheet: Sheet) {
    SetOf(sheet.order) == sheet.cells.Keys && Upwards(sheet.order)
  }

  /** A kept row shows a chosen SKU, at that SKU's price. */
  predicate Chosen(sheet: Sheet, n: int, chosen: map<Pair, string>, price: string) {
    && DataRow(sheet, n) && IdentityAt(sheet, n).Ok?
    && IdentityAt(sheet, n).value in chosen && price == chosen[IdentityAt(sheet, n).value]
  }

  /** The kept rows are rows of chosen SKUs in sheet order, each with its price. */
  ghost predicate Selects(sheet: Sheet, rows: seq<int>, chosen: map<Pair, string>, kept: seq<int>,
                          prices: seq<string>) {
    && KeptRows(kept) && |prices| == |kept| && (forall n :: n in kept ==> n in rows)
    && (forall k :: 0 <= k < |kept| ==> Chosen(sheet, kept[k], chosen, prices[k]))
  }

  /** Every chosen SKU that has been seen has a kept row. */
  ghost predicate Covers(sheet: Sheet, kept: seq<int>, seen: set<Pair>, chosen: map<Pair, string>) {
    forall p :: p in chosen && p in seen ==> exists n :: n in kept && IdentityAt(sheet, n) == Ok(p)
  }

  lemma SelectOne(sheet: Sheet, rows: seq<int>, n: int, chosen: map<Pair, string>, kept: seq<int>, prices: seq<string>,
                  seen: set<Pair>)
    requires Selects(sheet, rows, chosen, kept, prices) && Covers(sheet, kept, seen, chosen)
    requires DataRow(sheet, n) && IdentityAt(sheet, n).Ok? && forall x :: x in rows ==> x < n
    ensures var p := IdentityAt(sheet, n).value;
            && (p in chosen ==> Selects(sheet, rows + [n], chosen, kept + [n], prices + [chosen[p]])
                                && Covers(sheet, kept + [n], seen + {p}, chosen))
            && (p !in chosen ==> Covers(sheet, kept, seen + {p}, chosen))
  {
    hide IdentityAt, DataRow;
    if IdentityAt(sheet, n).value in chosen {
      KeepOne(sheet, rows, n, chosen, kept, prices);
      CoverOne(sheet, n, chosen, kept, seen);
    }
  }

  lemma KeepOne(sheet: Sheet, rows: seq<int>, n: int, chosen: map<Pair, string>, kept: seq<int>, prices: seq<string>)
    requires Selects(sheet, rows, chosen, kept, prices) && forall x :: x in rows ==> x < n
    requires DataRow(sheet, n) && IdentityAt(sheet, n).Ok? && IdentityAt(sheet, n).value in chosen
    ensures Selects(sheet, rows + [n], chosen, kept + [n], prices + [chosen[IdentityAt(sheet, n).value]])
  {
    hide IdentityAt, DataRow;
    forall k | 0 <= k < |kept| ensures kept[k] < n {
      assert kept[k] in kept;
    }
    assert n > LAST_HEADER_ROW by {
      DataIsBelow(sheet, n);
    }
  }

  lemma DataIsBelow(sheet: Sheet, n: int)
    requires DataRow(sheet, n)
    ensures n > LAST_HEADER_ROW
  {
  }

  lemma CoverOne(sheet: Sheet, n: int, chosen: map<Pair, string>, kept: seq<int>, seen: set<Pair>)
    requires Covers(sheet, kept, seen, chosen) && IdentityAt(sheet, n).Ok?
    ensures Covers(sheet, kept + [n], seen + {IdentityAt(sheet, n).value}, chosen)
  {
    hide IdentityAt;
    assert n in kept + [n];
    forall q | q in chosen && q in seen + {IdentityAt(sheet, n).value}
      ensures exists x :: x in kept + [n] && IdentityAt(sheet, x) == Ok(q)
    {
      if q != IdentityAt(sheet, n).value {
        var x :| x in kept && IdentityAt(sheet, x) == Ok(q);
        assert x in kept + [n];
      }
    }
  }

  /** Every data row shows an identity, no two the same one, and every chosen SKU has its row. */
  ghost predicate Selectable(sheet: Sheet, chosen: map<Pair, string>) {
    && Identified(sheet, sheet.order)
    && forall p :: p in chosen ==> exists n :: n in sheet.order && Shows(sheet, n, p)
  }

  predicate Shows(sheet: Sheet, n: int, p: Pair) {
    DataRow(sheet, n) && IdentityAt(sheet, n) == Ok(p)
  }

  ghost predicate Identified(sheet: Sheet, rows: seq<int>) {
    && (forall n :: n in rows && DataRow(sheet, n) ==> IdentityAt(sheet, n).Ok?)
    && (forall m, n :: m in rows && n in rows && m != n && DataRow(sheet, m) && DataRow(sheet, n) ==>
          IdentityAt(sheet, m) != IdentityAt(sheet, n))
  }

  /** The rows of chosen SKUs, in the order given. */
  function ChosenRows(sheet: Sheet, rows: seq<int>, chosen: map<Pair, string>): seq<int> {
    if rows == [] then []
    else
      var rest, n := ChosenRows(sheet, rows[..|rows| - 1], chosen), rows[|rows| - 1];
      if DataRow(sheet, n) && IdentityAt(sheet, n).Ok? && IdentityAt(sheet, n).value in chosen then rest + [n] else rest
  }

  function PriceAt(sheet: Sheet, n: int, chosen: map<Pair, string>): string {
    if IdentityAt(sheet, n).Ok? && IdentityAt(sheet, n).value in chosen then chosen[IdentityAt(sheet, n).value] else ""
  }

  function PricesOf(sheet: Sheet, kept: seq<int>, chosen: map<Pair, string>): (r: seq<string>)
    ensures |r| == |kept|
  {
    seq(|kept|, k requires 0 <= k < |kept| => PriceAt(sheet, kept[k], chosen))
  }

  /** seen holds the identities of these rows, which are distinct. */
  ghost predicate SeenExactly(sheet: Sheet, rows: seq<int>, seen: set<Pair>) {
    Identified(sheet, rows) && forall p :: p in seen <==> exists n :: n in rows && Shows(sheet, n, p)
  }

  lemma SeeOne(sheet: Sheet, rows: seq<int>, n: int, seen: set<Pair>)
    requires SeenExactly(sheet, rows, seen) && n !in rows
    ensures !DataRow(sheet, n) ==> SeenExactly(sheet, rows + [n], seen)
    ensures DataRow(sheet, n) && IdentityAt(sheet, n).Ok? && IdentityAt(sheet, n).value !in seen ==>
              SeenExactly(sheet, rows + [n], seen + {IdentityAt(sheet, n).value})
    ensures DataRow(sheet, n) && (IdentityAt(sheet, n).Err? || IdentityAt(sheet, n).value in seen) ==>
              !Identified(sheet, rows + [n])
  {
    hide DataRow, IdentityAt;
    assert n in rows + [n] && forall m :: m in rows + [n] <==> m in rows || m == n;
    if DataRow(sheet, n) && IdentityAt(sheet, n).Ok? && IdentityAt(sheet, n).value in seen {
      var m :| m in rows && Shows(sheet, m, IdentityAt(sheet, n).value);
      assert m in rows + [n];
    }
  }

  lemma PartIdentified(sheet: Sheet, rows: seq<int>, i: nat)
    requires i <= |rows| && !Identified(sheet, rows[..i])
    ensures !Identified(sheet, rows)
  {
    hide DataRow, IdentityAt;
    assert forall n :: n in rows[..i] ==> n in rows;
  }

  lemma ChooseOne(sheet: Sheet, rows: seq<int>, n: int, chosen: map<Pair, string>)
    ensures ChosenRows(sheet, rows + [n], chosen) ==
            if DataRow(sheet, n) && IdentityAt(sheet, n).Ok? && IdentityAt(sheet, n).value in chosen
            then ChosenRows(sheet, rows, chosen) + [n] else ChosenRows(sheet, rows, chosen)
  {
    assert (rows + [n])[..|rows + [n]| - 1] == rows;
  }

  /** The selection among these rows: what is kept at which price, and what has been seen. */
  ghost predicate Selecting(sheet: Sheet, rows: seq<int>, chosen: map<Pair, string>, kept: seq<int>,
                            prices: seq<string>, seen: set<Pair>)
  {
    && Selects(sheet, rows, chosen, kept, prices) && Covers(sheet, kept, seen, chosen) && SeenExactly(sheet, rows, seen)
    && kept == ChosenRows(sheet, rows, chosen) && prices == PricesOf(sheet, kept, chosen)
  }

  lemma NothingSelected(sheet: Sheet, chosen: map<Pair, string>)
    ensures Selecting(sheet, [], chosen, [], [], {})
  {
  }

  lemma SkipRow(sheet: Sheet, rows: seq<int>, n: int, chosen: map<Pair, string>, kept: seq<int>, prices: seq<string>,
                seen: set<Pair>)
    requires Selecting(sheet, rows, chosen, kept, prices, seen) && !DataRow(sheet, n) && n !in rows
    ensures Selecting(sheet, rows + [n], chosen, kept, prices, seen)
  {
    hide SeenExactly, DataRow, ChosenRows;
    SeeOne(sheet, rows, n, seen);
    ChooseOne(sheet, rows, n, chosen);
  }

  lemma TakeRow(sheet: Sheet, rows: seq<int>, n: int, chosen: map<Pair, string>, kept: seq<int>, prices: seq<string>,
                seen: set<Pair>)
    requires Selecting(sheet, rows, chosen, kept, prices, seen) && DataRow(sheet, n) && IdentityAt(sheet, n).Ok?
    requires IdentityAt(sheet, n).value !in seen && forall x :: x in rows ==> x < n
    ensures var p := IdentityAt(sheet, n).value;
            if p in chosen then Selecting(sheet, rows + [n], chosen, kept + [n], prices + [chosen[p]], seen + {p})
            else Selecting(sheet, rows + [n], chosen, kept, prices, seen + {p})
  {
    hide SeenExactly, DataRow, IdentityAt, ChosenRows, Covers;
    SeeOne(sheet, rows, n, seen);
    ChooseOne(sheet, rows, n, chosen);
    SelectOne(sheet, rows, n, chosen, kept, prices, seen);
  }

  lemma SelectedAll(sheet: Sheet, chosen: map<Pair, string>, kept: seq<int>, prices: seq<string>, seen: set<Pair>)
    requires RowsInOrder(sheet) && Selecting(sheet, sheet.order, chosen, kept, prices, seen)
    ensures Selectable(sheet, chosen) <==> chosen.Keys <= seen
    ensures chosen.Keys <= seen ==> Covers(sheet, kept, chosen.Keys, chosen)
    ensures SetOf(kept) <= sheet.cells.Keys
  {
    hide Identified, IdentityAt, DataRow;
    assert forall n :: n in kept ==> n in SetOf(sheet.order);
  }

  /** Exactly the chosen rows at their prices, unless some row or some chosen SKU has no row of its own. */
  method SelectRows(sheet: Sheet, chosen: map<Pair, string>) returns (r: Result<(seq<int>, seq<string>)>)
    requires RowsInOrder(sheet)
    ensures r.Ok? <==> Selectable(sheet, chosen)
    ensures r.Ok? ==> var kept := ChosenRows(sheet, sheet.order, chosen);
              r.value == (kept, PricesOf(sheet, kept, chosen))
    ensures r.Ok? ==> && Selects(sheet, sheet.order, chosen, r.value.0, r.value.1)
                      && Covers(sheet, r.value.0, chosen.Keys, chosen)
                      && SetOf(r.value.0) <= sheet.cells.Keys
  {
    hide IdentityAt, DataRow, Identified, Selects, Covers, ChosenRows;
    var kept: seq<int>, prices: seq<string>, seen: set<Pair> := [], [], {};
    NothingSelected(sheet, chosen);
    for i := 0 to |sheet.order|
      invariant Selecting(sheet, sheet.order[..i], chosen, kept, prices, seen)
    {
      var n := sheet.order[i];
      assert sheet.order[..i + 1] == sheet.order[..i] + [n];
      if DataRow(sheet, n) {
        var identity := IdentityAt(sheet, n);
        if identity.Err? || identity.value in seen {
          SeeOne(sheet, sheet.order[..i], n, seen);
          PartIdentified(sheet, sheet.order, i + 1);
          return Err(if identity.Err? then identity.error else "duplicate_template_sku");
        }
        TakeRow(sheet, sheet.order[..i], n, chosen, kept, prices, seen);
        seen := seen + {identity.value};
        if identity.value in chosen {
          kept, prices := kept + [n], prices + [chosen[identity.value]];
        }
      } else {
        SkipRow(sheet, sheet.order[..i], n, chosen, kept, prices, seen);
      }
    }
    assert sheet.order[..|sheet.order|] == sheet.order;
    SelectedAll(sheet, chosen, kept, prices, seen);
    if !(chosen.Keys <= seen) {
      return Err("selected_sku_missing_in_current_template");
    }
    r := Ok((kept, prices));
  }

  /** Every cell of a kept row outside the price column reads back as expected. */
  predicate ReadsBack(out: Sheet, sheet: Sheet, kept: seq<int>, layout: Layout, rate: string, last: Col) {
    forall k | 0 <= k < |kept| :: forall col: nat | col <= last && col != layout.price ::
      Effective(out.cells, out.merges, LAST_HEADER_ROW + 1 + k, col) == Expected(sheet, kept[k], col, layout, rate)
  }

  predicate PricesReadBack(out: Sheet, prices: seq<string>, layout: Layout) {
    forall k | 0 <= k < |prices| :: Cell(out.cells, LAST_HEADER_ROW + 1 + k, layout.price) == prices[k]
  }

  /** The k-th new row shows the identity of old row n. */
  predicate IdentityReadsBack(out: Sheet, sheet: Sheet, k: nat, n: int) {
    DataRow(out, LAST_HEADER_ROW + 1 + k) && IdentityAt(out, LAST_HEADER_ROW + 1 + k) == IdentityAt(sheet, n)
  }

  predicate IdentitiesReadBack(out: Sheet, sheet: Sheet, kept: seq<int>) {
    forall k | 0 <= k < |kept| :: IdentityReadsBack(out, sheet, k, kept[k])
  }

  /** The columns that a layout may use; identity and state columns are none of them. */
  predicate ValidLayout(layout: Layout) {
    && layout.price != layout.percent && layout.price !in {ITEM_COL, STATE_COL, SKU_COL}
    && layout.percent !in {ITEM_COL, STATE_COL, SKU_COL}
  }

  lemma RowIdentity(out: Sheet, sheet: Sheet, kept: seq<int>, prices: seq<string>, layout: Layout, rate: string, k: nat)
    requires KeptRows(kept) && |prices| == |kept| && SetOf(kept) <= sheet.cells.Keys && k < |kept|
    requires DataRow(sheet, kept[k]) && ValidLayout(layout) && rate != ""
    requires WellFormed(sheet, kept) && Compacted(out, sheet, kept, prices, layout, rate)
    ensures IdentityReadsBack(out, sheet, k, kept[k])
    ensures Cell(out.cells, LAST_HEADER_ROW + 1 + k, layout.price) == prices[k]
  {
    CompactionPreservesMeaning(out, sheet, kept, prices, layout, rate, k, ITEM_COL);
    CompactionPreservesMeaning(out, sheet, kept, prices, layout, rate, k, STATE_COL);
    OutputCell(out, sheet, kept, prices, layout, rate, k, SKU_COL);
    RemapImages(sheet.merges, sheet, kept, layout);
    SkuNeverMerged(sheet.merges, layout, kept[k]);
  }

  /** On a well-formed sheet every readback check holds. */
  lemma ReadbackHolds(out: Sheet, sheet: Sheet, kept: seq<int>, prices: seq<string>, layout: Layout, rate: string,
                      last: Col)
    requires KeptRows(kept) && |prices| == |kept| && SetOf(kept) <= sheet.cells.Keys
    requires forall k :: 0 <= k < |kept| ==> DataRow(sheet, kept[k])
    requires ValidLayout(layout) && rate != ""
    requires WellFormed(sheet, kept) && Compacted(out, sheet, kept, prices, layout, rate)
    ensures ReadsBack(out, sheet, kept, layout, rate, last)
    ensures PricesReadBack(out, prices, layout) && IdentitiesReadBack(out, sheet, kept)
  {
    forall k, col: nat | 0 <= k < |kept| && col != layout.price
      ensures Effective(out.cells, out.merges, LAST_HEADER_ROW + 1 + k, col) ==
              Expected(sheet, kept[k], col, layout, rate)
      ensures Cell(out.cells, LAST_HEADER_ROW + 1 + k, layout.price) == prices[k]
    {
      CompactionPreservesMeaning(out, sheet, kept, prices, layout, rate, k, col);
    }
    forall k | 0 <= k < |kept|
      ensures IdentityReadsBack(out, sheet, k, kept[k])
      ensures Cell(out.cells, LAST_HEADER_ROW + 1 + k, layout.price) == prices[k]
    {
      RowIdentity(out, sheet, kept, prices, layout, rate, k);
    }
  }

  lemma {:induction false} SkuNeverMerged(merges: seq<Merge>, layout: Layout, n: int)
    requires n > LAST_HEADER_ROW && forall m :: m in merges ==> Supported(m, layout)
    ensures OwnerMerges(merges, n, SKU_COL) == []
  {
    if merges != [] {
      assert Supported(merges[|merges| - 1], layout);
      SkuNeverMerged(merges[..|merges| - 1], layout, n);
    }
  }

  /** Published states: a row in one of them must not be submitted again. */
  const PUBLISHED := {"已发布设定", "活动中", "进行中", "已生效"}

  /** A file, a refusal of the input, or a failed readback of the file just written. */
  datatype Fill = Filled(sheet: Sheet) | Refused(reason: string) | ReadbackFailed(check: string)

  predicate Published(sheet: Sheet, n: int) {
    var state := Effective(sheet.cells, sheet.merges, n, STATE_COL);
    state.Ok? && state.value in PUBLISHED
  }

  /** A row may carry the given rate already, but no other rate and no amount. */
  predicate Prefilled(sheet: Sheet, n: int, layout: Layout, readsAsRate: string -> bool) {
    var percent := Effective(sheet.cells, sheet.merges, n, layout.percent);
    || percent.Err? || (percent.value != "" && !readsAsRate(percent.value))
    || Effective(sheet.cells, sheet.merges, n, layout.amount) != Ok("")
  }

  /** The written rows are the chosen SKUs at their prices and nothing else has changed. */
  ghost predicate FilledExactly(out: Sheet, sheet: Sheet, chosen: map<Pair, string>, kept: seq<int>, layout: Layout,
                                rate: string, last: Col)
  {
    && HeadersAndRows(out.cells, sheet, |kept|)
    && ReadsBack(out, sheet, kept, layout, rate, last) && IdentitiesReadBack(out, sheet, kept)
    && (forall p :: p in chosen ==> exists n :: n in kept && IdentityAt(sheet, n) == Ok(p))
    && (forall k :: 0 <= k < |kept| ==>
          && Chosen(sheet, kept[k], chosen, Cell(out.cells, LAST_HEADER_ROW + 1 + k, layout.price))
          && !Published(sheet, kept[k]))
  }

  /** The refusals that depend on the kept rows alone. */
  function Refusal(sheet: Sheet, kept: seq<int>, layout: Layout, readsAsRate: string -> bool): Option<string> {
    if exists k | 0 <= k < |kept| :: Published(sheet, kept[k]) then Some("successful_template_scope_must_not_replay")
    else if !({1, 2, 3} <= sheet.cells.Keys) then Some("unsupported_official_row_serialization")
    else if exists k | 0 <= k < |kept| :: Prefilled(sheet, kept[k], layout, readsAsRate) then
      Some("unexpected_prefilled_official_discount")
    else None
  }

  ghost predicate ReadsBackAll(out: Sheet, sheet: Sheet, kept: seq<int>, prices: seq<string>, layout: Layout,
                               rate: string, last: Col)
  {
    && IdentitiesReadBack(out, sheet, kept) && PricesReadBack(out, prices, layout)
    && ReadsBack(out, sheet, kept, layout, rate, last)
  }

  ghost predicate IsCompaction(out: Sheet, sheet: Sheet, kept: seq<int>, prices: seq<string>,
                               layout: Layout, rate: string)
    requires |prices| == |kept|
  {
    Compacted(out, sheet, kept, prices, layout, rate) && HeadersAndRows(out.cells, sheet, |kept|)
  }

  /** The compaction of these rows passes every readback check. */
  ghost predicate Verifiable(sheet: Sheet, kept: seq<int>, prices: seq<string>, layout: Layout, rate: string, last: Col)
    requires |prices| == |kept|
  {
    forall out :: IsCompaction(out, sheet, kept, prices, layout, rate) ==>
                    ReadsBackAll(out, sheet, kept, prices, layout, rate, last)
  }

  /** The rows have one compaction: its cells and ranges are determined. */
  lemma OneCompaction(a: Sheet, b: Sheet, sheet: Sheet, kept: seq<int>, prices: seq<string>,
                      layout: Layout, rate: string)
    requires |prices| == |kept|
    requires IsCompaction(a, sheet, kept, prices, layout, rate) && IsCompaction(b, sheet, kept, prices, layout, rate)
    ensures a.cells == b.cells && a.merges == b.merges
  {
    hide FinishRow, RemapAll;
    assert forall n :: n in a.cells <==> n in b.cells;
    forall n | n in a.cells ensures a.cells[n] == b.cells[n] {
      if n > LAST_HEADER_ROW {
        var w, k := RemapAll(sheet.merges, sheet, kept, layout).value, n - LAST_HEADER_ROW - 1;
        assert FinishRow(w, sheet, kept[k], layout, prices[k], rate) == Ok(a.cells[LAST_HEADER_ROW + 1 + k]);
        assert FinishRow(w, sheet, kept[k], layout, prices[k], rate) == Ok(b.cells[LAST_HEADER_ROW + 1 + k]);
      }
    }
  }

  lemma SameReadback(a: Sheet, b: Sheet, sheet: Sheet, kept: seq<int>, prices: seq<string>,
                     layout: Layout, rate: string, last: Col)
    requires a.cells == b.cells && a.merges == b.merges && ReadsBackAll(a, sheet, kept, prices, layout, rate, last)
    ensures ReadsBackAll(b, sheet, kept, prices, layout, rate, last)
  {
    hide Effective;
    forall k | 0 <= k < |kept| ensures IdentityReadsBack(b, sheet, k, kept[k]) {
      assert IdentityReadsBack(a, sheet, k, kept[k]);
    }
  }

  lemma VerifiedByOne(out: Sheet, sheet: Sheet, kept: seq<int>, prices: seq<string>, layout: Layout, rate: string,
                      last: Col)
    requires |prices| == |kept| && IsCompaction(out, sheet, kept, prices, layout, rate)
    ensures Verifiable(sheet, kept, prices, layout, rate, last)
            <==> ReadsBackAll(out, sheet, kept, prices, layout, rate, last)
  {
    hide IsCompaction, ReadsBackAll;
    if ReadsBackAll(out, sheet, kept, prices, layout, rate, last) {
      forall other | IsCompaction(other, sheet, kept, prices, layout, rate)
        ensures ReadsBackAll(other, sheet, kept, prices, layout, rate, last)
      {
        OneCompaction(out, other, sheet, kept, prices, layout, rate);
        SameReadback(out, other, sheet, kept, prices, layout, rate, last);
      }
    }
  }

  /** Compaction with its three readback checks. */
  method CompactAndReadBack(sheet: Sheet, kept: seq<int>, prices: seq<string>, layout: Layout, rate: string, last: Col)
    returns (fill: Fill)
    requires KeptRows(kept) && |prices| == |kept| && SetOf(kept) <= sheet.cells.Keys
    requires forall k :: 0 <= k < |kept| ==> DataRow(sheet, kept[k])
    requires ValidLayout(layout) && rate != ""
    ensures fill.Filled? ==> && HeadersAndRows(fill.sheet.cells, sheet, |kept|)
                             && ReadsBack(fill.sheet, sheet, kept, layout, rate, last)
                             && PricesReadBack(fill.sheet, prices, layout)
                             && IdentitiesReadBack(fill.sheet, sheet, kept)
    ensures fill.Filled? ==> && IsCompaction(fill.sheet, sheet, kept, prices, layout, rate)
                             && fill.sheet.order == Numbered(LAST_HEADER_ROW + |kept|)
    ensures fill.Refused? <==> !Fillable(sheet, kept, layout)
    ensures fill.Filled? <==> Fillable(sheet, kept, layout) && Verifiable(sheet, kept, prices, layout, rate, last)
    ensures WellFormed(sheet, kept) ==> !fill.ReadbackFailed?
  {
    hide Fillable, Verifiable, Compacted, WellFormed, ReadsBack, PricesReadBack, IdentitiesReadBack;
    var out := FillSelectedRows(sheet, kept, prices, layout, rate);
    if out.Err? {
      return Refused(out.error);
    }
    VerifiedByOne(out.value, sheet, kept, prices, layout, rate, last);
    if WellFormed(sheet, kept) {
      ReadbackHolds(out.value, sheet, kept, prices, layout, rate, last);
    }
    if !IdentitiesReadBack(out.value, sheet, kept) {
      return ReadbackFailed("output_identity_readback_failed");
    }
    if !PricesReadBack(out.value, prices, layout) {
      return ReadbackFailed("output_price_readback_failed");
    }
    if !ReadsBack(out.value, sheet, kept, layout, rate, last) {
      return ReadbackFailed("non_price_cell_changed");
    }
    fill := Filled(out.value);
  }

  lemma FilledFromReadback(out: Sheet, sheet: Sheet, chosen: map<Pair, string>, kept: seq<int>, prices: seq<string>,
                           layout: Layout, rate: string, last: Col)
    requires Selects(sheet, sheet.order, chosen, kept, prices) && Covers(sheet, kept, chosen.Keys, chosen)
    requires HeadersAndRows(out.cells, sheet, |kept|) && ReadsBack(out, sheet, kept, layout, rate, last)
    requires PricesReadBack(out, prices, layout) && IdentitiesReadBack(out, sheet, kept)
    requires forall k :: 0 <= k < |kept| ==> !Published(sheet, kept[k])
    ensures FilledExactly(out, sheet, chosen, kept, layout, rate, last)
  {
  }

  /** A selection and the header rows exist, it may be filled, and nothing of it is published or pre-filled. */
  ghost predicate Accepts(sheet: Sheet, chosen: map<Pair, string>, layout: Layout, readsAsRate: string -> bool) {
    var kept := ChosenRows(sheet, sheet.order, chosen);
    && chosen != map[] && Selectable(sheet, chosen)
    && {1, 2, 3} <= sheet.cells.Keys
    && (forall n :: n in kept ==> !Published(sheet, n) && !Prefilled(sheet, n, layout, readsAsRate))
    && Fillable(sheet, kept, layout)
  }

  lemma RefusalExactly(sheet: Sheet, kept: seq<int>, layout: Layout, readsAsRate: string -> bool)
    ensures Refusal(sheet, kept, layout, readsAsRate).None?
            <==> && {1, 2, 3} <= sheet.cells.Keys
                 && forall n :: n in kept ==> !Published(sheet, n) && !Prefilled(sheet, n, layout, readsAsRate)
  {
    hide Published, Prefilled;
    forall k | 0 <= k < |kept| ensures kept[k] in kept {
    }
  }

  /**
   * The whole fill: select, refuse rows that must not be replayed or are pre-filled,
   * compact and read back. It refuses exactly the inputs that are not acceptable, and an accepted
   * one fails exactly when its compaction does not read back, which never happens on a well-formed
   * sheet.
   */
  method FillAndVerify(sheet: Sheet, chosen: map<Pair, string>, layout: Layout, rate: string, last: Col,
                       readsAsRate: string -> bool)
    returns (fill: Fill, kept: seq<int>)
    requires RowsInOrder(sheet) && ValidLayout(layout) && rate != ""
    ensures kept == if chosen != map[] && Selectable(sheet, chosen) then ChosenRows(sheet, sheet.order, chosen) else []
    ensures fill.Refused? <==> !Accepts(sheet, chosen, layout, readsAsRate)
    ensures fill.Filled? <==> && Accepts(sheet, chosen, layout, readsAsRate)
                              && Verifiable(sheet, kept, PricesOf(sheet, kept, chosen), layout, rate, last)
    ensures fill.Filled? ==> FilledExactly(fill.sheet, sheet, chosen, kept, layout, rate, last)
    ensures fill.Filled? ==> && IsCompaction(fill.sheet, sheet, kept, PricesOf(sheet, kept, chosen), layout, rate)
                             && fill.sheet.order == Numbered(LAST_HEADER_ROW + |kept|)
    ensures WellFormed(sheet, kept) ==> !fill.ReadbackFailed?
  {
    hide Selectable, Fillable, Verifiable, WellFormed, Published, Prefilled, Refusal, FilledExactly, IsCompaction;
    hide ReadsBack, PricesReadBack, IdentitiesReadBack, HeadersAndRows, Covers, IdentityAt, DataRow,
         ChosenRows, PricesOf;
    kept := [];
    if chosen == map[] {
      return Refused("empty_selected_scope"), kept;
    }
    var selected := SelectRows(sheet, chosen);
    if selected.Err? {
      return Refused(selected.error), kept;
    }
    var rows := selected.value.0;
    kept := rows;
    RefusalExactly(sheet, rows, layout, readsAsRate);
    var refusal := Refusal(sheet, rows, layout, readsAsRate);
    if refusal.Some? {
      return Refused(refusal.value), kept;
    }
    fill := CompactAndReadBack(sheet, rows, selected.value.1, layout, rate, last);
    if fill.Filled? {
      FilledFromReadback(fill.sheet, sheet, chosen, rows, selected.value.1, layout, rate, last);
    }
  }
}
