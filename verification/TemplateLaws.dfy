/**
 * What filling a template means, from the cells and merged ranges alone: what a cell shows, which
 * inputs are accepted, and every cell and range of the file that is written.
 */
module TemplateLaws {
  import opened CampaignTypes
  import opened Template

  // ---------- what a cell shows ----------

  /** The physical text of a cell; a cell that is not there is blank. */
  predicate Holds(cells: Cells, n: int, col: Col, text: string) {
    if n in cells && col in cells[n] then cells[n][col] == text else text == ""
  }

  predicate Over(m: Merge, n: int, col: Col) {
    m.col == col && m.endCol == col && m.first <= n <= m.last
  }

  predicate OnlyOver(merges: seq<Merge>, i: int, n: int, col: Col) {
    && 0 <= i < |merges| && Over(merges[i], n, col)
    && forall j :: 0 <= j < |merges| && Over(merges[j], n, col) ==> j == i
  }

  /** Its own text, or if blank that of the top of the one range over it; blank where there is none. */
  ghost predicate Seen(sheet: Sheet, n: int, col: Col, text: string) {
    || (text != "" && Holds(sheet.cells, n, col, text))
    || (Holds(sheet.cells, n, col, "")
        && if forall i :: 0 <= i < |sheet.merges| ==> !Over(sheet.merges[i], n, col) then text == ""
           else exists i :: OnlyOver(sheet.merges, i, n, col) && Holds(sheet.cells, sheet.merges[i].first, col, text))
  }

  lemma {:induction false} OwnersExactly(merges: seq<Merge>, n: int, col: Col)
    ensures OwnerMerges(merges, n, col) == [] <==> forall i :: 0 <= i < |merges| ==> !Over(merges[i], n, col)
    ensures |OwnerMerges(merges, n, col)| == 1 <==> exists i :: OnlyOver(merges, i, n, col)
    ensures forall i :: OnlyOver(merges, i, n, col) ==> OwnerMerges(merges, n, col) == [merges[i]]
  {
    if merges != [] {
      var k := |merges| - 1;
      var rest := merges[..k];
      OwnersExactly(rest, n, col);
      assert Owns(merges[k], n, col) <==> Over(merges[k], n, col);
      if Over(merges[k], n, col) {
        assert OwnerMerges(rest, n, col) == [] <==> OnlyOver(merges, k, n, col);
      } else {
        forall i ensures OnlyOver(merges, i, n, col) <==> OnlyOver(rest, i, n, col) {
          assert forall j :: 0 <= j < k ==> merges[j] == rest[j];
        }
      }
    }
  }

  lemma ShownExactly(sheet: Sheet, n: int, col: Col, text: string)
    ensures Effective(sheet.cells, sheet.merges, n, col) == Ok(text) <==> Seen(sheet, n, col, text)
  {
    hide Over, OwnerMerges;
    OwnersExactly(sheet.merges, n, col);
    var own := Cell(sheet.cells, n, col);
    assert Holds(sheet.cells, n, col, own);
  }

  // ---------- the rows and what is asked of them ----------

  predicate Listed(sheet: Sheet, n: int) {
    n > LAST_HEADER_ROW && !Holds(sheet.cells, n, SKU_COL, "")
  }

  /** A data row shows its product, has its SKU, and its state can be read. */
  ghost predicate Identifies(sheet: Sheet, n: int, p: Pair) {
    && Listed(sheet, n) && Seen(sheet, n, ITEM_COL, p.item) && Holds(sheet.cells, n, SKU_COL, p.sku)
    && exists state :: Seen(sheet, n, STATE_COL, state)
  }

  ghost predicate Keeps(sheet: Sheet, n: int, chosen: map<Pair, string>) {
    exists p :: p in chosen && Identifies(sheet, n, p)
  }

  /** The rows that are kept. */
  ghost function Kept(sheet: Sheet, chosen: map<Pair, string>): set<int> {
    set n | n in sheet.cells && Keeps(sheet, n, chosen)
  }

  /** Not yet published, no amount given, and no other rate than the given one. */
  ghost predicate Open(sheet: Sheet, n: int, layout: Layout, readsAsRate: string -> bool) {
    && (forall state :: Seen(sheet, n, STATE_COL, state) ==>
          state != "已发布设定" && state != "活动中" && state != "进行中" && state != "已生效")
    && (exists percent :: Seen(sheet, n, layout.percent, percent) && (percent == "" || readsAsRate(percent)))
    && Seen(sheet, n, layout.amount, "")
  }

  predicate Within(m: Merge, n: int) {
    m.first <= n <= m.last
  }

  /** A range of this column over the row has an earlier kept row. */
  ghost predicate Inherits(sheet: Sheet, rows: set<int>, n: int, col: Col) {
    exists m, k :: m in sheet.merges && k in rows && Within(m, k)
                   && m.last > LAST_HEADER_ROW && m.col == col && k < n <= m.last
  }

  /** The row has a cell for the price, and one for the rate if it must be written there. */
  ghost predicate Writable(sheet: Sheet, rows: set<int>, n: int, layout: Layout) {
    && n in sheet.cells && layout.price in sheet.cells[n]
    && (!Inherits(sheet, rows, n, layout.percent) && Seen(sheet, n, layout.percent, "") ==>
          layout.percent in sheet.cells[n])
  }

  ghost predicate FirstOf(rows: set<int>, m: Merge, n: int) {
    n in rows && Within(m, n) && forall k :: k in rows && Within(m, k) ==> n <= k
  }

  /** Both rows show this product. */
  ghost predicate Share(sheet: Sheet, a: int, b: int, item: Item) {
    Seen(sheet, a, ITEM_COL, item) && Seen(sheet, b, ITEM_COL, item)
  }

  /**
   * A range among the data rows covers one column, and none of SKU, price or amount; its kept rows
   * are of one product; and if its top is dropped, its first kept row has a cell for what stood there.
   */
  ghost predicate Movable(sheet: Sheet, rows: set<int>, m: Merge, layout: Layout) {
    m.last > LAST_HEADER_ROW ==>
      && m.first > LAST_HEADER_ROW && m.col == m.endCol
      && m.col != SKU_COL && m.col != layout.price && m.col != layout.amount
      && (forall a, b :: a in rows && b in rows && Within(m, a) && Within(m, b) ==> exists i :: Share(sheet, a, b, i))
      && (forall n :: FirstOf(rows, m, n) && n != m.first ==>
            m.first in sheet.cells
            && (m.col in sheet.cells[m.first] ==> n in sheet.cells && m.col in sheet.cells[n]))
  }

  lemma IdentityExactly(sheet: Sheet, n: int, p: Pair)
    ensures DataRow(sheet, n) && IdentityAt(sheet, n) == Ok(p) <==> Identifies(sheet, n, p)
    ensures DataRow(sheet, n) <==> Listed(sheet, n)
  {
    hide Effective, Seen;
    ShownExactly(sheet, n, ITEM_COL, p.item);
    var state := Effective(sheet.cells, sheet.merges, n, STATE_COL);
    forall text ensures state == Ok(text) <==> Seen(sheet, n, STATE_COL, text) {
      ShownExactly(sheet, n, STATE_COL, text);
    }
  }

  lemma ListedIsThere(sheet: Sheet, n: int)
    requires Listed(sheet, n)
    ensures n in sheet.cells
  {
  }

  lemma KeepsExactly(sheet: Sheet, n: int, chosen: map<Pair, string>)
    ensures Keeps(sheet, n, chosen)
            <==> DataRow(sheet, n) && IdentityAt(sheet, n).Ok? && IdentityAt(sheet, n).value in chosen
  {
    hide IdentityAt, DataRow, Identifies;
    forall p ensures DataRow(sheet, n) && IdentityAt(sheet, n) == Ok(p) <==> Identifies(sheet, n, p) {
      IdentityExactly(sheet, n, p);
    }
  }

  lemma {:induction false} ChosenMembers(sheet: Sheet, rows: seq<int>, chosen: map<Pair, string>)
    requires Upwards(rows)
    ensures forall n :: n in ChosenRows(sheet, rows, chosen) <==> n in rows && Keeps(sheet, n, chosen)
    ensures KeptRows(ChosenRows(sheet, rows, chosen))
  {
    hide IdentityAt, DataRow, Keeps;
    if rows != [] {
      var rest, n := rows[..|rows| - 1], rows[|rows| - 1];
      assert rows == rest + [n];
      ChosenMembers(sheet, rest, chosen);
      KeepsExactly(sheet, n, chosen);
      ChooseOne(sheet, rest, n, chosen);
      var kept := ChosenRows(sheet, rest, chosen);
      forall k | 0 <= k < |kept| ensures kept[k] < n {
        assert kept[k] in rest;
      }
      if DataRow(sheet, n) {
        DataIsBelow(sheet, n);
      }
    }
  }

  lemma KeptExactly(sheet: Sheet, chosen: map<Pair, string>)
    requires RowsInOrder(sheet)
    ensures KeptRows(ChosenRows(sheet, sheet.order, chosen))
    ensures SetOf(ChosenRows(sheet, sheet.order, chosen)) == Kept(sheet, chosen)
  {
    hide Keeps;
    ChosenMembers(sheet, sheet.order, chosen);
    assert forall n :: n in sheet.order <==> n in SetOf(sheet.order);
  }

  lemma SelectableExactly(sheet: Sheet, chosen: map<Pair, string>)
    requires RowsInOrder(sheet)
    ensures Selectable(sheet, chosen)
            <==> && (forall n :: Listed(sheet, n) ==> exists p :: Identifies(sheet, n, p))
                 && (forall m, n, p :: Identifies(sheet, m, p) && Identifies(sheet, n, p) ==> m == n)
                 && (forall p :: p in chosen ==> exists n :: Identifies(sheet, n, p))
  {
    hide IdentityAt, DataRow, Identifies;
    forall n, p
      ensures Shows(sheet, n, p) <==> Identifies(sheet, n, p)
      ensures Identifies(sheet, n, p) ==> DataRow(sheet, n)
    {
      IdentityExactly(sheet, n, p);
    }
    forall n
      ensures DataRow(sheet, n) <==> Listed(sheet, n)
      ensures Listed(sheet, n) ==> n in sheet.order
    {
      IdentityExactly(sheet, n, Pair("", ""));
      if Listed(sheet, n) {
        ListedIsThere(sheet, n);
        assert n in SetOf(sheet.order);
      }
    }
    IdentifiedExactly(sheet);
  }

  /** Distinct identities, said of the identities or of the rows. */
  lemma IdentifiedExactly(sheet: Sheet)
    requires forall n, p :: Shows(sheet, n, p) <==> Identifies(sheet, n, p)
    requires forall n :: DataRow(sheet, n) <==> Listed(sheet, n)
    requires forall n :: Listed(sheet, n) ==> n in sheet.order
    ensures Identified(sheet, sheet.order)
            <==> && (forall n :: Listed(sheet, n) ==> exists p :: Identifies(sheet, n, p))
                 && (forall m, n, p :: Identifies(sheet, m, p) && Identifies(sheet, n, p) ==> m == n)
  {
    hide IdentityAt, DataRow, Identifies, Listed;
    if Identified(sheet, sheet.order) {
      forall n | Listed(sheet, n) ensures exists p :: Identifies(sheet, n, p) {
        assert Shows(sheet, n, IdentityAt(sheet, n).value);
      }
      forall m, n, p | Identifies(sheet, m, p) && Identifies(sheet, n, p) ensures m == n {
        assert Shows(sheet, m, p) && Shows(sheet, n, p);
      }
    } else {
      if n :| n in sheet.order && DataRow(sheet, n) && IdentityAt(sheet, n).Err? {
        forall p ensures !Identifies(sheet, n, p) {
          assert !Shows(sheet, n, p);
        }
      } else {
        var m, n :| m in sheet.order && n in sheet.order && m != n && DataRow(sheet, m) && DataRow(sheet, n)
                    && IdentityAt(sheet, m) == IdentityAt(sheet, n);
        assert Shows(sheet, m, IdentityAt(sheet, m).value) && Shows(sheet, n, IdentityAt(sheet, m).value);
      }
    }
  }

  lemma OpenExactly(sheet: Sheet, n: int, layout: Layout, readsAsRate: string -> bool)
    ensures !Published(sheet, n) && !Prefilled(sheet, n, layout, readsAsRate) <==> Open(sheet, n, layout, readsAsRate)
  {
    hide Effective, Seen;
    forall col: Col, text
      ensures Effective(sheet.cells, sheet.merges, n, col) == Ok(text) <==> Seen(sheet, n, col, text)
    {
      ShownExactly(sheet, n, col, text);
    }
    var state, percent := Effective(sheet.cells, sheet.merges, n, STATE_COL),
                          Effective(sheet.cells, sheet.merges, n, layout.percent);
    assert state.Ok? ==> Seen(sheet, n, STATE_COL, state.value);
    assert percent.Ok? ==> Seen(sheet, n, layout.percent, percent.value);
  }

  /** The kept rows of a range are in order, so its first is the least. */
  lemma RetainedRises(kept: seq<int>, m: Merge)
    requires KeptRows(kept)
    ensures Upwards(Retained(kept, m))
    ensures forall k :: k in Retained(kept, m) <==> k in kept && Within(m, k)
  {
    RetainedMembers(kept, m);
    var lo, hi := RetainedConsecutive(kept, m);
  }

  /** A range leads at its first kept row, and the later kept rows in it follow. */
  lemma FirstExactly(kept: seq<int>, m: Merge, n: int)
    requires KeptRows(kept)
    ensures Leads(kept, m, n) <==> FirstOf(SetOf(kept), m, n)
    ensures Retained(kept, m) == [] <==> forall k :: k in kept ==> !Within(m, k)
    ensures Retained(kept, m) != [] ==>
              (n in Retained(kept, m)[1..]
               <==> n in kept && Within(m, n) && exists k :: k in kept && Within(m, k) && k < n)
  {
    RetainedRises(kept, m);
    hide KeptRows, Within;
    var r := Retained(kept, m);
    if r == [] {
      assert forall k :: k in kept && Within(m, k) ==> k in r;
    } else {
      hide Retained;
      FirstOfRising(r, n);
      assert r[0] in r;
    }
  }

  lemma FirstOfRising(r: seq<int>, n: int)
    requires Upwards(r) && r != []
    ensures r[0] == n <==> n in r && forall k :: k in r ==> n <= k
    ensures n in r[1..] <==> n in r && r[0] < n
  {
    if n in r {
      var j :| 0 <= j < |r| && r[j] == n;
      assert j > 0 ==> r[1..][j - 1] == n;
    }
    assert r[0] in r;
    if n in r[1..] {
      var j :| 0 <= j < |r| - 1 && r[1..][j] == n;
      assert r[j + 1] == n;
    }
    if r[0] == n {
      forall k | k in r ensures n <= k {
        var j :| 0 <= j < |r| && r[j] == k;
      }
    }
  }

  lemma WritableExactly(sheet: Sheet, kept: seq<int>, n: int, layout: Layout)
    requires KeptRows(kept) && n in kept && exists text :: Seen(sheet, n, layout.percent, text)
    ensures Finishable(sheet, kept, layout, n) <==> Writable(sheet, SetOf(kept), n, layout)
    ensures OwnsPercent(sheet.merges, kept, layout, n) <==> !Inherits(sheet, SetOf(kept), n, layout.percent)
  {
    hide Effective, Seen;
    var text :| Seen(sheet, n, layout.percent, text);
    ShownExactly(sheet, n, layout.percent, text);
    ShownExactly(sheet, n, layout.percent, "");
    InheritsExactly(sheet, kept, n, layout);
    hide OwnsPercent, Inherits;
  }

  lemma InheritsExactly(sheet: Sheet, kept: seq<int>, n: int, layout: Layout)
    requires KeptRows(kept) && n in kept
    ensures OwnsPercent(sheet.merges, kept, layout, n) <==> !Inherits(sheet, SetOf(kept), n, layout.percent)
  {
    hide KeptRows, Retained;
    forall m
      ensures (Retained(kept, m) != [] && n in Retained(kept, m)[1..])
              <==> exists k :: k in SetOf(kept) && Within(m, k) && k < n <= m.last
    {
      FirstExactly(kept, m, n);
    }
    if Inherits(sheet, SetOf(kept), n, layout.percent) {
      var m, k :| m in sheet.merges && k in SetOf(kept) && Within(m, k)
                  && m.last > LAST_HEADER_ROW && m.col == layout.percent && k < n <= m.last;
    }
  }

  lemma MovableExactly(sheet: Sheet, kept: seq<int>, m: Merge, layout: Layout)
    requires KeptRows(kept) && forall n :: n in kept ==> exists item :: Seen(sheet, n, ITEM_COL, item)
    ensures Remappable(m, sheet, kept, layout) <==> Movable(sheet, SetOf(kept), m, layout)
  {
    hide Effective, Seen, KeptRows, SameItem;
    var r := Retained(kept, m);
    RetainedMembers(kept, m);
    forall n ensures Leads(kept, m, n) <==> FirstOf(SetOf(kept), m, n) {
      FirstExactly(kept, m, n);
    }
    SameExactly(sheet, kept, m);
    if r != [] {
      assert Leads(kept, m, r[0]);
    }
  }

  /** The kept rows of a range show one product. */
  lemma SameExactly(sheet: Sheet, kept: seq<int>, m: Merge)
    requires forall n :: n in kept ==> exists item :: Seen(sheet, n, ITEM_COL, item)
    ensures SameItem(sheet, Retained(kept, m))
            <==> forall a, b :: a in SetOf(kept) && b in SetOf(kept) && Within(m, a) && Within(m, b) ==>
                                  exists i :: Share(sheet, a, b, i)
  {
    hide Effective, Seen;
    var r := Retained(kept, m);
    RetainedMembers(kept, m);
    forall n, item
      ensures Effective(sheet.cells, sheet.merges, n, ITEM_COL) == Ok(item) <==> Seen(sheet, n, ITEM_COL, item)
    {
      ShownExactly(sheet, n, ITEM_COL, item);
    }
    if SameItem(sheet, r) {
      forall a, b | a in SetOf(kept) && b in SetOf(kept) && Within(m, a) && Within(m, b)
        ensures exists i :: Share(sheet, a, b, i)
      {
        assert a in r && b in r;
        var i, j :| 0 <= i < |r| && 0 <= j < |r| && r[i] == a && r[j] == b;
        assert Share(sheet, a, b, Effective(sheet.cells, sheet.merges, a, ITEM_COL).value);
      }
    } else {
      var i :| 0 <= i < |r| && !(Effective(sheet.cells, sheet.merges, r[i], ITEM_COL).Ok?
                                 && Effective(sheet.cells, sheet.merges, r[i], ITEM_COL)
                                    == Effective(sheet.cells, sheet.merges, r[0], ITEM_COL));
      assert r[i] in r && r[0] in r;
      assert forall item :: !Share(sheet, r[i], r[0], item);
      assert r[i] in SetOf(kept) && r[0] in SetOf(kept) && Within(m, r[i]) && Within(m, r[0]);
    }
  }

  /**
   * A template and a choice are accepted if and only if every data row shows its own identity and
   * every chosen one is there, the header rows exist, each kept row is open and has its cells, and
   * each range can be moved.
   */
  lemma AcceptsExactly(sheet: Sheet, chosen: map<Pair, string>, layout: Layout, readsAsRate: string -> bool)
    requires RowsInOrder(sheet)
    ensures var rows := Kept(sheet, chosen);
            Accepts(sheet, chosen, layout, readsAsRate)
            <==> && chosen != map[]
                 && (forall n :: Listed(sheet, n) ==> exists p :: Identifies(sheet, n, p))
                 && (forall m, n, p :: Identifies(sheet, m, p) && Identifies(sheet, n, p) ==> m == n)
                 && (forall p :: p in chosen ==> exists n :: Identifies(sheet, n, p))
                 && 1 in sheet.cells && 2 in sheet.cells && 3 in sheet.cells
                 && (forall n :: n in rows ==>
                       Open(sheet, n, layout, readsAsRate) && Writable(sheet, rows, n, layout))
                 && (forall m :: m in sheet.merges ==> Movable(sheet, rows, m, layout))
  {
    hide Selectable, Published, Prefilled, Open, Writable, Movable, Finishable, Remappable, Identifies, Listed;
    hide RowsInOrder, KeptRows, ChosenRows;
    var kept, rows := ChosenRows(sheet, sheet.order, chosen), Kept(sheet, chosen);
    SelectableExactly(sheet, chosen);
    KeptExactly(sheet, chosen);
    assert forall n :: n in kept <==> n in rows;
    forall n | n in rows
      ensures !Published(sheet, n) && !Prefilled(sheet, n, layout, readsAsRate) <==> Open(sheet, n, layout, readsAsRate)
      ensures Open(sheet, n, layout, readsAsRate) ==>
                (Finishable(sheet, kept, layout, n) <==> Writable(sheet, rows, n, layout))
      ensures exists item :: Seen(sheet, n, ITEM_COL, item)
    {
      OpenExactly(sheet, n, layout, readsAsRate);
      if Open(sheet, n, layout, readsAsRate) {
        OpenShowsRate(sheet, n, layout, readsAsRate);
        WritableExactly(sheet, kept, n, layout);
      }
      KeptShowsItem(sheet, n, chosen);
    }
    forall m | m in sheet.merges ensures Remappable(m, sheet, kept, layout) <==> Movable(sheet, rows, m, layout) {
      MovableExactly(sheet, kept, m, layout);
    }
  }

  lemma OpenShowsRate(sheet: Sheet, n: int, layout: Layout, readsAsRate: string -> bool)
    requires Open(sheet, n, layout, readsAsRate)
    ensures exists text :: Seen(sheet, n, layout.percent, text)
  {
    hide Seen;
  }

  lemma KeptShowsItem(sheet: Sheet, n: int, chosen: map<Pair, string>)
    requires n in Kept(sheet, chosen)
    ensures exists item :: Seen(sheet, n, ITEM_COL, item)
  {
    hide Seen;
    var p :| p in chosen && Identifies(sheet, n, p);
  }

  // ---------- the file that is written ----------

  /** The i-th range carries the cell of its dropped top down to this row, its first kept one. */
  ghost predicate Carries(sheet: Sheet, rows: set<int>, i: int, n: int, col: Col) {
    && 0 <= i < |sheet.merges|
    && var m := sheet.merges[i];
    && m.last > LAST_HEADER_ROW && m.col == col && FirstOf(rows, m, n) && n != m.first
    && m.first in sheet.cells && col in sheet.cells[m.first]
  }

  ghost predicate LastCarries(sheet: Sheet, rows: set<int>, count: int, i: int, n: int, col: Col) {
    i < count && Carries(sheet, rows, i, n, col) && forall j :: i < j < count ==> !Carries(sheet, rows, j, n, col)
  }

  /** The cell has what the last range that carries something to it brought, else its own text. */
  ghost predicate Left(sheet: Sheet, rows: set<int>, count: int, n: int, col: Col, text: string)
    requires count <= |sheet.merges|
  {
    || (exists i :: LastCarries(sheet, rows, count, i, n, col)
                    && sheet.cells[sheet.merges[i].first][col] == text)
    || ((forall i :: i < count ==> !Carries(sheet, rows, i, n, col)) && Holds(sheet.cells, n, col, text))
  }

  lemma {:induction false} LeftExactly(sheet: Sheet, kept: seq<int>, layout: Layout, count: nat, n: int, col: Col)
    requires KeptRows(kept) && SetOf(kept) <= sheet.cells.Keys && n in kept && count <= |sheet.merges|
    requires RemapAll(sheet.merges[..count], sheet, kept, layout).Ok? && col in sheet.cells[n]
    ensures var w := RemapAll(sheet.merges[..count], sheet, kept, layout).value;
            n in w.cells && col in w.cells[n] && Left(sheet, SetOf(kept), count, n, col, w.cells[n][col])
  {
    hide KeptRows, RemapOne;
    var rows := SetOf(kept);
    assert n in rows;
    if count == 0 {
      assert sheet.merges[..0] == [];
    } else {
      var before, m := sheet.merges[..count - 1], sheet.merges[count - 1];
      assert sheet.merges[..count][..count - 1] == before;
      LeftExactly(sheet, kept, layout, count - 1, n, col);
      CarryOne(RemapAll(before, sheet, kept, layout).value, sheet, kept, layout, count - 1, n, col);
      LeftGrows(sheet, rows, count - 1, n, col);
    }
  }

  lemma CarryOne(w: Work, sheet: Sheet, kept: seq<int>, layout: Layout, i: nat, n: int, col: Col)
    requires KeptRows(kept) && n in kept && i < |sheet.merges| && n in w.cells && col in w.cells[n]
    requires RemapOne(w, sheet.merges[i], sheet, kept, layout).Ok?
    ensures var u := RemapOne(w, sheet.merges[i], sheet, kept, layout).value;
            && n in u.cells && col in u.cells[n]
            && u.cells[n][col] == if Carries(sheet, SetOf(kept), i, n, col)
                                  then sheet.cells[sheet.merges[i].first][col] else w.cells[n][col]
  {
    hide KeptRows, SameItem, Retained, Image;
    FirstExactly(kept, sheet.merges[i], n);
  }

  /** One more range either carries something to the cell or leaves it. */
  lemma LeftGrows(sheet: Sheet, rows: set<int>, i: nat, n: int, col: Col)
    requires i < |sheet.merges|
    ensures Carries(sheet, rows, i, n, col) ==>
              Left(sheet, rows, i + 1, n, col, sheet.cells[sheet.merges[i].first][col])
    ensures !Carries(sheet, rows, i, n, col) ==>
              forall text :: Left(sheet, rows, i, n, col, text) ==> Left(sheet, rows, i + 1, n, col, text)
  {
    hide Carries;
    if Carries(sheet, rows, i, n, col) {
      assert LastCarries(sheet, rows, i + 1, i, n, col);
    } else {
      forall j | LastCarries(sheet, rows, i, j, n, col) ensures LastCarries(sheet, rows, i + 1, j, n, col) {
      }
    }
  }

  /**
   * Every cell of a kept row of the written file: its columns are those of the old row; the price
   * cell has the price; a blank percent cell that follows no other has the rate; any other cell has
   * what a range carried to it, else its own text.
   */
  lemma CellsExactly(out: Sheet, sheet: Sheet, kept: seq<int>, prices: seq<string>, layout: Layout, rate: string,
                     k: nat, col: Col)
    requires KeptRows(kept) && |prices| == |kept| && SetOf(kept) <= sheet.cells.Keys && k < |kept|
    requires layout.price != layout.percent && Compacted(out, sheet, kept, prices, layout, rate)
    ensures var at, n := LAST_HEADER_ROW + 1 + k, kept[k];
            && at in out.cells && (col in out.cells[at] <==> col in sheet.cells[n])
            && (col in sheet.cells[n] ==>
                  if col == layout.price then out.cells[at][col] == prices[k]
                  else if col == layout.percent && !Inherits(sheet, SetOf(kept), n, col) && Seen(sheet, n, col, "")
                  then out.cells[at][col] == rate
                  else Left(sheet, SetOf(kept), |sheet.merges|, n, col, out.cells[at][col]))
  {
    hide KeptRows, Left, Inherits, Seen, RemapAll;
    var n := kept[k];
    assert n in kept && n in SetOf(kept) && sheet.merges[..|sheet.merges|] == sheet.merges;
    RemapsExactly(sheet.merges, sheet, kept, layout);
    InheritsExactly(sheet, kept, n, layout);
    ShownExactly(sheet, n, layout.percent, "");
    if col in sheet.cells[n] {
      LeftExactly(sheet, kept, layout, |sheet.merges|, n, col);
    }
    hide OwnsPercent, Effective, Remappable;
  }

  /** The range that a data range leaves: from its first to its last kept row, if there are two. */
  ghost predicate Moved(kept: seq<int>, m: Merge, r: Merge, lo: int, hi: int) {
    && 0 <= lo < hi < |kept| && Within(m, kept[lo]) && Within(m, kept[hi])
    && (forall k :: 0 <= k < |kept| && Within(m, kept[k]) ==> lo <= k <= hi)
    && r == Merge(m.col, LAST_HEADER_ROW + 1 + lo, m.col, LAST_HEADER_ROW + 1 + hi)
  }

  ghost predicate Leaves(kept: seq<int>, m: Merge, r: Merge) {
    if m.last <= LAST_HEADER_ROW then r == m else exists lo, hi :: Moved(kept, m, r, lo, hi)
  }

  lemma ImageExactly(kept: seq<int>, m: Merge, r: Merge)
    requires KeptRows(kept)
    ensures r in Image(m, kept) <==> Leaves(kept, m, r)
  {
    hide KeptRows, Retained;
    var lo, hi := ImageSpan(m, kept);
    hide Image;
    if m.last > LAST_HEADER_ROW {
      if hi - lo > 1 {
        assert Within(m, kept[lo]) && Within(m, kept[hi - 1]);
        forall s ensures Moved(kept, m, s, lo, hi - 1) <==> s in Image(m, kept) {
        }
        forall a, b | Moved(kept, m, r, a, b) ensures a == lo && b == hi - 1 {
        }
      } else {
        forall a, b ensures !Moved(kept, m, r, a, b) {
        }
      }
    } else {
      HeaderImage(m, kept);
    }
  }

  lemma HeaderImage(m: Merge, kept: seq<int>)
    requires m.last <= LAST_HEADER_ROW
    ensures Image(m, kept) == [m]
  {
  }

  lemma {:induction false} ImagesExactly(merges: seq<Merge>, kept: seq<int>, r: Merge)
    requires KeptRows(kept)
    ensures r in Images(merges, kept) <==> exists m :: m in merges && Leaves(kept, m, r)
  {
    hide KeptRows, Leaves, Image;
    if merges != [] {
      var rest, m := merges[..|merges| - 1], merges[|merges| - 1];
      assert merges == rest + [m];
      ImagesExactly(rest, kept, r);
      ImageExactly(kept, m, r);
    }
  }

  /** The ranges of the written file: the header's, and what the data ranges leave. */
  lemma RangesExactly(out: Sheet, sheet: Sheet, kept: seq<int>, prices: seq<string>, layout: Layout, rate: string,
                      r: Merge)
    requires KeptRows(kept) && |prices| == |kept| && Compacted(out, sheet, kept, prices, layout, rate)
    ensures r in out.merges <==> exists m :: m in sheet.merges && Leaves(kept, m, r)
  {
    RemapImages(sheet.merges, sheet, kept, layout);
    ImagesExactly(sheet.merges, kept, r);
  }

  /** The kept rows are the rows of the chosen identities, upwards, each at its own price. */
  lemma PricedExactly(sheet: Sheet, chosen: map<Pair, string>, k: nat, p: Pair)
    requires RowsInOrder(sheet)
    ensures var kept := ChosenRows(sheet, sheet.order, chosen);
            && Upwards(kept) && SetOf(kept) == Kept(sheet, chosen)
            && (k < |kept| && Identifies(sheet, kept[k], p) ==>
                  p in chosen && PricesOf(sheet, kept, chosen)[k] == chosen[p])
  {
    hide Identifies, IdentityAt;
    KeptExactly(sheet, chosen);
    var kept := ChosenRows(sheet, sheet.order, chosen);
    if k < |kept| && Identifies(sheet, kept[k], p) {
      assert kept[k] in SetOf(kept);
      KeepsExactly(sheet, kept[k], chosen);
      IdentityExactly(sheet, kept[k], p);
    }
  }
}
