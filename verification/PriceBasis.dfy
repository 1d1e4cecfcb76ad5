/**
 * Fixed original prices of custom SKUs: the exact 20% floor, its lineage through replaced
 * SKUs, and the audited correction of a receipt whose floor was written imprecisely. Prices
 * are exact.
 */
module PriceBasis {
  import opened CampaignTypes

  /** One verified replacement of a SKU inside one product and business code. */
  datatype Link = Link(item: Item, code: string, source: Sku, replacement: Sku, receipted: bool, verified: bool)

  datatype Basis = Basis(original: real, floor: real, sourced: bool, lineage: seq<Link>)

  datatype Record = Record(item: Item, sku: Sku, code: string, basis: Basis)

  /** A receipt row; only rows with an original assert a fixed price. alias is the floor's other spelling. */
  datatype Row = Row(item: Item, sku: Sku, code: string, original: Option<real>, floor: Option<real>,
                     alias: Option<real>, links: seq<Link>)

  predicate ExactFloor(original: real, floor: real) {
    original > 0.0 && floor == original * 0.2
  }

  // ---------- lineage ----------

  predicate Complete(l: Link) {
    l.item != "" && l.code != "" && l.source != "" && l.replacement != "" && l.receipted
  }

  function SourcesOf(lineage: seq<Link>): set<Sku> {
    set l | l in lineage :: l.source
  }

  function Inherit(b: Basis, l: Link): Result<Basis> {
    if !ExactFloor(b.original, b.floor) then Err("invalid_fixed_custom_basis")
    else if !b.sourced then Err("missing_original_basis_source")
    else if !Complete(l) then Err("incomplete_verified_lineage")
    else if !l.verified || l.source == l.replacement then Err("invalid_verified_lineage")
    else if b.lineage != [] && !Follows(b.lineage[|b.lineage| - 1], l) then Err("lineage_business_identity_changed")
    else if l.replacement in SourcesOf(b.lineage) then Err("lineage_cycle")
    else Ok(b.(lineage := b.lineage + [l]))
  }

  predicate Follows(before: Link, after: Link) {
    after.item == before.item && after.code == before.code && after.source == before.replacement
  }

  /** The SKU the lineage has reached, starting from the receipt's own SKU. */
  function Reached(start: Sku, lineage: seq<Link>): Sku {
    if lineage == [] then start else lineage[|lineage| - 1].replacement
  }

  /** Every SKU of the chain in order, from the receipt's own SKU on. */
  function Chain(start: Sku, lineage: seq<Link>): (r: seq<Sku>)
    ensures |r| == |lineage| + 1
  {
    if lineage == [] then [start]
    else Chain(start, lineage[..|lineage| - 1]) + [lineage[|lineage| - 1].replacement]
  }

  /** Each link is verified, starts where the chain has got to, and stays in its product and code. */
  ghost predicate Unbroken(start: Sku, lineage: seq<Link>) {
    lineage != [] ==>
      var before, last := lineage[..|lineage| - 1], lineage[|lineage| - 1];
      && Unbroken(start, before) && last.source == Reached(start, before)
      && last.verified && Complete(last) && (before != [] ==> Follows(before[|before| - 1], last))
  }

  ghost predicate SoundChain(start: Sku, lineage: seq<Link>) {
    Unbroken(start, lineage) && NoDuplicates(Chain(start, lineage))
  }

  lemma {:induction false} ChainMembers(start: Sku, lineage: seq<Link>)
    requires Unbroken(start, lineage)
    ensures forall x :: x in Chain(start, lineage) <==> x in SourcesOf(lineage) || x == Reached(start, lineage)
  {
    if lineage != [] {
      var n := |lineage| - 1;
      ChainMembers(start, lineage[..n]);
      assert forall l :: l in lineage <==> l in lineage[..n] || l == lineage[n];
    }
  }

  /**
   * Inheriting extends a sound chain by one new SKU and leaves the original price and its
   * exact floor alone; a SKU the chain has met before is refused.
   */
  lemma InheritKeepsOrigin(b: Basis, l: Link, start: Sku)
    requires SoundChain(start, b.lineage) && l.source == Reached(start, b.lineage) && Inherit(b, l).Ok?
    ensures var after := Inherit(b, l).value;
            && after == b.(lineage := b.lineage + [l]) && ExactFloor(after.original, after.floor)
            && SoundChain(start, after.lineage) && Reached(start, after.lineage) == l.replacement
            && l.replacement !in Chain(start, b.lineage)
  {
    ChainExtends(start, b.lineage, l);
    ChainMembers(start, b.lineage);
    AppendDistinct(Chain(start, b.lineage), l.replacement);
  }

  lemma ChainExtends(start: Sku, lineage: seq<Link>, l: Link)
    requires Unbroken(start, lineage) && l.source == Reached(start, lineage) && l.verified && Complete(l)
    requires lineage != [] ==> Follows(lineage[|lineage| - 1], l)
    ensures Unbroken(start, lineage + [l]) && Chain(start, lineage + [l]) == Chain(start, lineage) + [l.replacement]
  {
  }

  lemma {:induction false} ChainEnds(start: Sku, lineage: seq<Link>, k: nat)
    requires k <= |lineage|
    ensures Chain(start, lineage)[k] == Reached(start, lineage[..k])
  {
    if k < |lineage| {
      var n := |lineage| - 1;
      ChainEnds(start, lineage[..n], k);
      assert lineage[..n][..k] == lineage[..k];
    } else {
      assert lineage[..k] == lineage;
    }
  }

  lemma {:induction false} PrefixUnbroken(start: Sku, lineage: seq<Link>, k: nat)
    requires Unbroken(start, lineage) && k <= |lineage|
    ensures Unbroken(start, lineage[..k])
  {
    if k < |lineage| {
      PrefixUnbroken(start, lineage[..|lineage| - 1], k);
      assert lineage[..|lineage| - 1][..k] == lineage[..k];
    } else {
      assert lineage[..k] == lineage;
    }
  }

  /** A link of a sound chain starts where the chain has got to, and leads to a SKU no earlier link started from. */
  lemma LinkOfChain(start: Sku, lineage: seq<Link>, k: nat)
    requires SoundChain(start, lineage) && k < |lineage|
    ensures var l := lineage[k];
            && l.source == Reached(start, lineage[..k]) && l.verified && Complete(l) && l.source != l.replacement
            && (k > 0 ==> Follows(lineage[k - 1], l)) && l.replacement !in SourcesOf(lineage[..k])
  {
    var to := lineage[..k + 1];
    PrefixUnbroken(start, lineage, k + 1);
    assert to[..k] == lineage[..k];
    ChainEnds(start, lineage, k);
    ChainEnds(start, lineage, k + 1);
    forall j | 0 <= j < k ensures lineage[j].source != lineage[k].replacement {
      PrefixUnbroken(start, lineage, j + 1);
      assert lineage[..j + 1][..j] == lineage[..j];
      ChainEnds(start, lineage, j);
    }
  }

  // ---------- receipt rows ----------

  function FloorOf(r: Row): Option<real> {
    if r.floor.Some? then r.floor else r.alias
  }

  function FirstRecord(r: Row): Result<Record> {
    if r.original.None? || r.item == "" || r.sku == "" then Err("fixed_record_identity_missing")
    else if r.floor.Some? && r.alias.Some? && r.floor != r.alias then Err("conflicting_floor_aliases")
    else if FloorOf(r).None? || !ExactFloor(r.original.value, FloorOf(r).value) then Err("invalid_fixed_custom_basis")
    else Ok(Record(r.item, r.sku, r.code, Basis(r.original.value, FloorOf(r).value, true, [])))
  }

  function NextRecord(r: Record, l: Link): Result<Record> {
    if l.item != r.item || l.source != r.sku then Err("lineage_source_not_receipt_identity")
    else if r.code == "" || l.code != r.code then Err("lineage_erp_code_not_receipt_identity")
    else
      match Inherit(r.basis, l)
      case Err(e) => Err(e)
      case Ok(basis) => Ok(Record(r.item, l.replacement, r.code, basis))
  }

  /**
   * A row asserts the same exact original for its own SKU and every SKU it was replaced by;
   * so far the records reach as many links as there are records after the first.
   */
  ghost predicate Expands(r: Row, records: seq<Record>) {
    && r.original.Some? && FloorOf(r).Some? && ExactFloor(r.original.value, FloorOf(r).value)
    && 0 < |records| <= |r.links| + 1
    && (forall k :: 0 <= k < |records| ==>
          records[k] == Record(r.item, Reached(r.sku, r.links[..k]), r.code,
                               Basis(r.original.value, FloorOf(r).value, true, r.links[..k])))
    && SoundChain(r.sku, r.links[..|records| - 1])
  }

  /** Item and code of the row itself. */
  predicate OfRow(r: Row, l: Link) {
    r.code != "" && l.item == r.item && l.code == r.code
  }

  /** An identified row with one exact floor, whose verified links form a chain without a cycle. */
  ghost predicate Acceptable(r: Row) {
    && r.item != "" && r.sku != "" && !(r.floor.Some? && r.alias.Some? && r.floor != r.alias)
    && r.original.Some? && FloorOf(r).Some? && ExactFloor(r.original.value, FloorOf(r).value)
    && (forall l :: l in r.links ==> OfRow(r, l)) && SoundChain(r.sku, r.links)
  }

  lemma LinkAccepted(r: Row, all: seq<Record>)
    requires Expands(r, all) && |all| <= |r.links|
    ensures NextRecord(all[|all| - 1], r.links[|all| - 1]).Ok? ==> OfRow(r, r.links[|all| - 1])
    ensures Acceptable(r) ==> NextRecord(all[|all| - 1], r.links[|all| - 1]).Ok?
  {
    var n := |all| - 1;
    if Acceptable(r) {
      LinkOfChain(r.sku, r.links, n);
      assert r.links[n] in r.links;
    }
  }

  /** The records of one row; it is expanded as a whole or not at all. */
  method RowRecords(r: Row) returns (records: Result<seq<Record>>)
    requires r.original.Some?
    ensures records.Ok? <==> Acceptable(r)
    ensures records.Ok? ==> Expands(r, records.value) && |records.value| == |r.links| + 1
  {
    hide NextRecord, SoundChain;
    var first := FirstRecord(r);
    if first.Err? {
      return Err(first.error);
    }
    OwnRecord(r, first.value);
    var all := [first.value];
    for i := 0 to |r.links|
      invariant |all| == i + 1 && Expands(r, all) && forall l :: l in r.links[..i] ==> OfRow(r, l)
    {
      LinkAccepted(r, all);
      var next := NextRecord(all[i], r.links[i]);
      if next.Err? {
        return Err(next.error);
      }
      assert r.links[..i + 1] == r.links[..i] + [r.links[i]];
      ExpandOnce(r, all, next.value);
      all := all + [next.value];
    }
    assert r.links[..|r.links|] == r.links;
    records := Ok(all);
  }

  lemma OwnRecord(r: Row, first: Record)
    requires FirstRecord(r) == Ok(first)
    ensures Expands(r, [first])
  {
    assert r.links[..0] == [];
  }

  lemma ExpandOnce(r: Row, all: seq<Record>, next: Record)
    requires Expands(r, all) && |all| <= |r.links|
    requires NextRecord(all[|all| - 1], r.links[|all| - 1]) == Ok(next)
    ensures Expands(r, all + [next])
  {
    var n := |all| - 1;
    assert r.links[..n + 1] == r.links[..n] + [r.links[n]];
    InheritKeepsOrigin(all[n].basis, r.links[n], r.sku);
  }

  ghost predicate FullyIn(r: Row, records: seq<Record>) {
    exists parts :: Expands(r, parts) && |parts| == |r.links| + 1 && forall x :: x in parts ==> x in records
  }

  ghost predicate ComesFrom(x: Record, rows: seq<Row>) {
    exists r, parts :: r in rows && x in parts && Expands(r, parts)
  }

  lemma StillIn(r: Row, before: seq<Record>, more: seq<Record>)
    requires FullyIn(r, before)
    ensures FullyIn(r, before + more)
  {
    var known :| Expands(r, known) && |known| == |r.links| + 1 && forall x :: x in known ==> x in before;
  }

  lemma NewlyIn(rows: seq<Row>, i: nat, before: seq<Record>, parts: seq<Record>)
    requires i < |rows| && Expands(rows[i], parts) && |parts| == |rows[i].links| + 1
    ensures FullyIn(rows[i], before + parts) && forall x :: x in parts ==> ComesFrom(x, rows)
  {
    assert rows[i] in rows;
  }

  /** A receipt's records are exactly the full expansions of its rows with an original. */
  method ReceiptRecords(rows: seq<Row>) returns (records: Result<seq<Record>>)
    ensures records.Ok? <==> forall r :: r in rows && r.original.Some? ==> Acceptable(r)
    ensures records.Ok? ==> forall r :: r in rows && r.original.Some? ==> FullyIn(r, records.value)
    ensures records.Ok? ==> forall x :: x in records.value ==> ComesFrom(x, rows)
  {
    hide FullyIn, ComesFrom, Acceptable;
    var all: seq<Record> := [];
    for i := 0 to |rows|
      invariant forall k :: 0 <= k < i && rows[k].original.Some? ==> Acceptable(rows[k])
      invariant forall k :: 0 <= k < i && rows[k].original.Some? ==> FullyIn(rows[k], all)
      invariant forall x :: x in all ==> ComesFrom(x, rows)
    {
      if rows[i].original.Some? {
        var parts := RowRecords(rows[i]);
        if parts.Err? {
          return Err(parts.error);
        }
        NewlyIn(rows, i, all, parts.value);
        forall k | 0 <= k < i && rows[k].original.Some?
          ensures FullyIn(rows[k], all + parts.value)
        {
          StillIn(rows[k], all, parts.value);
        }
        all := all + parts.value;
      }
    }
    records := Ok(all);
  }

  /** Every record carries its receipt's original price and exactly a fifth of it, over distinct SKUs. */
  lemma RecordsKeepOrigin(r: Row, records: seq<Record>, j: nat, k: nat)
    requires Expands(r, records) && j < k < |records|
    ensures records[j].basis.original == records[k].basis.original == r.original.value
    ensures records[j].basis.floor == records[k].basis.floor == r.original.value * 0.2
    ensures records[j].sku != records[k].sku && records[j].basis.lineage < records[k].basis.lineage
  {
    var links := r.links[..|records| - 1];
    ChainEnds(r.sku, links, j);
    ChainEnds(r.sku, links, k);
    assert links[..j] == r.links[..j] && links[..k] == r.links[..k];
    assert r.links[..k][..j] == r.links[..j];
  }

  // ---------- registered sources and their corrections ----------

  type Path = string
  type Sha = string

  datatype SourceKind = Fixed | OtherKind

  datatype Source = Source(kind: SourceKind, sha: Sha)

  datatype Correction = Correction(oldSha: Sha, newPath: Path, newSha: Sha)

  datatype State = State(sources: map<Path, Source>, corrections: map<Path, Correction>)

  /** What a hash stands for; a hash determines its document. */
  type Archive = Sha -> seq<Row>

  predicate RowExact(r: Row) {
    r.original.Some? && r.floor.Some? && ExactFloor(r.original.value, r.floor.value)
  }

  predicate AllExact(rows: seq<Row>) { forall r :: r in rows ==> RowExact(r) }

  predicate SameButFloor(before: Row, after: Row) { before.(floor := after.floor) == after }

  /** Only floors that were not exact change, and only to the exact one; scope and originals stay. */
  predicate PrecisionOnly(before: seq<Row>, after: seq<Row>) {
    && |before| == |after| && before != []
    && (forall i, j :: 0 <= i < j < |after| ==>
          (after[i].item, after[i].sku, after[i].code) != (after[j].item, after[j].sku, after[j].code))
    && (forall i :: 0 <= i < |after| ==> SameButFloor(before[i], after[i]) && RowExact(after[i])
                                         && before[i].floor.Some?
                                         && (before[i] != after[i] ==> !RowExact(before[i])))
    && before != after
  }

  /** A fixed source needs valid records for every row that asserts an original, and at least one. */
  predicate FixedReceiptValid(rows: seq<Row>) {
    && (exists r :: r in rows && r.original.Some?)
    && (forall r :: r in rows && r.original.Some? ==> FirstRecord(r).Ok?)
  }

  predicate MayRegister(s: State, path: Path, kind: SourceKind, sha: Sha, archive: Archive) {
    && (kind == Fixed ==> FixedReceiptValid(archive(sha)))
    && (path in s.sources ==> s.sources[path] == Source(kind, sha))
  }

  function AfterRegister(s: State, path: Path, kind: SourceKind, sha: Sha, archive: Archive): State {
    if MayRegister(s, path, kind, sha, archive) then s.(sources := s.sources[path := Source(kind, sha)]) else s
  }

  predicate MayCorrect(s: State, oldPath: Path, oldSha: Sha, newPath: Path, newSha: Sha, archive: Archive) {
    && oldPath != newPath && PrecisionOnly(archive(oldSha), archive(newSha))
    && oldPath !in s.corrections
    && oldPath in s.sources && s.sources[oldPath] == Source(Fixed, oldSha)
    && MayRegister(s, newPath, Fixed, newSha, archive)
  }

  function AfterCorrect(s: State, oldPath: Path, oldSha: Sha, newPath: Path, newSha: Sha, archive: Archive): State {
    if MayCorrect(s, oldPath, oldSha, newPath, newSha, archive) then
      State(s.sources[newPath := Source(Fixed, newSha)], s.corrections[oldPath := Correction(oldSha, newPath, newSha)])
    else s
  }

  datatype Move =
    | Register(path: Path, kind: SourceKind, sha: Sha)
    | Correct(oldPath: Path, oldSha: Sha, newPath: Path, newSha: Sha)

  function After(s: State, m: Move, archive: Archive): State {
    match m
    case Register(path, kind, sha) => AfterRegister(s, path, kind, sha, archive)
    case Correct(oldPath, oldSha, newPath, newSha) => AfterCorrect(s, oldPath, oldSha, newPath, newSha, archive)
  }

  /** From whatever sources were registered before any correction existed. */
  function Play(legacy: map<Path, Source>, moves: seq<Move>, archive: Archive): State {
    if moves == [] then State(legacy, map[])
    else After(Play(legacy, moves[..|moves| - 1], archive), moves[|moves| - 1], archive)
  }

  /** A correction replaces a source that has an inexact floor by one that has none. */
  ghost predicate CorrectionSound(s: State, path: Path, archive: Archive)
    requires path in s.corrections
  {
    var c := s.corrections[path];
    && path in s.sources && s.sources[path] == Source(Fixed, c.oldSha) && !AllExact(archive(c.oldSha))
    && c.newPath in s.sources && s.sources[c.newPath] == Source(Fixed, c.newSha) && AllExact(archive(c.newSha))
    && PrecisionOnly(archive(c.oldSha), archive(c.newSha))
  }

  ghost predicate Inv(s: State, archive: Archive) {
    forall p :: p in s.corrections ==> CorrectionSound(s, p, archive)
  }

  lemma StepKeepsInv(s: State, m: Move, archive: Archive)
    requires Inv(s, archive)
    ensures Inv(After(s, m, archive), archive)
  {
  }

  lemma {:induction false} CorrectionsStaySound(legacy: map<Path, Source>, moves: seq<Move>, archive: Archive)
    ensures Inv(Play(legacy, moves, archive), archive)
  {
    if moves != [] {
      var n := |moves| - 1;
      CorrectionsStaySound(legacy, moves[..n], archive);
      StepKeepsInv(Play(legacy, moves[..n], archive), moves[n], archive);
    }
  }

  /** No correction is ever corrected: chains have length one, so none can form a cycle. */
  lemma CorrectionsDoNotChain(s: State, archive: Archive, path: Path)
    requires Inv(s, archive) && path in s.corrections
    ensures s.corrections[path].newPath !in s.corrections
  {
  }

  /** Following corrections from a path, as reading the sources does, with the visited paths. */
  method Resolve(s: State, start: Path, archive: Archive) returns (path: Path, cycle: bool)
    requires Inv(s, archive)
    ensures !cycle
    ensures path == if start in s.corrections then s.corrections[start].newPath else start
    ensures path !in s.corrections
  {
    var visited: set<Path> := {};
    path, cycle := start, false;
    while path in s.corrections && !cycle
      invariant !cycle
      invariant if visited == {} then path == start
                else start in s.corrections && visited == {start} && path == s.corrections[start].newPath
      decreases if path in s.corrections then 1 else 0
    {
      CorrectionsDoNotChain(s, archive, start);
      if path in visited {
        cycle := true;
      } else {
        visited, path := visited + {path}, s.corrections[path].newPath;
      }
    }
    if start in s.corrections {
      CorrectionsDoNotChain(s, archive, start);
    }
  }

  /** Every original price survives a correction of its source. */
  lemma CorrectionKeepsOriginals(s: State, archive: Archive, path: Path, i: nat)
    requires Inv(s, archive) && path in s.corrections && i < |archive(s.corrections[path].oldSha)|
    ensures var c := s.corrections[path];
            && i < |archive(c.newSha)|
            && archive(c.newSha)[i].original == archive(c.oldSha)[i].original
            && archive(c.newSha)[i].floor == Some(archive(c.newSha)[i].original.value * 0.2)
            && archive(c.newSha)[i].links == archive(c.oldSha)[i].links
  {
  }

  /**
   * Registration already refuses inexact floors, so only a source registered before that
   * check existed can ever be corrected.
   */
  lemma OnlyLegacySourcesAreCorrected(s: State, path: Path, sha: Sha, newPath: Path, newSha: Sha, archive: Archive)
    requires FixedReceiptValid(archive(sha))
    ensures !MayCorrect(s, path, sha, newPath, newSha, archive)
  {
  }

  // ---------- one original per product and business code ----------

  type Logical = map<(Item, string), (real, real)>

  /** Records of one business code in one product must agree on the original and its floor. */
  method LogicalBases(records: seq<Record>) returns (r: Result<Logical>)
    ensures r.Ok? <==> forall i, j :: 0 <= i < j < |records| && SameLogical(records[i], records[j]) ==>
                                        PriceOf(records[i]) == PriceOf(records[j])
    ensures r.Ok? ==> forall x :: x in records && x.code != "" ==>
                                    (x.item, x.code) in r.value && r.value[(x.item, x.code)] == PriceOf(x)
  {
    var logical: Logical := map[];
    for i := 0 to |records|
      invariant forall k :: 0 <= k < i && records[k].code != "" ==>
                  (records[k].item, records[k].code) in logical
                  && logical[(records[k].item, records[k].code)] == PriceOf(records[k])
      invariant forall key :: key in logical ==>
                  exists k :: 0 <= k < i && records[k].code != "" && key == (records[k].item, records[k].code)
    {
      var x := records[i];
      if x.code != "" {
        var key := (x.item, x.code);
        if key in logical && logical[key] != PriceOf(x) {
          var k :| 0 <= k < i && records[k].code != "" && key == (records[k].item, records[k].code);
          assert SameLogical(records[k], records[i]);
          return Err("fixed_original_conflict_no_rebase");
        }
        logical := logical[key := PriceOf(x)];
      }
    }
    r := Ok(logical);
  }

  predicate SameLogical(a: Record, b: Record) { a.code != "" && a.item == b.item && a.code == b.code }

  function PriceOf(r: Record): (real, real) { (r.basis.original, r.basis.floor) }
}
