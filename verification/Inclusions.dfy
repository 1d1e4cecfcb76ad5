/**
 * Why an offer whose partial import was later extended can always be checked again: the rows
 * beyond the original import are exactly the verified inclusions, at the amounts they show.
 */
module Inclusions {
  import opened CampaignTypes
  import opened Overlays
  import Reuse

  // ---------- rows under amendments and additions ----------

  lemma {:induction false} OverwriteKeepsPairs(rows: seq<SavedRow>, p: Pair, amount: Cents, i: nat)
    requires i < |rows|
    ensures Overwrite(rows, p, amount)[i].pair == rows[i].pair
  {
    var n := |rows| - 1;
    if i < n && rows[n].pair != p {
      OverwriteKeepsPairs(rows[..n], p, amount, i);
    }
  }

  lemma OverwriteKeepsScope(rows: seq<SavedRow>, p: Pair, amount: Cents)
    ensures DistinctPairs(rows) ==> DistinctPairs(Overwrite(rows, p, amount))
    ensures PairsOf(Overwrite(rows, p, amount)) == PairsOf(rows)
  {
    var after := Overwrite(rows, p, amount);
    forall i | 0 <= i < |rows| ensures after[i].pair == rows[i].pair {
      OverwriteKeepsPairs(rows, p, amount, i);
    }
    forall q | q in PairsOf(rows) ensures q in PairsOf(after) {
      var i :| 0 <= i < |rows| && rows[i].pair == q;
      assert after[i] in after;
    }
    forall q | q in PairsOf(after) ensures q in PairsOf(rows) {
      var i :| 0 <= i < |after| && after[i].pair == q;
      assert rows[i] in rows;
    }
  }

  lemma {:induction false} AmountMeansPair(rows: seq<SavedRow>, p: Pair)
    ensures AmountOf(rows, p).Some? <==> p in PairsOf(rows)
  {
    if rows != [] {
      var n := |rows| - 1;
      AmountMeansPair(rows[..n], p);
      assert rows == rows[..n] + [rows[n]];
    }
  }

  lemma PutExtendsScope(rows: seq<SavedRow>, p: Pair, amount: Cents)
    ensures DistinctPairs(rows) ==> DistinctPairs(Put(rows, p, amount))
    ensures PairsOf(Put(rows, p, amount)) == PairsOf(rows) + {p}
  {
    AmountMeansPair(rows, p);
    if AmountOf(rows, p).Some? {
      OverwriteKeepsScope(rows, p, amount);
    } else {
      assert forall r :: r in rows ==> r.pair in PairsOf(rows);
      assert forall r :: r in rows + [SavedRow(p, amount)] <==> r in rows || r == SavedRow(p, amount);
    }
  }

  lemma {:induction false} PutAllExtendsScope(rows: seq<SavedRow>, added: seq<SavedRow>)
    ensures DistinctPairs(rows) ==> DistinctPairs(PutAll(rows, added))
    ensures PairsOf(PutAll(rows, added)) == PairsOf(rows) + PairsOf(added)
  {
    if added != [] {
      var n := |added| - 1;
      PutAllExtendsScope(rows, added[..n]);
      PutExtendsScope(PutAll(rows, added[..n]), added[n].pair, added[n].deduct);
      assert added == added[..n] + [added[n]];
    }
  }

  // ---------- the tables before inclusions keep the imported scope ----------

  /** Nothing has been added to the offer, whatever amounts have changed. */
  ghost predicate SameScope(before: Offer, after: Offer) {
    && after.platform == before.platform && after.window == before.window && after.original == before.original
    && after.included == before.included && DistinctPairs(after.rows) && PairsOf(after.rows) == PairsOf(before.rows)
  }

  lemma {:induction false} NothingAdded(steps: seq<Step>, offers: seq<Offer>, i: nat)
    requires Run(steps, offers).Ok? && forall s :: s in steps ==> !Adds(s)
    requires i < |offers| && DistinctPairs(offers[i].rows)
    ensures |Run(steps, offers).value| == |offers| && SameScope(offers[i], Run(steps, offers).value[i])
  {
    if steps != [] {
      var n := |steps| - 1;
      NothingAdded(steps[..n], offers, i);
      var mid, s := Run(steps[..n], offers).value[i], steps[n];
      assert !Adds(s);
      if s.Amend? && s.amount.Some? {
        OverwriteKeepsScope(mid.rows, s.pair, s.amount.value);
      }
    }
  }

  // ---------- the inclusions ----------

  function InclusionOf(c: IncludeClaim): Inclusion { Inclusion(c.rows, c.windowExact, c.saved) }

  predicate Covers(c: IncludeClaim, o: Offer) {
    c.stage == Verified && Hits(ByPlatform(c.platform, c.window), o)
  }

  /** What claiming and recording guarantee: exact receipts, and no SKU of an offer added twice. */
  ghost predicate ClaimsSound(cs: seq<IncludeClaim>, o: Offer) {
    && (forall c :: c in cs && Covers(c, o) ==> c.windowExact && c.saved == Reuse.WantedOf(c.rows))
    && (forall j, k :: 0 <= j < k < |cs| && Covers(cs[j], o) && Covers(cs[k], o) ==>
                         PairsOf(cs[j].rows) !! PairsOf(cs[k].rows))
  }

  /** The offer after the inclusions so far. */
  ghost predicate Extended(cs: seq<IncludeClaim>, before: Offer, after: Offer) {
    && after.platform == before.platform && after.window == before.window && after.original == before.original
    && DistinctPairs(after.rows) && after.original.Keys <= PairsOf(after.rows)
    && (forall p :: p in PairsOf(after.rows) - after.original.Keys ==> Reuse.AddedByInclusion(after, p))
    && (forall inc :: inc in after.included ==> exists c :: c in cs && Covers(c, before) && inc == InclusionOf(c))
    && (forall inc :: inc in after.included ==> Reuse.InclusionProven(after, inc))
  }

  lemma StillProven(before: Offer, c: IncludeClaim, inc: Inclusion)
    requires Reuse.InclusionProven(before, inc) && PairsOf(inc.rows) !! PairsOf(c.rows)
    ensures Reuse.InclusionProven(WithInclusion(before, InclusionOf(c)), inc)
  {
    forall p | p in inc.saved
      ensures AmountOf(PutAll(before.rows, c.rows), p) == Some(inc.saved[p])
    {
      PutAllAmounts(before.rows, c.rows, p);
      AmountMeansPair(c.rows, p);
    }
  }

  lemma NewlyProven(before: Offer, c: IncludeClaim)
    requires c.windowExact && c.saved == Reuse.WantedOf(c.rows)
    ensures Reuse.InclusionProven(WithInclusion(before, InclusionOf(c)), InclusionOf(c))
    ensures forall p :: p in PairsOf(c.rows) ==> p in c.saved
  {
    forall p | p in PairsOf(c.rows)
      ensures p in c.saved && AmountOf(PutAll(before.rows, c.rows), p) == Some(c.saved[p])
    {
      AmountMeansPair(c.rows, p);
      PutAllAmounts(before.rows, c.rows, p);
    }
  }

  lemma IncludeOnce(cs: seq<IncludeClaim>, c: IncludeClaim, o: Offer, mid: Offer)
    requires ClaimsSound(cs + [c], o) && Extended(cs, o, mid) && Covers(c, o)
    ensures Extended(cs + [c], o, WithInclusion(mid, InclusionOf(c)))
  {
    var after, all := WithInclusion(mid, InclusionOf(c)), cs + [c];
    PutAllExtendsScope(mid.rows, c.rows);
    assert c in all;
    NewlyProven(mid, c);
    forall inc | inc in after.included
      ensures Reuse.InclusionProven(after, inc) && exists d :: d in all && Covers(d, o) && inc == InclusionOf(d)
    {
      if inc in mid.included {
        var j :| 0 <= j < |cs| && Covers(cs[j], o) && inc == InclusionOf(cs[j]);
        assert all[j] == cs[j] && all[|cs|] == c && all[j] in all;
        StillProven(mid, c, inc);
      }
    }
    forall p | p in PairsOf(after.rows) - after.original.Keys
      ensures Reuse.AddedByInclusion(after, p)
    {
      if p in PairsOf(c.rows) {
        assert InclusionOf(c) in after.included;
      } else {
        assert p in PairsOf(mid.rows) - mid.original.Keys && Reuse.AddedByInclusion(mid, p);
        var inc :| inc in mid.included && p in inc.saved;
        assert inc in after.included;
      }
    }
  }

  /** An inclusion claim changes an offer only when it is verified and means it. */
  lemma ClaimSteps(c: IncludeClaim, offers: seq<Offer>, i: nat)
    requires Run(IncludeSteps(c), offers).Ok? && i < |offers|
    ensures |Run(IncludeSteps(c), offers).value| == |offers|
    ensures var after := Run(IncludeSteps(c), offers).value[i];
            if Covers(c, offers[i]) then after == WithInclusion(offers[i], InclusionOf(c))
            else after.(items := offers[i].items) == offers[i]
  {
    match c.stage {
      case Dispatched => TwoSteps(IncludeSteps(c)[0], IncludeSteps(c)[1], offers);
      case Verified => TwoSteps(IncludeSteps(c)[0], IncludeSteps(c)[1], offers);
      case _ =>
    }
  }

  lemma TwoSteps(a: Step, b: Step, offers: seq<Offer>)
    ensures Run([a, b], offers) == match Apply(offers, a) case Err(e) => Err(e) case Ok(mid) => Apply(mid, b)
  {
    var steps := [a, b];
    assert steps[..1] == [a] && steps[..1][..0] == [];
    assert Run([a], offers) == Apply(offers, a);
  }

  lemma {:induction false} InclusionsExtend(cs: seq<IncludeClaim>, offers: seq<Offer>, o: Offer, i: nat)
    requires Run(Each(cs, IncludeSteps), offers).Ok? && ClaimsSound(cs, o)
    requires i < |offers| && Extended([], o, offers[i])
    ensures |Run(Each(cs, IncludeSteps), offers).value| == |offers|
    ensures Extended(cs, o, Run(Each(cs, IncludeSteps), offers).value[i])
  {
    if cs != [] {
      var n := |cs| - 1;
      assert cs[..n] + [cs[n]] == cs;
      RunConcat(Each(cs[..n], IncludeSteps), IncludeSteps(cs[n]), offers);
      InclusionsExtend(cs[..n], offers, o, i);
      var mid := Run(Each(cs[..n], IncludeSteps), offers).value;
      ClaimSteps(cs[n], mid, i);
      if Covers(cs[n], mid[i]) {
        IncludeOnce(cs[..n], cs[n], o, mid[i]);
      } else {
        Unchanged(cs[..n], cs[n], o, mid[i], Run(Each(cs, IncludeSteps), offers).value[i]);
      }
    }
  }

  lemma Unchanged(cs: seq<IncludeClaim>, c: IncludeClaim, o: Offer, mid: Offer, after: Offer)
    requires Extended(cs, o, mid) && after.(items := mid.items) == mid
    ensures Extended(cs + [c], o, after)
  {
  }

  /**
   * When no SKU of an offer is added twice and every verified inclusion has its exact receipt,
   * the projected offer always passes the later check of its added rows: reconciliation never
   * stops on a partial import that was properly extended.
   */
  lemma AddedScopeAlwaysProven(t: Tables, offers: seq<Offer>, i: nat)
    requires Run(AllSteps(t), offers).Ok? && i < |offers|
    requires DistinctPairs(offers[i].rows) && offers[i].included == []
             && offers[i].original.Keys == PairsOf(offers[i].rows)
    requires ClaimsSound(t.inclusions, offers[i])
    ensures |Run(AllSteps(t), offers).value| == |offers|
    ensures Reuse.AddedScopeProven(Run(AllSteps(t), offers).value[i])
  {
    var early := StepsBeforeInclusions(t);
    RunConcat(early, Each(t.inclusions, IncludeSteps), offers);
    forall s | s in early ensures !Adds(s) {
      NothingAddedBefore(t, s);
    }
    NothingAdded(early, offers, i);
    var mid := Run(early, offers).value;
    assert Extended([], offers[i], mid[i]);
    InclusionsExtend(t.inclusions, mid, offers[i], i);
  }
}
