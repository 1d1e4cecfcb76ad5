/**
 * From the template to the signup claim: the plan that the template yields is reconciled with
 * the saved discounts, its new rows are imported, and the claim repeats the reconciliation.
 */
module Submission {
  import opened CampaignTypes
  import opened Planning
  import opened Prices
  import opened Reuse
  import Authority

  /** The plan of a template without the products that have input issues. */
  function Isolated(p: Plan, bad: set<Item>): Plan {
    p.(activity := KeptActivity(p.activity, bad), discounts := KeptDiscounts(p.discounts, bad))
  }

  ghost predicate DistinctActivity(rows: seq<Activity>) {
    forall i, j :: 0 <= i < j < |rows| ==> rows[i].pair != rows[j].pair
  }

  lemma {:induction false} KeptActivityRows(rows: seq<Activity>, bad: set<Item>)
    requires DistinctActivity(rows)
    ensures forall a :: a in KeptActivity(rows, bad) <==> a in rows && a.pair.item !in bad
    ensures DistinctActivity(KeptActivity(rows, bad))
  {
    if rows != [] {
      KeptActivityRows(rows[1..], bad);
      var rest := KeptActivity(rows[1..], bad);
      assert KeptActivity(rows, bad) == if rows[0].pair.item !in bad then [rows[0]] + rest else rest;
      forall a | a in rows[1..] ensures a.pair != rows[0].pair {
        var k :| 0 <= k < |rows[1..]| && rows[1..][k] == a;
        assert rows[k + 1] == a;
      }
      assert rows == [rows[0]] + rows[1..];
    }
  }

  lemma {:induction false} KeptDiscountRows(rows: seq<Discount>, bad: set<Item>)
    requires DistinctRows(rows)
    ensures forall d :: d in KeptDiscounts(rows, bad) <==> d in rows && d.pair.item !in bad
    ensures DistinctRows(KeptDiscounts(rows, bad))
  {
    if rows != [] {
      KeptDiscountRows(rows[1..], bad);
      var rest := KeptDiscounts(rows[1..], bad);
      assert KeptDiscounts(rows, bad) == if rows[0].pair.item !in bad then [rows[0]] + rest else rest;
      forall d | d in rows[1..] ensures d.pair != rows[0].pair {
        var k :| 0 <= k < |rows[1..]| && rows[1..][k] == d;
        assert rows[k + 1] == d;
      }
      assert rows == [rows[0]] + rows[1..];
    }
  }

  lemma IsolatedIsCoherent(p: Plan, bad: set<Item>, rate: Rate)
    requires Coherent(p, rate)
    ensures Coherent(Isolated(p, bad), rate)
  {
    KeptActivityRows(p.activity, bad);
    KeptDiscountRows(p.discounts, bad);
  }

  /** A template that planning accepts: the selected products are in it, and no SKU repeats. */
  predicate Plannable(identities: seq<Identity>, c: Context) {
    ScopePresent(c.signup, identities) && ScopePresent(c.discount, identities) && NoDuplicates(PairsOf(identities))
  }

  /** After the new rows were imported, the same reconciliation plans nothing. */
  ghost predicate SecondRoundIsEmpty(p: Plan, offers: seq<Reuse.Offer>, q: Request, id: string)
    requires Clean(p, offers, q)
  {
    var later := offers + [Registered(AddedRows(p, offers, q), id, q.window)];
    Sorted(Checks(p), p.discounts, later, q).Ok? && AddedRows(p, later, q) == []
  }

  /** With nothing saved, everything planned is imported without an issue, and there is none afterwards. */
  ghost predicate FirstRoundSuffices(p: Plan, q: Request, id: string) {
    && Clean(p, [], q) && (forall d :: d in AddedRows(p, [], q) <==> d in p.discounts)
    && var later := [Registered(AddedRows(p, [], q), id, q.window)]; Clean(p, later, q) && AddedRows(p, later, q) == []
  }

  /**
   * From template to fixpoint: the plan of an accepted template, without any set of products, is
   * reconciled with what is saved. If that raises no issue and its new rows are imported, the same
   * reconciliation reuses every planned row and plans nothing new. With nothing saved before and a
   * deduction for every ordinary SKU, it raises no issue and imports the whole plan once.
   */
  lemma TemplateReachesFixpoint(identities: seq<Identity>, c: Context, bad: set<Item>, offers: seq<Reuse.Offer>,
                                q: Request, id: string)
    requires Plannable(identities, c) && q.rate == c.rate
    requires q.window.start <= q.window.end && id !in q.released && q.excluding != Some(id)
    ensures var p := Isolated(PlanOf(identities, EnrolledItems(identities), c), bad);
            && (Clean(p, offers, q) ==> SecondRoundIsEmpty(p, offers, q, id))
            && ((forall k :: k in Checks(p) && k.OrdinaryCheck? ==> IsPlanned(p.discounts, k.pair)) ==>
                  FirstRoundSuffices(p, q, id))
  {
    hide Clean, Sorted, Checks, Coherent, KeptActivity, KeptDiscounts;
    var whole := PlanOf(identities, EnrolledItems(identities), c);
    PlansAreCoherent(identities, EnrolledItems(identities), c);
    IsolatedIsCoherent(whole, bad, c.rate);
    var p := Isolated(whole, bad);
    if Clean(p, offers, q) {
      PlanningIsFixpoint(p, offers, q, id);
    }
    if forall k :: k in Checks(p) && k.OrdinaryCheck? ==> IsPlanned(p.discounts, k.pair) {
      FirstPlanIsFixpoint(p, q, id);
    }
  }

  // ---------- the claim's own check ----------

  /** The check of a signup claim: no issue, and exactly the reuse recorded in the bundle. */
  ghost predicate ReuseProven(p: Plan, recorded: seq<(Pair, Verdict)>, offers: seq<Reuse.Offer>, q: Request) {
    Clean(p, offers, q) && Sorted(Checks(p), p.discounts, offers, q).value.reuse == recorded
  }

  /**
   * A signup claim that repeats the reconciliation after the bundle's own rows were imported, and
   * nothing else was saved, finds the reuse proven if and only if the plan's reconciliation raised
   * no issue and the bundle recorded its reuse; otherwise the claim is refused.
   */
  lemma SignupClaimAgrees(s: Authority.State, r: Authority.Request, p: Plan, recorded: seq<(Pair, Verdict)>,
                          offers: seq<Reuse.Offer>, own: Reuse.Offer, q: Request)
    requires q.excluding.None? && forall o :: o in offers ==> o.id != own.id
    requires r.phase == Authority.Phase.Signup
    requires r.reuseProven == ReuseProven(p, recorded, offers + [own], q.(excluding := Some(own.id)))
    ensures r.reuseProven <==> ReuseProven(p, recorded, offers, q)
    ensures ReuseProven(p, recorded, offers, q) ==>
              Authority.ClaimRefusal(s, r) != Some("actual_discount_reuse_invalid")
    ensures !ReuseProven(p, recorded, offers, q) ==> Authority.ClaimRefusal(s, r).Some?
  {
    SignupSeesSameReuse(Checks(p), p.discounts, offers, q, own);
  }
}
