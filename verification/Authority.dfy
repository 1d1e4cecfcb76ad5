/**
 * The per-item claim authority: a product is claimed as unknown before anything is
 * submitted, an official terminal settles it once, and claims that could replay or
 * overlap are refused.
 */
module Authority {
  import opened CampaignTypes

  type BundleId = string
  type Campaign = string
  type ClaimId = nat

  datatype Phase = Signup | Discount
  datatype Status = Unknown | Success | Failed

  /** The immutable, content-addressed submission bundle, as far as claims read it. */
  datatype Bundle = Bundle(campaign: Campaign, priceWindow: Window, signupWindow: Window,
                           signupItems: set<Item>, discountItems: set<Item>)
  {
    function WindowOf(phase: Phase): Window { if phase == Signup then signupWindow else priceWindow }

    function ItemsOf(phase: Phase): set<Item> { if phase == Signup then signupItems else discountItems }
  }

  datatype Attempt = Attempt(bundle: BundleId, campaign: Campaign, phase: Phase, window: Window, item: Item,
                             status: Status)

  /** An attempt's identity is its claim and its product. */
  type Key = (ClaimId, Item)

  /** A registered outcome of an earlier run, bound to its proof. */
  datatype Outcome = Outcome(campaign: Campaign, phase: Phase, window: Window, items: map<Item, Status>)

  /** A saved discount: the attempts of one bundle, or one registered outcome. */
  datatype Offer = OfBundle(bundle: BundleId) | OfOutcome(index: nat)

  /** A registered file: its kind and its content, which the hash stands for. */
  datatype Source = OutcomeSource(outcome: Outcome) | OtherSource(kind: string, hash: string)

  type Path = string

  /** outcomes are those of the registered outcome files, in the order of registration. */
  datatype State = State(bundles: map<BundleId, Bundle>, attempts: map<Key, Attempt>, sources: map<Path, Source>,
                         outcomes: seq<Outcome>, nextClaim: ClaimId)

  predicate Active(s: Status) { s != Failed }

  /** What one claim asks for; released are the offers with a fresh, proven absence. */
  datatype Request = Request(bundle: BundleId, phase: Phase, released: set<Offer>, reuseProven: bool)

  /** An offer is never released for its own exact window. */
  predicate Released(r: Request, offer: Offer, offered: Window, window: Window) {
    offer in r.released && offered != window
  }

  /** The attempt stands in the way of a claim for its product. */
  predicate AttemptBlocks(a: Attempt, r: Request, campaign: Campaign, window: Window) {
    && Active(a.status) && a.phase == r.phase
    && (r.phase == Signup ==> a.campaign == campaign)
    && (r.phase == Discount ==> a.window.Overlaps(window) && !Released(r, OfBundle(a.bundle), a.window, window))
  }

  predicate OutcomeBlocks(o: Outcome, index: nat, r: Request, campaign: Campaign, window: Window) {
    && o.phase == r.phase
    && (r.phase == Signup ==> o.campaign == campaign)
    && (r.phase == Discount ==> o.window.Overlaps(window) && !Released(r, OfOutcome(index), o.window, window))
  }

  function BlockedByAttempts(s: State, r: Request, campaign: Campaign, window: Window): set<Item> {
    set k | k in s.attempts && AttemptBlocks(s.attempts[k], r, campaign, window) :: s.attempts[k].item
  }

  function BlockedByOutcomes(s: State, r: Request, campaign: Campaign, window: Window): set<Item> {
    set i, item | 0 <= i < |s.outcomes| && OutcomeBlocks(s.outcomes[i], i, r, campaign, window)
                  && item in s.outcomes[i].items && Active(s.outcomes[i].items[item]) :: item
  }

  function Blocked(s: State, r: Request, campaign: Campaign, window: Window): set<Item> {
    BlockedByAttempts(s, r, campaign, window) + BlockedByOutcomes(s, r, campaign, window)
  }

  /** The products of a bundle whose discount has succeeded. */
  function DiscountsDone(s: State, bundle: BundleId): set<Item> {
    set k | k in s.attempts && s.attempts[k].bundle == bundle && s.attempts[k].phase == Discount
            && s.attempts[k].status == Success :: s.attempts[k].item
  }

  /** The uniqueness constraint over bundle, phase and product. */
  function Attempted(s: State, bundle: BundleId, phase: Phase): set<Item> {
    set k | k in s.attempts && s.attempts[k].bundle == bundle && s.attempts[k].phase == phase :: s.attempts[k].item
  }

  function NewAttempt(r: Request, b: Bundle, item: Item): Attempt {
    Attempt(r.bundle, b.campaign, r.phase, b.WindowOf(r.phase), item, Unknown)
  }

  /** The rows one claim inserts for these products. */
  function Claimed(r: Request, b: Bundle, claim: ClaimId, items: set<Item>): map<Key, Attempt> {
    map i | i in items :: (claim, i) := NewAttempt(r, b, i)
  }

  function ClaimRefusal(s: State, r: Request): Option<string> {
    if r.bundle !in s.bundles then Some("bundle_not_registered_in_authority")
    else
      var b := s.bundles[r.bundle];
      var items := b.ItemsOf(r.phase);
      if items == {} then Some("empty_phase")
      else if items * Blocked(s, r, b.campaign, b.WindowOf(r.phase)) != {} then
        Some("successful_or_unknown_scope_must_not_replay")
      else if r.phase == Signup && b.discountItems != {} && DiscountsDone(s, r.bundle) != b.discountItems then
        Some("discount_terminal_success_required")
      else if r.phase == Signup && !r.reuseProven then Some("actual_discount_reuse_invalid")
      else if items * Attempted(s, r.bundle, r.phase) != {} then Some("attempt_not_unique")
      else None
  }

  function AfterClaim(s: State, r: Request): State {
    if ClaimRefusal(s, r).Some? then s
    else
      var b := s.bundles[r.bundle];
      s.(attempts := s.attempts + Claimed(r, b, s.nextClaim, b.ItemsOf(r.phase)), nextClaim := s.nextClaim + 1)
  }

  /** An official terminal: only success or failure, only of claimed products, never a change of mind. */
  predicate TerminalFits(s: State, claim: ClaimId, entries: map<Item, Status>) {
    forall i :: i in entries ==> && entries[i] != Unknown && (claim, i) in s.attempts
                                 && (s.attempts[(claim, i)].status == Unknown
                                     || s.attempts[(claim, i)].status == entries[i])
  }

  function Settled(s: State, claim: ClaimId, entries: map<Item, Status>, k: Key): Attempt
    requires k in s.attempts
  {
    if k.0 == claim && k.1 in entries then s.attempts[k].(status := entries[k.1]) else s.attempts[k]
  }

  function AfterTerminal(s: State, claim: ClaimId, entries: map<Item, Status>): State {
    if !TerminalFits(s, claim, entries) then s
    else s.(attempts := map k | k in s.attempts :: Settled(s, claim, entries, k))
  }

  function RegisterRefusal(s: State, path: Path, source: Source): Option<string> {
    if path in s.sources && s.sources[path] != source then Some("source_is_immutable_use_new_receipt_path") else None
  }

  /** A path keeps its first kind and content; registering the same again changes nothing. */
  function AfterRegister(s: State, path: Path, source: Source): State {
    if path in s.sources then s
    else s.(sources := s.sources[path := source],
            outcomes := if source.OutcomeSource? then s.outcomes + [source.outcome] else s.outcomes)
  }

  // ---------- what stands in the way, from the saved rows alone ----------

  /**
   * An unresolved or successful attempt or outcome that stands in the way: of the same phase, and
   * for a signup of the same campaign, for a discount over a common day, unless its offer is
   * released and its window is another one.
   */
  predicate InTheWay(phase: Phase, status: Status, ownPhase: Phase, sameCampaign: bool, own: Window, other: Window,
                     released: bool)
  {
    && (status == Unknown || status == Success) && ownPhase == phase
    && match phase
       case Signup => sameCampaign
       case Discount => other.start <= own.end && own.start <= other.end && !(released && other != own)
  }

  /** The product has an attempt or a registered outcome of this status that stands in the way. */
  ghost predicate HinderedAs(s: State, r: Request, campaign: Campaign, window: Window, item: Item, status: Status) {
    || (exists k :: k in s.attempts && s.attempts[k].item == item && s.attempts[k].status == status
                    && InTheWay(r.phase, status, s.attempts[k].phase, s.attempts[k].campaign == campaign,
                                window, s.attempts[k].window, OfBundle(s.attempts[k].bundle) in r.released))
    || (exists i :: 0 <= i < |s.outcomes| && item in s.outcomes[i].items && s.outcomes[i].items[item] == status
                    && InTheWay(r.phase, status, s.outcomes[i].phase, s.outcomes[i].campaign == campaign,
                                window, s.outcomes[i].window, OfOutcome(i) in r.released))
  }

  ghost predicate Hindered(s: State, r: Request, campaign: Campaign, window: Window, item: Item) {
    HinderedAs(s, r, campaign, window, item, Unknown) || HinderedAs(s, r, campaign, window, item, Success)
  }

  lemma AttemptHinders(s: State, r: Request, campaign: Campaign, window: Window, k: Key)
    requires k in s.attempts
    ensures var a := s.attempts[k];
            && (AttemptBlocks(a, r, campaign, window) <==>
                InTheWay(r.phase, a.status, a.phase, a.campaign == campaign, window, a.window,
                         OfBundle(a.bundle) in r.released))
            && (AttemptBlocks(a, r, campaign, window) ==> HinderedAs(s, r, campaign, window, a.item, a.status))
  {
  }

  lemma OutcomeHinders(s: State, r: Request, campaign: Campaign, window: Window, i: nat, item: Item)
    requires i < |s.outcomes| && item in s.outcomes[i].items
    ensures var o := s.outcomes[i];
            && (OutcomeBlocks(o, i, r, campaign, window) && Active(o.items[item]) <==>
                InTheWay(r.phase, o.items[item], o.phase, o.campaign == campaign, window, o.window,
                         OfOutcome(i) in r.released))
            && (OutcomeBlocks(o, i, r, campaign, window) && Active(o.items[item]) ==>
                  HinderedAs(s, r, campaign, window, item, o.items[item]))
  {
  }

  lemma HinderedIsBlocked(s: State, r: Request, campaign: Campaign, window: Window, item: Item, status: Status)
    requires HinderedAs(s, r, campaign, window, item, status)
    ensures item in Blocked(s, r, campaign, window)
  {
    hide InTheWay, AttemptBlocks, OutcomeBlocks, Active;
    if k :| k in s.attempts && s.attempts[k].item == item && s.attempts[k].status == status
            && InTheWay(r.phase, status, s.attempts[k].phase, s.attempts[k].campaign == campaign,
                        window, s.attempts[k].window, OfBundle(s.attempts[k].bundle) in r.released) {
      AttemptHinders(s, r, campaign, window, k);
    } else {
      var i :| 0 <= i < |s.outcomes| && item in s.outcomes[i].items && s.outcomes[i].items[item] == status
               && InTheWay(r.phase, status, s.outcomes[i].phase, s.outcomes[i].campaign == campaign,
                           window, s.outcomes[i].window, OfOutcome(i) in r.released);
      OutcomeHinders(s, r, campaign, window, i, item);
    }
  }

  lemma BlockedExactly(s: State, r: Request, campaign: Campaign, window: Window, item: Item)
    ensures item in Blocked(s, r, campaign, window) <==> Hindered(s, r, campaign, window, item)
  {
    hide InTheWay, AttemptBlocks, OutcomeBlocks, HinderedAs;
    if item in BlockedByAttempts(s, r, campaign, window) {
      var k :| k in s.attempts && AttemptBlocks(s.attempts[k], r, campaign, window) && s.attempts[k].item == item;
      AttemptHinders(s, r, campaign, window, k);
      BlocksWhenActive(s.attempts[k], r, campaign, window);
    } else if item in BlockedByOutcomes(s, r, campaign, window) {
      var i :| 0 <= i < |s.outcomes| && OutcomeBlocks(s.outcomes[i], i, r, campaign, window)
               && item in s.outcomes[i].items && Active(s.outcomes[i].items[item]);
      OutcomeHinders(s, r, campaign, window, i, item);
    } else if HinderedAs(s, r, campaign, window, item, Unknown) {
      HinderedIsBlocked(s, r, campaign, window, item, Unknown);
    } else if HinderedAs(s, r, campaign, window, item, Success) {
      HinderedIsBlocked(s, r, campaign, window, item, Success);
    }
  }

  lemma BlocksWhenActive(a: Attempt, r: Request, campaign: Campaign, window: Window)
    requires AttemptBlocks(a, r, campaign, window)
    ensures a.status != Failed
  {
  }

  /** Exactly the discount products of the bundle have a successful discount attempt of it. */
  ghost predicate DiscountsSettled(s: State, id: BundleId, products: set<Item>) {
    forall item :: item in products <==>
      exists k :: k in s.attempts && s.attempts[k].item == item && s.attempts[k].bundle == id
                  && s.attempts[k].phase == Discount && s.attempts[k].status == Success
  }

  // ---------- when a claim is accepted ----------

  /** The claim's own phase of its bundle: its products and its window. */
  predicate Asks(b: Bundle, phase: Phase, items: set<Item>, window: Window) {
    match phase
    case Signup => items == b.signupItems && window == b.signupWindow
    case Discount => items == b.discountItems && window == b.priceWindow
  }

  ghost predicate Admissible(s: State, r: Request, b: Bundle, items: set<Item>, window: Window) {
    && r.bundle in s.bundles && s.bundles[r.bundle] == b && Asks(b, r.phase, items, window) && items != {}
    && (forall item :: item in items ==> !Hindered(s, r, b.campaign, window, item))
    && (r.phase == Signup && b.discountItems != {} ==> DiscountsSettled(s, r.bundle, b.discountItems))
    && (r.phase == Signup ==> r.reuseProven)
    && (forall k :: k in s.attempts && s.attempts[k].item in items ==>
                      s.attempts[k].bundle != r.bundle || s.attempts[k].phase != r.phase)
  }

  lemma DiscountsDoneExactly(s: State, id: BundleId, products: set<Item>)
    ensures DiscountsDone(s, id) == products <==> DiscountsSettled(s, id, products)
  {
    forall item
      ensures item in DiscountsDone(s, id) <==>
              exists k :: k in s.attempts && s.attempts[k].item == item && s.attempts[k].bundle == id
                          && s.attempts[k].phase == Discount && s.attempts[k].status == Success
    {
    }
  }

  lemma NoneBlocked(s: State, r: Request, b: Bundle, items: set<Item>, window: Window)
    ensures items * Blocked(s, r, b.campaign, window) == {}
            <==> forall item :: item in items ==> !Hindered(s, r, b.campaign, window, item)
  {
    hide Blocked, Hindered;
    forall item ensures item in Blocked(s, r, b.campaign, window) <==> Hindered(s, r, b.campaign, window, item) {
      BlockedExactly(s, r, b.campaign, window, item);
    }
    var common := items * Blocked(s, r, b.campaign, window);
    assert forall item :: item in common <==> item in items && item in Blocked(s, r, b.campaign, window);
  }

  lemma NoneAttempted(s: State, r: Request, items: set<Item>)
    ensures items * Attempted(s, r.bundle, r.phase) == {}
            <==> forall k :: k in s.attempts && s.attempts[k].item in items ==>
                               s.attempts[k].bundle != r.bundle || s.attempts[k].phase != r.phase
  {
    var common := items * Attempted(s, r.bundle, r.phase);
    assert forall item :: item in common <==> item in items && item in Attempted(s, r.bundle, r.phase);
    forall k | k in s.attempts && s.attempts[k].bundle == r.bundle && s.attempts[k].phase == r.phase
      ensures s.attempts[k].item in Attempted(s, r.bundle, r.phase)
    {
    }
  }

  /**
   * A claim is accepted if and only if its bundle is saved, its phase has products, none of them
   * is hindered, and, for a signup, the discounts of the bundle are settled and their reuse is
   * proven; and the bundle's phase was not claimed for one of them before.
   */
  lemma ClaimedExactly(s: State, r: Request)
    ensures ClaimRefusal(s, r).None? <==> exists b, items, window :: Admissible(s, r, b, items, window)
  {
    hide Blocked, Hindered, DiscountsDone, DiscountsSettled, Attempted;
    if r.bundle in s.bundles {
      var b := s.bundles[r.bundle];
      var items, window := b.ItemsOf(r.phase), b.WindowOf(r.phase);
      assert Asks(b, r.phase, items, window);
      NoneBlocked(s, r, b, items, window);
      DiscountsDoneExactly(s, r.bundle, b.discountItems);
      NoneAttempted(s, r, items);
      assert ClaimRefusal(s, r).None? <==> Admissible(s, r, b, items, window);
      forall c, i, w | Admissible(s, r, c, i, w) ensures c == b && i == items && w == window {
      }
    }
  }

  /** An accepted claim adds one unresolved attempt per product, with the bundle's own campaign and window. */
  lemma ClaimAddsExactly(s: State, r: Request, b: Bundle, items: set<Item>, window: Window, k: Key)
    requires Admissible(s, r, b, items, window) && forall j :: j in s.attempts ==> j.0 < s.nextClaim
    ensures var u := AfterClaim(s, r);
            && u == s.(attempts := u.attempts, nextClaim := s.nextClaim + 1)
            && (k in u.attempts <==> k in s.attempts || (k.0 == s.nextClaim && k.1 in items))
            && (k in s.attempts ==> u.attempts[k] == s.attempts[k])
            && (k in u.attempts && k !in s.attempts ==>
                  u.attempts[k] == Attempt(r.bundle, b.campaign, r.phase, window, k.1, Unknown))
  {
    hide ClaimRefusal, Hindered, DiscountsSettled;
    ClaimedExactly(s, r);
    assert Admissible(s, r, b, items, window);
  }

  // ---------- the class ----------

  class Authority {
    var bundles: map<BundleId, Bundle>
    var attempts: map<Key, Attempt>
    var sources: map<Path, Source>
    var outcomes: seq<Outcome>
    var nextClaim: ClaimId

    function Snapshot(): State
      reads this
    {
      State(bundles, attempts, sources, outcomes, nextClaim)
    }

    constructor ()
      ensures Snapshot() == EMPTY
    {
      bundles, attempts, sources, outcomes, nextClaim := map[], map[], map[], [], 0;
    }

    /** Content-addressed: an identity keeps its first body. */
    method SaveBundle(id: BundleId, body: Bundle)
      modifies this
      ensures Snapshot() == AfterSave(old(Snapshot()), id, body)
    {
      if id !in bundles {
        bundles := bundles[id := body];
      }
    }

    /** A new path is registered; another kind or content under a known path is refused. */
    method RegisterSource(path: Path, source: Source) returns (refused: Option<string>)
      modifies this
      ensures Snapshot() == AfterRegister(old(Snapshot()), path, source)
      ensures refused == RegisterRefusal(old(Snapshot()), path, source)
      ensures refused.None? <==> path in sources && sources[path] == source
    {
      if path in sources {
        return if sources[path] != source then Some("source_is_immutable_use_new_receipt_path") else None;
      }
      sources := sources[path := source];
      if source.OutcomeSource? {
        outcomes := outcomes + [source.outcome];
      }
      refused := None;
    }

    /** The blocked products with the status that blocks them. */
    method BlockedItems(r: Request, campaign: Campaign, window: Window) returns (result: map<Item, Status>)
      ensures result.Keys == Blocked(Snapshot(), r, campaign, window)
      ensures forall i :: i in result <==> Hindered(Snapshot(), r, campaign, window, i)
      ensures forall i :: i in result ==> HinderedAs(Snapshot(), r, campaign, window, i, result[i])
    {
      hide HinderedAs, InTheWay;
      result := map[];
      for n := 0 to |outcomes|
        invariant forall i :: i in result <==>
                    exists m :: 0 <= m < n && OutcomeBlocks(outcomes[m], m, r, campaign, window)
                                && i in outcomes[m].items && Active(outcomes[m].items[i])
        invariant forall i :: i in result ==> HinderedAs(Snapshot(), r, campaign, window, i, result[i])
      {
        if OutcomeBlocks(outcomes[n], n, r, campaign, window) {
          forall i | i in outcomes[n].items && Active(outcomes[n].items[i])
            ensures HinderedAs(Snapshot(), r, campaign, window, i, outcomes[n].items[i])
          {
            OutcomeHinders(Snapshot(), r, campaign, window, n, i);
          }
          result := result + map i | i in outcomes[n].items && Active(outcomes[n].items[i]) :: outcomes[n].items[i];
        }
      }
      assert result.Keys == BlockedByOutcomes(Snapshot(), r, campaign, window);
      var rest := attempts.Keys;
      while rest != {}
        invariant rest <= attempts.Keys
        invariant forall i :: i in result <==>
                    || i in BlockedByOutcomes(Snapshot(), r, campaign, window)
                    || exists k :: k in attempts && k !in rest && AttemptBlocks(attempts[k], r, campaign, window)
                                   && attempts[k].item == i
        invariant forall i :: i in result ==> HinderedAs(Snapshot(), r, campaign, window, i, result[i])
      {
        var k :| k in rest;
        rest := rest - {k};
        if AttemptBlocks(attempts[k], r, campaign, window) {
          AttemptHinders(Snapshot(), r, campaign, window, k);
          result := result[attempts[k].item := attempts[k].status];
        }
      }
      forall i ensures i in result <==> Hindered(Snapshot(), r, campaign, window, i) {
        BlockedExactly(Snapshot(), r, campaign, window, i);
      }
    }

    /** One transaction: every product of the phase is claimed as unknown, or nothing is. */
    method Claim(r: Request) returns (claim: Option<ClaimId>)
      modifies this
      ensures Snapshot() == AfterClaim(old(Snapshot()), r)
      ensures claim == if ClaimRefusal(old(Snapshot()), r).None? then Some(old(nextClaim)) else None
      ensures claim.Some? <==> exists b, items, window :: Admissible(old(Snapshot()), r, b, items, window)
      ensures claim.None? ==> attempts == old(attempts)
      ensures claim.Some? ==> r.bundle in bundles
      ensures claim.Some? ==> forall i :: i in bundles[r.bundle].ItemsOf(r.phase) ==>
                                (claim.value, i) in attempts && attempts[(claim.value, i)].status == Unknown
    {
      hide Blocked, Hindered, Admissible;
      ClaimedExactly(Snapshot(), r);
      if r.bundle !in bundles {
        return None;
      }
      var b := bundles[r.bundle];
      var items := b.ItemsOf(r.phase);
      if items == {} {
        return None;
      }
      var blocked := BlockedItems(r, b.campaign, b.WindowOf(r.phase));
      if items * blocked.Keys != {} {
        return None;
      }
      if r.phase == Signup && b.discountItems != {} && DiscountsDone(Snapshot(), r.bundle) != b.discountItems {
        return None;
      }
      if r.phase == Signup && !r.reuseProven {
        return None;
      }
      if items * Attempted(Snapshot(), r.bundle, r.phase) != {} {
        return None;
      }
      InsertAttempts(r, b, items);
      claim := Some(nextClaim);
      nextClaim := nextClaim + 1;
    }

    method InsertAttempts(r: Request, b: Bundle, items: set<Item>)
      modifies this`attempts
      ensures attempts == old(attempts) + Claimed(r, b, nextClaim, items)
    {
      var rest := items;
      ghost var done: set<Item> := {};
      assert attempts == attempts + Claimed(r, b, nextClaim, done);
      while rest != {}
        invariant rest <= items && done == items - rest && attempts == old(attempts) + Claimed(r, b, nextClaim, done)
      {
        var item :| item in rest;
        rest := rest - {item};
        ClaimedOne(old(attempts), r, b, nextClaim, done, item);
        attempts := attempts[(nextClaim, item) := NewAttempt(r, b, item)];
        done := done + {item};
      }
      assert done == items;
    }

    /** All entries of an official terminal are applied, or none is. */
    method Terminal(claim: ClaimId, entries: map<Item, Status>) returns (ok: bool)
      modifies this
      ensures Snapshot() == AfterTerminal(old(Snapshot()), claim, entries)
      ensures ok <==> TerminalFits(old(Snapshot()), claim, entries)
      ensures ok <==> forall i :: i in entries ==>
                        && (entries[i] == Success || entries[i] == Failed) && (claim, i) in old(attempts)
                        && (old(attempts)[(claim, i)].status == Unknown
                            || old(attempts)[(claim, i)].status == entries[i])
      ensures ok ==> forall i :: i in entries ==> (claim, i) in attempts && attempts[(claim, i)].status == entries[i]
      ensures forall k :: k in old(attempts) && (k.0 != claim || k.1 !in entries) ==>
                            k in attempts && attempts[k] == old(attempts)[k]
    {
      if exists i | i in entries :: entries[i] == Unknown || (claim, i) !in attempts {
        return false;
      }
      var updated := SettleAll(claim, entries);
      if updated.None? {
        return false;
      }
      attempts := updated.value;
      ok := true;
    }

    /** The rows after all updates of one terminal, unless one of them was settled otherwise. */
    method SettleAll(claim: ClaimId, entries: map<Item, Status>) returns (updated: Option<map<Key, Attempt>>)
      requires forall i :: i in entries ==> entries[i] != Unknown && (claim, i) in attempts
      ensures updated.Some? <==> TerminalFits(Snapshot(), claim, entries)
      ensures updated.Some? ==> updated.value.Keys == attempts.Keys
      ensures updated.Some? ==> forall k :: k in attempts ==>
                                              updated.value[k] == Settled(Snapshot(), claim, entries, k)
    {
      var rest, next := entries.Keys, attempts;
      ghost var s := Snapshot();
      while rest != {}
        invariant rest <= entries.Keys && next.Keys == attempts.Keys == s.attempts.Keys
        invariant forall k :: k in attempts ==>
                    next[k] == if k.1 in rest then s.attempts[k] else Settled(s, claim, entries, k)
        invariant forall i :: i in entries && i !in rest ==>
                    attempts[(claim, i)].status == Unknown || attempts[(claim, i)].status == entries[i]
      {
        var item :| item in rest;
        rest := rest - {item};
        var before := next[(claim, item)].status;
        if before != Unknown && before != entries[item] {
          return None;
        }
        next := next[(claim, item) := next[(claim, item)].(status := entries[item])];
      }
      updated := Some(next);
    }
  }

  lemma ClaimedOne(before: map<Key, Attempt>, r: Request, b: Bundle, claim: ClaimId, done: set<Item>, item: Item)
    ensures before + Claimed(r, b, claim, done + {item})
            == (before + Claimed(r, b, claim, done))[(claim, item) := NewAttempt(r, b, item)]
  {
  }

  const EMPTY := State(map[], map[], map[], [], 0)

  function AfterSave(s: State, id: BundleId, body: Bundle): State {
    if id in s.bundles then s else s.(bundles := s.bundles[id := body])
  }

  // ---------- every reachable state ----------

  datatype Move =
    | DoSave(id: BundleId, body: Bundle)
    | DoRegister(path: Path, source: Source)
    | DoClaim(request: Request)
    | DoTerminal(claim: ClaimId, entries: map<Item, Status>)

  function Next(s: State, m: Move): State {
    match m
    case DoSave(id, body) => AfterSave(s, id, body)
    case DoRegister(path, source) => AfterRegister(s, path, source)
    case DoClaim(r) => AfterClaim(s, r)
    case DoTerminal(claim, entries) => AfterTerminal(s, claim, entries)
  }

  function Run(moves: seq<Move>): State {
    if moves == [] then EMPTY else Next(Run(moves[..|moves| - 1]), moves[|moves| - 1])
  }

  /** Attempts are what their bundle's claim made them, apart from the status. */
  ghost predicate WellFormed(s: State) {
    forall k :: k in s.attempts ==>
      && k.0 < s.nextClaim && s.attempts[k].item == k.1 && s.attempts[k].bundle in s.bundles
      && s.attempts[k].campaign == s.bundles[s.attempts[k].bundle].campaign
      && s.attempts[k].window == s.bundles[s.attempts[k].bundle].WindowOf(s.attempts[k].phase)
      && k.1 in s.bundles[s.attempts[k].bundle].ItemsOf(s.attempts[k].phase)
  }

  /** No two unresolved or successful signup attempts of one product in one campaign. */
  ghost predicate SignupsUnique(s: State) {
    forall j, k :: j in s.attempts && k in s.attempts && j != k && s.attempts[j].item == s.attempts[k].item
                   && s.attempts[j].phase == s.attempts[k].phase == Signup
                   && s.attempts[j].campaign == s.attempts[k].campaign ==>
                     !(Active(s.attempts[j].status) && Active(s.attempts[k].status))
  }

  /** Every signup attempt's bundle has success recorded for all its discount products. */
  ghost predicate SignupsGated(s: State) {
    forall k :: k in s.attempts && s.attempts[k].phase == Signup && s.attempts[k].bundle in s.bundles ==>
      s.bundles[s.attempts[k].bundle].discountItems <= DiscountsDone(s, s.attempts[k].bundle)
  }

  /** This move is the accepted claim that created the later attempt, and it released the older offer. */
  predicate ReleasesAt(moves: seq<Move>, i: nat, older: Attempt, k: Key, later: Attempt)
    requires i < |moves|
  {
    && moves[i].DoClaim? && moves[i].request.phase == Discount && moves[i].request.bundle == later.bundle
    && ClaimRefusal(Run(moves[..i]), moves[i].request).None? && Run(moves[..i]).nextClaim == k.0
    && Released(moves[i].request, OfBundle(older.bundle), older.window, later.window)
  }

  ghost predicate ReleasedInHistory(moves: seq<Move>, older: Attempt, k: Key, later: Attempt) {
    exists i :: 0 <= i < |moves| && ReleasesAt(moves, i, older, k, later)
  }

  /** Overlapping active discounts of one product exist only where one's own claim released the other. */
  ghost predicate DiscountsDisjoint(s: State, moves: seq<Move>) {
    forall j, k :: j in s.attempts && k in s.attempts && j != k && s.attempts[j].item == s.attempts[k].item
                   && s.attempts[j].phase == s.attempts[k].phase == Discount
                   && Active(s.attempts[j].status) && Active(s.attempts[k].status)
                   && s.attempts[j].window.Overlaps(s.attempts[k].window) ==>
                     || ReleasedInHistory(moves, s.attempts[j], k, s.attempts[k])
                     || ReleasedInHistory(moves, s.attempts[k], j, s.attempts[j])
  }

  ghost predicate Inv(s: State, moves: seq<Move>) {
    WellFormed(s) && SignupsUnique(s) && SignupsGated(s) && DiscountsDisjoint(s, moves)
  }

  lemma ReleaseIsKept(moves: seq<Move>, m: Move, older: Attempt, k: Key, later: Attempt)
    requires ReleasedInHistory(moves, older, k, later)
    ensures ReleasedInHistory(moves + [m], older, k, later)
  {
    var i :| 0 <= i < |moves| && ReleasesAt(moves, i, older, k, later);
    assert (moves + [m])[..i] == moves[..i] && ReleasesAt(moves + [m], i, older, k, later);
  }

  /** What an accepted claim leaves alone and what it adds. */
  lemma ClaimShape(s: State, r: Request, k: Key)
    requires WellFormed(s) && ClaimRefusal(s, r).None?
    ensures k in s.attempts ==> k in AfterClaim(s, r).attempts && AfterClaim(s, r).attempts[k] == s.attempts[k]
    ensures k !in s.attempts ==>
              (k in AfterClaim(s, r).attempts <==> k.0 == s.nextClaim && k.1 in s.bundles[r.bundle].ItemsOf(r.phase))
    ensures k !in s.attempts && k in AfterClaim(s, r).attempts ==>
              AfterClaim(s, r).attempts[k] == NewAttempt(r, s.bundles[r.bundle], k.1)
    ensures AfterClaim(s, r).bundles == s.bundles
  {
  }

  /**
   * A claim never covers a product with an unresolved or successful signup in the same
   * campaign, nor one with such a discount over an overlapping window, unless that offer is
   * released for another exact window; and never the same bundle, phase and product twice.
   */
  lemma ClaimNeverReplays(s: State, r: Request, k: Key)
    requires ClaimRefusal(s, r).None? && k in s.attempts
    requires s.attempts[k].item in s.bundles[r.bundle].ItemsOf(r.phase) && s.attempts[k].phase == r.phase
    ensures s.attempts[k].bundle != r.bundle
    ensures Active(s.attempts[k].status) && r.phase == Signup ==> s.attempts[k].campaign != s.bundles[r.bundle].campaign
    ensures Active(s.attempts[k].status) && r.phase == Discount ==>
              var window := s.bundles[r.bundle].priceWindow;
              s.attempts[k].window.Overlaps(window) ==>
                Released(r, OfBundle(s.attempts[k].bundle), s.attempts[k].window, window)
  {
    var b := s.bundles[r.bundle];
    var item := s.attempts[k].item;
    assert item !in Blocked(s, r, b.campaign, b.WindowOf(r.phase)) by {
      assert item in b.ItemsOf(r.phase) * Blocked(s, r, b.campaign, b.WindowOf(r.phase))
             <==> item in Blocked(s, r, b.campaign, b.WindowOf(r.phase));
    }
    assert item !in Attempted(s, r.bundle, r.phase) by {
      assert item in b.ItemsOf(r.phase) * Attempted(s, r.bundle, r.phase) <==> item in Attempted(s, r.bundle, r.phase);
    }
    assert AttemptBlocks(s.attempts[k], r, b.campaign, b.WindowOf(r.phase)) ==>
             item in BlockedByAttempts(s, r, b.campaign, b.WindowOf(r.phase));
  }

  /** Outcomes registered from earlier runs protect their products in the same way. */
  lemma ClaimRespectsOutcomes(s: State, r: Request, i: nat, item: Item)
    requires ClaimRefusal(s, r).None? && i < |s.outcomes| && s.outcomes[i].phase == r.phase
    requires item in s.outcomes[i].items && Active(s.outcomes[i].items[item])
    requires item in s.bundles[r.bundle].ItemsOf(r.phase)
    ensures r.phase == Signup ==> s.outcomes[i].campaign != s.bundles[r.bundle].campaign
    ensures r.phase == Discount ==>
              var window := s.bundles[r.bundle].priceWindow;
              s.outcomes[i].window.Overlaps(window) ==> Released(r, OfOutcome(i), s.outcomes[i].window, window)
  {
    var b := s.bundles[r.bundle];
    assert item in b.ItemsOf(r.phase) * Blocked(s, r, b.campaign, b.WindowOf(r.phase))
           <==> item in Blocked(s, r, b.campaign, b.WindowOf(r.phase));
  }

  lemma ClaimKeepsUnique(s: State, moves: seq<Move>, r: Request)
    requires Inv(s, moves) && ClaimRefusal(s, r).None? && s == Run(moves)
    ensures SignupsUnique(AfterClaim(s, r)) && DiscountsDisjoint(AfterClaim(s, r), moves + [DoClaim(r)])
    ensures WellFormed(AfterClaim(s, r))
  {
    var u := AfterClaim(s, r);
    forall k ensures k in u.attempts ==> u.attempts[k] == if k in s.attempts then s.attempts[k]
                                                        else NewAttempt(r, s.bundles[r.bundle], k.1)
             ensures k in s.attempts ==> k in u.attempts
             ensures k in u.attempts && k !in s.attempts ==>
                       k.0 == s.nextClaim && k.1 in s.bundles[r.bundle].ItemsOf(r.phase)
    {
      ClaimShape(s, r, k);
    }
    forall j, k | j in u.attempts && k in u.attempts && j != k && u.attempts[j].item == u.attempts[k].item
                  && u.attempts[j].phase == u.attempts[k].phase
                  && Active(u.attempts[j].status) && Active(u.attempts[k].status)
      ensures u.attempts[j].phase == Signup ==> u.attempts[j].campaign != u.attempts[k].campaign
      ensures u.attempts[j].phase == Discount && u.attempts[j].window.Overlaps(u.attempts[k].window) ==>
                || ReleasedInHistory(moves + [DoClaim(r)], u.attempts[j], k, u.attempts[k])
                || ReleasedInHistory(moves + [DoClaim(r)], u.attempts[k], j, u.attempts[j])
    {
      PairAfterClaim(s, moves, r, j, k);
    }
  }

  /** Two active attempts for one product: both old, or the claim has checked the older one. */
  lemma PairAfterClaim(s: State, moves: seq<Move>, r: Request, j: Key, k: Key)
    requires Inv(s, moves) && ClaimRefusal(s, r).None? && s == Run(moves)
    requires var u := AfterClaim(s, r);
             && j in u.attempts && k in u.attempts && j != k && u.attempts[j].item == u.attempts[k].item
             && u.attempts[j].phase == u.attempts[k].phase
             && Active(u.attempts[j].status) && Active(u.attempts[k].status)
    ensures var u := AfterClaim(s, r);
            && (u.attempts[j].phase == Signup ==> u.attempts[j].campaign != u.attempts[k].campaign)
            && (u.attempts[j].phase == Discount && u.attempts[j].window.Overlaps(u.attempts[k].window) ==>
                  || ReleasedInHistory(moves + [DoClaim(r)], u.attempts[j], k, u.attempts[k])
                  || ReleasedInHistory(moves + [DoClaim(r)], u.attempts[k], j, u.attempts[j]))
  {
    ClaimShape(s, r, j);
    ClaimShape(s, r, k);
    if j in s.attempts && k in s.attempts {
      if s.attempts[j].phase == Discount && s.attempts[j].window.Overlaps(s.attempts[k].window) {
        if ReleasedInHistory(moves, s.attempts[j], k, s.attempts[k]) {
          ReleaseIsKept(moves, DoClaim(r), s.attempts[j], k, s.attempts[k]);
        } else {
          ReleaseIsKept(moves, DoClaim(r), s.attempts[k], j, s.attempts[j]);
        }
      }
    } else if j in s.attempts {
      OldAgainstNew(s, moves, r, j, k.1);
    } else if k in s.attempts {
      OldAgainstNew(s, moves, r, k, j.1);
    }
  }

  lemma OldAgainstNew(s: State, moves: seq<Move>, r: Request, j: Key, item: Item)
    requires ClaimRefusal(s, r).None? && j in s.attempts && Active(s.attempts[j].status) && s == Run(moves)
    requires s.attempts[j].item == item && item in s.bundles[r.bundle].ItemsOf(r.phase)
             && s.attempts[j].phase == r.phase
    ensures var later := NewAttempt(r, s.bundles[r.bundle], item);
            && (r.phase == Signup ==> s.attempts[j].campaign != later.campaign)
            && (r.phase == Discount && s.attempts[j].window.Overlaps(later.window) ==>
                  ReleasedInHistory(moves + [DoClaim(r)], s.attempts[j], (s.nextClaim, item), later))
  {
    ClaimNeverReplays(s, r, j);
    var history, later := moves + [DoClaim(r)], NewAttempt(r, s.bundles[r.bundle], item);
    assert history[..|moves|] == moves && history[|moves|] == DoClaim(r);
    assert r.phase == Discount && s.attempts[j].window.Overlaps(later.window) ==>
        ReleasesAt(history, |moves|, s.attempts[j], (s.nextClaim, item), later);
  }

  lemma ClaimKeepsGate(s: State, r: Request)
    requires WellFormed(s) && SignupsGated(s) && ClaimRefusal(s, r).None?
    ensures SignupsGated(AfterClaim(s, r))
  {
  }

  /** A terminal only resolves unknown attempts; everything else about them stays. */
  lemma TerminalShape(s: State, claim: ClaimId, entries: map<Item, Status>, k: Key)
    requires k in s.attempts
    ensures var u := AfterTerminal(s, claim, entries);
            && k in u.attempts && u.attempts[k] == s.attempts[k].(status := u.attempts[k].status)
            && (s.attempts[k].status != Unknown ==> u.attempts[k].status == s.attempts[k].status)
            && u.attempts.Keys == s.attempts.Keys && u.bundles == s.bundles
  {
  }

  /** Same attempts and bundles, except that unknown attempts may have been resolved. */
  ghost predicate OnlyResolves(s: State, u: State) {
    && u.attempts.Keys == s.attempts.Keys && s.nextClaim <= u.nextClaim
    && (forall id :: id in s.bundles ==> id in u.bundles && u.bundles[id] == s.bundles[id])
    && (forall k :: k in s.attempts ==> u.attempts[k] == s.attempts[k].(status := u.attempts[k].status)
                                        && (s.attempts[k].status != Unknown ==> u.attempts[k] == s.attempts[k]))
  }

  lemma ResolvingKeepsSignups(s: State, u: State)
    requires OnlyResolves(s, u) && WellFormed(s) && SignupsUnique(s) && SignupsGated(s)
    ensures WellFormed(u) && SignupsUnique(u) && SignupsGated(u)
  {
  }

  lemma ResolvingKeepsDiscounts(s: State, u: State, moves: seq<Move>, m: Move)
    requires OnlyResolves(s, u) && DiscountsDisjoint(s, moves)
    ensures DiscountsDisjoint(u, moves + [m])
  {
    hide ReleasedInHistory;
    forall older: Attempt, k: Key, later: Attempt, a: Attempt, b: Attempt
      | ReleasedInHistory(moves, older, k, later) && a == older.(status := a.status) && b == later.(status := b.status)
      ensures ReleasedInHistory(moves + [m], a, k, b)
    {
      ReleaseIsKept(moves, m, older, k, later);
      StatusDoesNotRelease(moves + [m], older, k, later, a, b);
    }
  }

  lemma StatusDoesNotRelease(moves: seq<Move>, older: Attempt, k: Key, later: Attempt, a: Attempt, b: Attempt)
    requires ReleasedInHistory(moves, older, k, later) && a == older.(status := a.status)
             && b == later.(status := b.status)
    ensures ReleasedInHistory(moves, a, k, b)
  {
    var i :| 0 <= i < |moves| && ReleasesAt(moves, i, older, k, later);
    assert ReleasesAt(moves, i, a, k, b);
  }

  /** Terminals, saved bundles, registered files and refused claims add no attempt. */
  lemma QuietMoveResolves(s: State, m: Move)
    requires m.DoClaim? ==> ClaimRefusal(s, m.request).Some?
    ensures OnlyResolves(s, Next(s, m))
  {
    if m.DoTerminal? {
      forall k | k in s.attempts
        ensures Next(s, m).attempts[k] == s.attempts[k].(status := Next(s, m).attempts[k].status)
        ensures s.attempts[k].status != Unknown ==> Next(s, m).attempts[k] == s.attempts[k]
      {
        TerminalShape(s, m.claim, m.entries, k);
      }
    }
  }

  lemma QuietMoveKeepsInv(s: State, moves: seq<Move>, m: Move)
    requires Inv(s, moves) && (m.DoClaim? ==> ClaimRefusal(s, m.request).Some?)
    ensures Inv(Next(s, m), moves + [m])
  {
    hide Next, OnlyResolves, WellFormed, SignupsUnique, SignupsGated, DiscountsDisjoint;
    QuietMoveResolves(s, m);
    ResolvingKeepsSignups(s, Next(s, m));
    ResolvingKeepsDiscounts(s, Next(s, m), moves, m);
  }

  /**
   * In every reachable state: one product has at most one unresolved or successful signup
   * per campaign; overlapping active discounts of one product exist only where the accepted claim
   * that created one of them released the other's offer for another window; and every signup attempt has success
   * recorded for all discount products of its bundle.
   */
  lemma {:induction false} ReachableStatesAreSafe(moves: seq<Move>)
    ensures Inv(Run(moves), moves)
  {
    if moves != [] {
      var n := |moves| - 1;
      var rest, m, s := moves[..n], moves[n], Run(moves[..n]);
      ReachableStatesAreSafe(rest);
      assert moves == rest + [m];
      if m.DoClaim? && ClaimRefusal(s, m.request).None? {
        ClaimKeepsUnique(s, rest, m.request);
        ClaimKeepsGate(s, m.request);
      } else {
        QuietMoveKeepsInv(s, rest, m);
      }
    }
  }

  /** A resolved attempt stays exactly as it is in every later state. */
  lemma {:induction false} ResolvedIsAbsorbing(moves: seq<Move>, earlier: nat, k: Key)
    requires earlier <= |moves| && k in Run(moves[..earlier]).attempts
    ensures k in Run(moves).attempts
    ensures Run(moves[..earlier]).attempts[k].status != Unknown ==>
              Run(moves).attempts[k] == Run(moves[..earlier]).attempts[k]
    decreases |moves|
  {
    if earlier == |moves| {
      assert moves[..earlier] == moves;
    } else {
      var n := |moves| - 1;
      var s, m := Run(moves[..n]), moves[n];
      assert moves[..n][..earlier] == moves[..earlier];
      ResolvedIsAbsorbing(moves[..n], earlier, k);
      if m.DoTerminal? {
        TerminalShape(s, m.claim, m.entries, k);
      } else if m.DoClaim? && ClaimRefusal(s, m.request).None? {
        ReachableStatesAreSafe(moves[..n]);
        ClaimShape(s, m.request, k);
      }
    }
  }

  // ---------- registered files ----------

  function OutcomePaths(s: State): set<Path> {
    set p | p in s.sources && s.sources[p].OutcomeSource?
  }

  /** The outcomes are those of registered files, each file counting once. */
  ghost predicate OutcomesRegistered(s: State) {
    && (forall o :: o in s.outcomes <==> exists p :: p in s.sources && s.sources[p] == OutcomeSource(o))
    && |s.outcomes| == |OutcomePaths(s)|
  }

  lemma NewPath(s: State, path: Path, source: Source)
    requires path !in s.sources
    ensures OutcomePaths(AfterRegister(s, path, source))
            == if source.OutcomeSource? then OutcomePaths(s) + {path} else OutcomePaths(s)
  {
  }

  lemma NewOutcome(s: State, path: Path, source: Source, o: Outcome)
    requires path !in s.sources
    ensures var u := AfterRegister(s, path, source);
            (exists p :: p in u.sources && u.sources[p] == OutcomeSource(o))
            <==> (exists p :: p in s.sources && s.sources[p] == OutcomeSource(o)) || source == OutcomeSource(o)
  {
    var u := AfterRegister(s, path, source);
    if p :| p in s.sources && s.sources[p] == OutcomeSource(o) {
      assert u.sources[p] == OutcomeSource(o);
    } else if source == OutcomeSource(o) {
      assert u.sources[path] == OutcomeSource(o);
    }
  }

  lemma RegisterKeepsOutcomes(s: State, path: Path, source: Source)
    requires OutcomesRegistered(s)
    ensures OutcomesRegistered(AfterRegister(s, path, source))
  {
    var u := AfterRegister(s, path, source);
    if path !in s.sources {
      NewPath(s, path, source);
      assert |OutcomePaths(u)| == |u.outcomes| by {
        assert source.OutcomeSource? ==> path !in OutcomePaths(s);
      }
      hide OutcomePaths;
      forall o ensures o in u.outcomes <==> exists p :: p in u.sources && u.sources[p] == OutcomeSource(o) {
        NewOutcome(s, path, source, o);
      }
    }
  }

  /** Only a registration touches the files and the outcomes. */
  lemma OthersKeepSources(s: State, m: Move)
    requires !m.DoRegister?
    ensures Next(s, m).sources == s.sources && Next(s, m).outcomes == s.outcomes
  {
  }

  lemma SameOutcomes(s: State, u: State)
    requires OutcomesRegistered(s) && u.sources == s.sources && u.outcomes == s.outcomes
    ensures OutcomesRegistered(u)
  {
  }

  lemma NextKeepsSources(s: State, m: Move, path: Path)
    requires OutcomesRegistered(s)
    ensures var u := Next(s, m);
            && (path in s.sources ==> path in u.sources && u.sources[path] == s.sources[path])
            && s.outcomes <= u.outcomes && OutcomesRegistered(u)
  {
    hide OutcomesRegistered;
    if m.DoRegister? {
      RegisterKeepsOutcomes(s, m.path, m.source);
    } else {
      OthersKeepSources(s, m);
      SameOutcomes(s, Next(s, m));
      hide Next;
    }
  }

  /**
   * A registered file is never replaced, dropped or counted twice, and no outcome that protects
   * products ever disappears.
   */
  lemma {:induction false} RegisteredStays(moves: seq<Move>, earlier: nat, path: Path)
    requires earlier <= |moves|
    ensures var s, u := Run(moves[..earlier]), Run(moves);
            && (path in s.sources ==> path in u.sources && u.sources[path] == s.sources[path])
            && s.outcomes <= u.outcomes && OutcomesRegistered(u)
    decreases |moves|
  {
    if moves == [] {
      assert OutcomesRegistered(EMPTY);
    } else {
      hide OutcomesRegistered, Next;
      var n := |moves| - 1;
      RegisteredStays(moves[..n], if earlier > n then n else earlier, path);
      NextKeepsSources(Run(moves[..n]), moves[n], path);
      if earlier <= n {
        assert moves[..n][..earlier] == moves[..earlier];
      } else {
        assert moves[..earlier] == moves;
      }
    }
  }
}
