/** Runs from empty tables that end where the cart does less than one might expect. */
module CartWitnesses {
  import opened Prelude
  import opened CartModel
  import opened CartLines
  import opened CartRuns
  import opened CartMerge
  import opened CartCoherence
  import opened CartEdits

  const GUEST := SessionKey("g")
  const BUYER := UserKey("u")
  const AT_100 := Product(100, 10, None, true)
  const AT_200 := Product(200, 10, None, true)
  const OFF_SALE := Product(100, 10, None, false)

  lemma OneStep(a: Step)
    ensures RunAll(EMPTY, [a]) == Run(EMPTY, a)
  {
    assert [a][..0] == [];
  }

  lemma RunOn(steps: seq<Step>, s: Step)
    ensures RunAll(EMPTY, steps + [s]) == Run(RunAll(EMPTY, steps), s)
  {
    assert (steps + [s])[..|steps|] == steps;
  }

  lemma RunTo(steps: seq<Step>, s: Step, shop: Shop, next: Shop)
    requires RunAll(EMPTY, steps) == shop && Run(shop, s) == next
    ensures RunAll(EMPTY, steps + [s]) == next
  {
    RunOn(steps, s);
  }

  function Fresh(owner: Owner): Response
  {
    Response(0, NewCart(owner, 0), [])
  }

  // ---------------------------------------------------------------- expiry and what follows

  /** A catalogue of one product, and a cart fetched at time 0 and again later, so cached since then. */
  function Fetches(owner: Owner, later: int): seq<Step>
  {
    [SetProduct("p", AT_100, 0), Get(owner, 0), Get(owner, later)]
  }

  function Fetched(owner: Owner, at: int): Shop
  {
    Shop([NewCart(owner, 0)], [], 0, map["p" := AT_100], map[CacheKey(owner) := Cached(Fresh(owner), at + CACHE_TTL)])
  }

  const CATALOGUE := Shop([], [], 0, map["p" := AT_100], map[])

  lemma OpensFirst(owner: Owner)
    ensures Opened(CATALOGUE, owner, 0) == View(Fetched(owner, 0), Fresh(owner))
  {
    assert Ensured(CATALOGUE, owner, 0).carts == [NewCart(owner, 0)];
  }

  lemma FetchReaches(owner: Owner)
    ensures RunAll(EMPTY, [SetProduct("p", AT_100, 0)]) == CATALOGUE
    ensures RunAll(EMPTY, [SetProduct("p", AT_100, 0), Get(owner, 0)]) == Fetched(owner, 0)
  {
    OneStep(SetProduct("p", AT_100, 0));
    assert Run(EMPTY, SetProduct("p", AT_100, 0)) == CATALOGUE;
    RunOn([SetProduct("p", AT_100, 0)], Get(owner, 0));
    assert [SetProduct("p", AT_100, 0)] + [Get(owner, 0)] == [SetProduct("p", AT_100, 0), Get(owner, 0)];
    OpensFirst(owner);
  }

  lemma OpensAgain(owner: Owner, later: int)
    requires later >= CACHE_TTL
    ensures Opened(Fetched(owner, 0), owner, later).shop == Fetched(owner, later)
  {
  }

  lemma FetchesReach(owner: Owner, later: int)
    requires later >= CACHE_TTL
    ensures RunAll(EMPTY, Fetches(owner, later)) == Fetched(owner, later)
  {
    var two := [SetProduct("p", AT_100, 0), Get(owner, 0)];
    FetchReaches(owner);
    RunOn(two, Get(owner, later));
    assert two + [Get(owner, later)] == Fetches(owner, later);
    OpensAgain(owner, later);
  }

  /** The cart's row has expired, its entry has not. */
  function Lapsed(owner: Owner, at: int): Shop
  {
    Fetched(owner, at).(carts := [NewCart(owner, 0).(status := EXPIRED, expiresAt := Some(at))])
  }

  lemma ExpiryReaches(owner: Owner, at: int)
    requires at > 30 * DAY
    ensures RunAll(EMPTY, Fetches(owner, at) + [Expire(at)]) == Lapsed(owner, at)
  {
    FetchesReach(owner, at);
    RunOn(Fetches(owner, at), Expire(at));
    assert Run(Fetched(owner, at), Expire(at)).carts == Lapsed(owner, at).carts;
  }

  lemma ExpiryHitsCached(owner: Owner, at: int)
    requires at > 30 * DAY
    ensures !SafeFor(Fetched(owner, at), Expire(at), owner)
  {
    assert Holds(Fetched(owner, at), owner, 0, at) && Idle(Fetched(owner, at).carts[0], at);
  }

  lemma LapsedAccepts(owner: Owner, at: int)
    ensures CachedCart(Lapsed(owner, at).cache, owner, at) == Some(Fresh(owner))
    ensures FindActive(Lapsed(owner, at).carts, owner).None?
    ensures !Added(Lapsed(owner, at), owner, "p", 1, at).reply.Refused?
  {
    AddedLines(Lapsed(owner, at), owner, "p", 1, at);
  }

  /** Expiry can hit a cached cart; an item added then goes to the expired cart and is not in the answer. */
  lemma ExpiryLosesAnItem(at: int)
    requires at > 30 * DAY
    ensures !SafeFor(RunAll(EMPTY, Fetches(GUEST, at)), Expire(at), GUEST)
    ensures var shop := RunAll(EMPTY, Fetches(GUEST, at) + [Expire(at)]);
            var o := Added(shop, GUEST, "p", 1, at);
            && shop == Lapsed(GUEST, at) && shop.carts[0].status == EXPIRED
            && o.reply.Shown? && o.reply.cart.items == [] && Held(o.shop.lines, 0, "p").Some?
  {
    FetchesReach(GUEST, at);
    ExpiryHitsCached(GUEST, at);
    ExpiryReaches(GUEST, at);
    RunKeeps(EMPTY, Fetches(GUEST, at) + [Expire(at)]);
    LapsedAccepts(GUEST, at);
    AddBehindExpiry(Lapsed(GUEST, at), GUEST, "p", 1, at);
  }

  /** A second merge, with no guest cart in sight, can open a new cart for the user. */
  lemma SecondMergeCanAddARow(at: int)
    requires at > 30 * DAY
    ensures var once := RunAll(EMPTY, Fetches(BUYER, at) + [Expire(at)] + [MergeGuest("u", "g", at)]);
            var twice := Run(once, MergeGuest("u", "g", at + CACHE_TTL));
            |twice.carts| == |once.carts| + 1
  {
    ExpiryReaches(BUYER, at);
    RunOn(Fetches(BUYER, at) + [Expire(at)], MergeGuest("u", "g", at));
    var shop := Lapsed(BUYER, at);
    NothingToMerge(shop, "u", "g", at);
    assert CachedCart(shop.cache, BUYER, at) == Some(Fresh(BUYER));
    assert Opened(shop, BUYER, at).shop == shop;
    NothingToMerge(shop, "u", "g", at + CACHE_TTL);
  }

  // ---------------------------------------------------------------- clearing

  lemma ClearedKeepsShipping(owner: Owner)
    ensures var shop := Totalled(Fetched(owner, 0), 0, Some(Delivery("Cebu", 100)), 0);
            Cleared(shop, 0, 0).shop.carts == [NewCart(owner, 0).(shipping := 100)]
  {
  }

  /** A cart priced for delivery and then cleared is left with its shipping and no total. */
  lemma ClearCanLeaveShipping()
    ensures var steps := [SetProduct("p", AT_100, 0), Get(GUEST, 0)]
                         + [Recalculate(0, Some(Delivery("Cebu", 100)), 0)] + [Clear(0, 0)];
            var shop := RunAll(EMPTY, steps);
            |shop.carts| == 1 && shop.carts[0].shipping == 100 && shop.carts[0].total == 0 && !AddsUp(shop.carts[0])
  {
    var two := [SetProduct("p", AT_100, 0), Get(GUEST, 0)];
    FetchReaches(GUEST);
    RunOn(two, Recalculate(0, Some(Delivery("Cebu", 100)), 0));
    RunOn(two + [Recalculate(0, Some(Delivery("Cebu", 100)), 0)], Clear(0, 0));
    ClearedKeepsShipping(GUEST);
  }

  // ---------------------------------------------------------------- steps behind the cache's back

  function NewLineOf(quantity: int): Line
  {
    NewLine(0, 0, "p", quantity, 100)
  }

  function CartOfOne(owner: Owner): Cart
  {
    NewCart(owner, 0).(subtotal := 100, tax := 12, total := 112)
  }

  /** One product, and one of it in the owner's cart. */
  function OneAdded(owner: Owner): Shop
  {
    Shop([CartOfOne(owner)], [NewLineOf(1)], 1, map["p" := AT_100],
         map[CacheKey(owner) := Cached(Response(0, CartOfOne(owner), [NewLineOf(1)]), CACHE_TTL)])
  }

  function AddsOne(owner: Owner): seq<Step>
  {
    [SetProduct("p", AT_100, 0)] + [Add(owner, "p", 1, 0)]
  }

  lemma WritesOne(owner: Owner)
    ensures LinesAdded(Fetched(owner, 0), 0, "p", 1) == Fetched(owner, 0).(lines := [NewLineOf(1)], nextLine := 1)
    ensures Invalidated(Totalled(LinesAdded(Fetched(owner, 0), 0, "p", 1), 0, None, 0), owner)
         == OneAdded(owner).(cache := map[])
  {
    OwnLine();
    var added := LinesAdded(Fetched(owner, 0), 0, "p", 1);
    assert added.lines == [NewLineOf(1)];
    assert Totalled(added, 0, None, 0).carts == [CartOfOne(owner)];
  }

  lemma OwnLine()
    ensures LinesOf([NewLineOf(1)], 0) == [NewLineOf(1)] && SumTotals([NewLineOf(1)]) == 100
  {
  }

  lemma ReopensOne(owner: Owner)
    ensures Opened(OneAdded(owner).(cache := map[]), owner, 0).shop == OneAdded(owner)
  {
    OwnLine();
  }

  /** What an add that is not refused comes to. */
  lemma AddUnfolded(shop: Shop, owner: Owner, start: View)
    requires start == Opened(shop, owner, 0)
    requires AddRefusal(start.shop.products, "p", HeldQuantity(start.shop.lines, start.cart.id, "p"), 1).None?
    ensures var totalled := Totalled(LinesAdded(start.shop, start.cart.id, "p", 1), start.cart.id, None, 0);
            Added(shop, owner, "p", 1, 0).shop == Opened(Invalidated(totalled, owner), owner, 0).shop
  {
  }

  lemma OneIsAllowed(owner: Owner)
    ensures AddRefusal(Fetched(owner, 0).products, "p", HeldQuantity(Fetched(owner, 0).lines, 0, "p"), 1).None?
  {
  }

  lemma AddedOne(owner: Owner)
    ensures Run(CATALOGUE, Add(owner, "p", 1, 0)) == OneAdded(owner)
  {
    OpensFirst(owner);
    OneIsAllowed(owner);
    AddUnfolded(CATALOGUE, owner, View(Fetched(owner, 0), Fresh(owner)));
    WritesOne(owner);
    ReopensOne(owner);
  }

  lemma AddsOneReaches(owner: Owner)
    ensures RunAll(EMPTY, AddsOne(owner)) == OneAdded(owner)
  {
    FetchReaches(owner);
    AddedOne(owner);
    RunTo([SetProduct("p", AT_100, 0)], Add(owner, "p", 1, 0), CATALOGUE, OneAdded(owner));
  }

  /** A step that is not safe leaves a stale entry behind a run that had none. */
  lemma UnsafeGoesStale(steps: seq<Step>, s: Step, owner: Owner, now: int)
    requires CoherentFor(RunAll(EMPTY, steps), owner, now) && now <= s.at && !s.Add?
    requires !SafeFor(RunAll(EMPTY, steps), s, owner)
    ensures !CoherentFor(RunAll(EMPTY, steps + [s]), owner, s.at)
  {
    RunKeeps(EMPTY, steps);
    RunOn(steps, s);
    StepCoherentForExactly(RunAll(EMPTY, steps), s, now, owner);
  }

  lemma MergeCanGoStale()
    ensures !CoherentFor(RunAll(EMPTY, [Get(GUEST, 0)] + [MergeGuest("u", "g", 0)]), GUEST, 0)
  {
    OneStep(Get(GUEST, 0));
    var shop := Run(EMPTY, Get(GUEST, 0));
    assert shop.carts == [NewCart(GUEST, 0)] && shop.lines == [];
    assert CachedCart(shop.cache, GUEST, 0) == Some(Fresh(GUEST));
    UnsafeGoesStale([Get(GUEST, 0)], MergeGuest("u", "g", 0), GUEST, 0);
  }

  lemma OneAddedIsCached(owner: Owner, at: int)
    requires 0 <= at < CACHE_TTL
    ensures CoherentFor(OneAdded(owner), owner, 0) && Holds(OneAdded(owner), owner, 0, at)
  {
    OwnLine();
  }

  /** One millisecond is enough: the row gets a new time of last activity. */
  lemma RecalculationCanGoStale()
    ensures !CoherentFor(RunAll(EMPTY, AddsOne(GUEST) + [Recalculate(0, None, 1)]), GUEST, 1)
  {
    AddsOneReaches(GUEST);
    OneAddedIsCached(GUEST, 1);
    UnsafeGoesStale(AddsOne(GUEST), Recalculate(0, None, 1), GUEST, 0);
  }

  lemma AbandonmentCanGoStale()
    ensures !CoherentFor(RunAll(EMPTY, AddsOne(GUEST) + [MarkAbandoned(4 * HOUR)]), GUEST, 4 * HOUR)
  {
    AddsOneReaches(GUEST);
    OneAddedIsCached(GUEST, 4 * HOUR);
    assert Abandoned(CartOfOne(GUEST), LinesOf([NewLineOf(1)], 0), 4 * HOUR) by { OwnLine(); }
    UnsafeGoesStale(AddsOne(GUEST), MarkAbandoned(4 * HOUR), GUEST, 0);
  }

  lemma OffSaleFlags(owner: Owner)
    ensures var shop := Run(OneAdded(owner), SetProduct("p", OFF_SALE, 0));
            CoherentFor(shop, owner, 0) && Holds(shop, owner, 0, 0) && WillFlag(shop, 0)
  {
    OneAddedIsCached(owner, 0);
    SetProductCoherent(OneAdded(owner), "p", OFF_SALE, 0, owner);
    var shop := Run(OneAdded(owner), SetProduct("p", OFF_SALE, 0));
    assert shop.lines[0] in shop.lines && !Buyable(shop.lines[0], shop.products);
  }

  lemma ValidationCanGoStale()
    ensures !CoherentFor(RunAll(EMPTY, AddsOne(GUEST) + [SetProduct("p", OFF_SALE, 0)] + [Validate(0, 0)]), GUEST, 0)
  {
    AddsOneReaches(GUEST);
    RunOn(AddsOne(GUEST), SetProduct("p", OFF_SALE, 0));
    OffSaleFlags(GUEST);
    UnsafeGoesStale(AddsOne(GUEST) + [SetProduct("p", OFF_SALE, 0)], Validate(0, 0), GUEST, 0);
  }

  // ---------------------------------------------------------------- merging at another price

  /** One of the product in each of two carts. */
  predicate InBoth(shop: Shop, product: Product)
  {
    && shop.lines == [NewLineOf(1), NewLineOf(1).(id := 1, cartId := 1)] && shop.products == map["p" := product]
    && |shop.carts| == 2 && shop.carts[0] == CartOfOne(BUYER)
    && shop.carts[1].owner == GUEST && shop.carts[1].status == ACTIVE
  }

  lemma GuestOpens()
    ensures var start := Opened(OneAdded(BUYER), GUEST, 0);
            && start.cart.id == 1 && start.shop.carts == [CartOfOne(BUYER), NewCart(GUEST, 0)]
            && start.shop.lines == [NewLineOf(1)] && start.shop.nextLine == 1
            && start.shop.products == map["p" := AT_100]
  {
    if CacheKey(GUEST) == CacheKey(BUYER) { KeysApart(GUEST, BUYER); }
  }

  lemma GuestWrites(s: Shop)
    requires s.carts == [CartOfOne(BUYER), NewCart(GUEST, 0)] && s.lines == [NewLineOf(1)] && s.nextLine == 1
    requires s.products == map["p" := AT_100]
    ensures AddRefusal(s.products, "p", HeldQuantity(s.lines, 1, "p"), 1).None?
    ensures InBoth(Invalidated(Totalled(LinesAdded(s, 1, "p", 1), 1, None, 0), GUEST), AT_100)
  {
  }

  lemma StillInBoth(shop: Shop)
    requires InBoth(shop, AT_100)
    ensures InBoth(Opened(shop, GUEST, 0).shop, AT_100)
  {
  }

  lemma AddedToBoth()
    ensures InBoth(Run(OneAdded(BUYER), Add(GUEST, "p", 1, 0)), AT_100)
  {
    var s := Opened(OneAdded(BUYER), GUEST, 0).shop;
    GuestOpens();
    GuestWrites(s);
    StillInBoth(Invalidated(Totalled(LinesAdded(s, 1, "p", 1), 1, None, 0), GUEST));
  }

  lemma Repriced(shop: Shop)
    requires InBoth(shop, AT_100)
    ensures InBoth(Run(shop, SetProduct("p", AT_200, 0)), AT_200)
  {
  }

  predicate Mispriced(l: Option<Line>)
  {
    l.Some? && l.value.quantity == 2 && l.value.price == 100 && l.value.subtotal == 400
  }

  lemma InBothMeans(shop: Shop, product: Product)
    requires Sound(shop) && InBoth(shop, product)
    ensures FindActive(shop.carts, BUYER) == Some(0) && FindActive(shop.carts, GUEST) == Some(1)
    ensures LinesOf(shop.lines, 1) != []
    ensures Held(shop.lines, 0, "p") == Some(NewLineOf(1))
    ensures Held(shop.lines, 1, "p") == Some(NewLineOf(1).(cartId := 1))
  {
    ActiveIs(shop.carts, 0);
    ActiveIs(shop.carts, 1);
    LinesOfAreThere(shop.lines, 1);
    assert shop.lines[1] in shop.lines;
  }

  lemma MergedHeldAtTwoHundred()
    ensures Mispriced(MergedHeld(Some(NewLineOf(1)), Some(NewLineOf(1).(cartId := 1)), map["p" := AT_200], 0))
  {
  }

  /** The merge formula for two carts that are there. */
  lemma MergeHolds(shop: Shop, userId: string, sessionId: string, u: nat, g: nat, p: string)
    requires Sound(shop) && FindActive(shop.carts, UserKey(userId)) == Some(u)
    requires FindActive(shop.carts, SessionKey(sessionId)) == Some(g) && LinesOf(shop.lines, g) != []
    ensures Held(Run(shop, MergeGuest(userId, sessionId, 0)).lines, u, p)
         == MergedHeld(Held(shop.lines, u, p), Held(shop.lines, g, p), shop.products, u)
  {
    MergeMeans(shop, userId, sessionId, g, 0, p);
  }

  lemma MergedAtTwoHundred(shop: Shop, merged: Option<Line>)
    requires Sound(shop) && InBoth(shop, AT_200)
    requires merged == MergedHeld(Held(shop.lines, 0, "p"), Held(shop.lines, 1, "p"), shop.products, 0)
    ensures Mispriced(merged)
  {
    InBothMeans(shop, AT_200);
    MergedHeldAtTwoHundred();
  }

  /** One of the product at 100 in each cart, then a merge at 200: two at a locked price of 100 are charged 400. */
  lemma MergeCanMisprice(one: seq<Step>, both: seq<Step>, repriced: seq<Step>)
    requires one == AddsOne(BUYER) && both == one + [Add(GUEST, "p", 1, 0)]
    requires repriced == both + [SetProduct("p", AT_200, 0)]
    ensures Mispriced(Held(RunAll(EMPTY, repriced + [MergeGuest("u", "g", 0)]).lines, 0, "p"))
  {
    AddsOneReaches(BUYER);
    AddedToBoth();
    RunOn(one, Add(GUEST, "p", 1, 0));
    Repriced(RunAll(EMPTY, both));
    RunOn(both, SetProduct("p", AT_200, 0));
    ReachableIsSound(repriced);
    var shop := RunAll(EMPTY, repriced);
    InBothMeans(shop, AT_200);
    MergeHolds(shop, "u", "g", 0, 1, "p");
    MergedAtTwoHundred(shop, Held(Run(shop, MergeGuest("u", "g", 0)).lines, 0, "p"));
    RunOn(repriced, MergeGuest("u", "g", 0));
  }
}
