/**
 * When what the cart cache holds for an owner is the owner's ACTIVE cart, and exactly which steps
 * break that.
 */
module CartCoherence {
  import opened Prelude
  import opened TaxReport
  import opened CartModel
  import opened CartLines
  import opened CartRuns
  import opened CartMerge

  /** A cached response is the owner's ACTIVE cart row with its lines. */
  predicate Current(shop: Shop, owner: Owner, r: Response)
  {
    && r.id < |shop.carts| && r == ResponseOf(shop, r.id)
    && shop.carts[r.id].owner == owner && shop.carts[r.id].status == ACTIVE
  }

  /** What the cache answers an owner at time now, if anything, is current. */
  predicate CoherentFor(shop: Shop, owner: Owner, now: int)
  {
    match CachedCart(shop.cache, owner, now)
    case None => true
    case Some(r) => Current(shop, owner, r)
  }

  ghost predicate Coherent(shop: Shop, now: int)
  {
    forall owner :: CoherentFor(shop, owner, now)
  }

  /** So a cached read is what a read of the database gives. */
  lemma CachedReadIsFresh(shop: Shop, owner: Owner, now: int)
    requires Sound(shop) && CoherentFor(shop, owner, now) && CachedCart(shop.cache, owner, now).Some?
    ensures var i := FindActive(shop.carts, owner);
            i.Some? && Opened(shop, owner, now) == View(shop, ResponseOf(shop, i.value))
  {
    ActiveIs(shop.carts, CachedCart(shop.cache, owner, now).value.id);
  }

  lemma KeysApart(a: Owner, b: Owner)
    requires CacheKey(a) == CacheKey(b)
    ensures a == b
  {
    assert CacheKey(a)[5] == CacheKey(b)[5];
    var n := if a.UserKey? then 10 else 13;
    assert CacheKey(a)[n..] == a.id;
    assert CacheKey(b)[n..] == b.id;
  }

  lemma CoherentLater(shop: Shop, owner: Owner, now: int, later: int)
    requires CoherentFor(shop, owner, now) && now <= later
    ensures CoherentFor(shop, owner, later)
  {
  }

  // ---------------------------------------------------------------- steps that keep the cache right

  /** Opening a cart neither mends nor breaks what is cached for anyone. */
  lemma OpenedExactly(shop: Shop, user: Owner, now: int, owner: Owner)
    ensures CoherentFor(Opened(shop, user, now).shop, owner, now) <==> CoherentFor(shop, owner, now)
  {
    if owner == user {
      if CachedCart(shop.cache, user, now).None? { EnsuredIsCurrent(shop, user, now); }
    } else {
      if CacheKey(owner) == CacheKey(user) { KeysApart(owner, user); }
      EnsuredElsewhere(shop, user, now, owner);
    }
  }

  lemma EnsuredIsCurrent(shop: Shop, user: Owner, now: int)
    ensures var s := Ensured(shop, user, now);
            Current(s, user, ResponseOf(s, FindActive(s.carts, user).value))
  {
  }

  lemma EnsuredElsewhere(shop: Shop, user: Owner, now: int, owner: Owner)
    requires owner != user
    ensures forall r :: Current(Ensured(shop, user, now), owner, r) <==> Current(shop, owner, r)
  {
  }

  /** Only cart c and its lines changed. */
  ghost predicate Touches(shop: Shop, next: Shop, c: nat)
  {
    && |next.carts| == |shop.carts|
    && (forall i :: 0 <= i < |shop.carts| && i != c ==> next.carts[i] == shop.carts[i])
    && OthersSame(shop.lines, next.lines, c)
  }

  /** Changing one cart is safe when its owner's entry is dropped. */
  lemma DroppedCoherent(shop: Shop, next: Shop, c: nat, now: int, owner: Owner)
    requires CoherentFor(shop, owner, now) && c < |shop.carts| && Touches(shop, next, c)
    requires next.cache == shop.cache - {CacheKey(shop.carts[c].owner)}
    ensures CoherentFor(next, owner, now)
  {
    if CacheKey(owner) == CacheKey(shop.carts[c].owner) { KeysApart(owner, shop.carts[c].owner); }
  }

  lemma LinesAddedTouches(shop: Shop, c: nat, productId: string, quantity: int, now: int)
    requires c < |shop.carts| && productId in shop.products
    ensures Touches(shop, Totalled(LinesAdded(shop, c, productId, quantity), c, None, now), c)
  {
    match LineAt(shop.lines, c, productId)
    case Some(i) => RewriteOthers(shop.lines, i, Requantified(shop.lines[i], shop.lines[i].quantity + quantity));
    case None =>
      AppendOthers(shop.lines, NewLine(shop.nextLine, c, productId, quantity, shop.products[productId].price));
  }

  lemma AddedToCoherent(shop: Shop, c: nat, productId: string, quantity: int, now: int, owner: Owner)
    requires CoherentFor(shop, owner, now) && c < |shop.carts| && productId in shop.products
    ensures var totalled := Totalled(LinesAdded(shop, c, productId, quantity), c, None, now);
            CoherentFor(Invalidated(totalled, shop.carts[c].owner), owner, now)
  {
    LinesAddedTouches(shop, c, productId, quantity, now);
    var totalled := Totalled(LinesAdded(shop, c, productId, quantity), c, None, now);
    DroppedCoherent(shop, Invalidated(totalled, shop.carts[c].owner), c, now, owner);
  }

  /** What is cached for an owner, current or not, is a cart of that owner. */
  predicate Theirs(shop: Shop, owner: Owner, now: int)
  {
    match CachedCart(shop.cache, owner, now)
    case None => true
    case Some(r) => r.id < |shop.carts| && shop.carts[r.id].owner == owner
  }

  lemma OpenedIsTheirs(shop: Shop, user: Owner, now: int)
    requires Theirs(shop, user, now)
    ensures var v := Opened(shop, user, now); v.cart.id < |v.shop.carts| && v.shop.carts[v.cart.id].owner == user
  {
    if CachedCart(shop.cache, user, now).None? { EnsuredIsCurrent(shop, user, now); }
  }

  lemma AddedCoherent(shop: Shop, user: Owner, productId: string, quantity: int, now: int, owner: Owner)
    requires CoherentFor(shop, owner, now) && Theirs(shop, user, now)
    ensures CoherentFor(Added(shop, user, productId, quantity, now).shop, owner, now)
  {
    var start := Opened(shop, user, now);
    var s, c := start.shop, start.cart.id;
    OpenedExactly(shop, user, now, owner);
    OpenedIsTheirs(shop, user, now);
    if AddRefusal(s.products, productId, HeldQuantity(s.lines, c, productId), quantity).None? {
      AddedToCoherent(s, c, productId, quantity, now, owner);
      var written := Invalidated(Totalled(LinesAdded(s, c, productId, quantity), c, None, now), user);
      OpenedExactly(written, user, now, owner);
    }
  }

  lemma ItemUpdatedCoherent(shop: Shop, c: nat, itemId: int, quantity: int, now: int, owner: Owner)
    requires CoherentFor(shop, owner, now)
    ensures CoherentFor(ItemUpdated(shop, c, itemId, quantity, now).shop, owner, now)
  {
    if UpdateRefusal(shop, c, itemId, quantity).None? {
      var i := LineById(shop.lines, itemId).value;
      RewriteOthers(shop.lines, i, Requantified(shop.lines[i], quantity));
      DroppedCoherent(shop, ItemUpdated(shop, c, itemId, quantity, now).shop, c, now, owner);
    }
  }

  lemma ItemRemovedCoherent(shop: Shop, c: nat, itemId: int, now: int, owner: Owner)
    requires CoherentFor(shop, owner, now)
    ensures CoherentFor(ItemRemoved(shop, c, itemId, now).shop, owner, now)
  {
    var found := LineById(shop.lines, itemId);
    if found.Some? && shop.lines[found.value].cartId == c && c < |shop.carts| {
      RemoveOthers(shop.lines, found.value);
      DroppedCoherent(shop, ItemRemoved(shop, c, itemId, now).shop, c, now, owner);
    }
  }

  lemma ClearedCoherent(shop: Shop, c: nat, now: int, owner: Owner)
    requires CoherentFor(shop, owner, now)
    ensures CoherentFor(Cleared(shop, c, now).shop, owner, now)
  {
    if c < |shop.carts| {
      forall k | k != c ensures LinesOf(WithoutCart(shop.lines, c), k) == LinesOf(shop.lines, k) {
        ClearedOf(shop.lines, c, k);
      }
      DroppedCoherent(shop, Cleared(shop, c, now).shop, c, now, owner);
    }
  }

  lemma SetProductCoherent(shop: Shop, productId: string, product: Product, now: int, owner: Owner)
    requires CoherentFor(shop, owner, now)
    ensures CoherentFor(shop.(products := shop.products[productId := product]), owner, now)
  {
  }

  // ---------------------------------------------------------------- steps that do not

  /** The cache answers the owner with cart c. */
  predicate Holds(shop: Shop, owner: Owner, c: nat, now: int)
  {
    CachedCart(shop.cache, owner, now).Some? && CachedCart(shop.cache, owner, now).value.id == c
  }

  /** A quiet change of one cart breaks an owner's entry exactly when that cart is cached and the change shows. */
  lemma OneCartExactly(shop: Shop, next: Shop, c: nat, now: int, owner: Owner)
    requires CoherentFor(shop, owner, now) && c < |shop.carts| && Touches(shop, next, c) && next.cache == shop.cache
    ensures CoherentFor(next, owner, now)
            <==> (Holds(shop, owner, c, now) ==> ResponseOf(next, c) == ResponseOf(shop, c))
  {
  }

  /** The row has these totals already, down to the millisecond of the last activity. */
  predicate IsTotalled(cart: Cart, delivery: Option<Delivery>, now: int)
  {
    && cart.lastActivityAt == now && AddsUp(cart)
    && cart.tax == Tax(cart.subtotal, if delivery.Some? then RegionOf(delivery.value.region) else NCR)
    && cart.shipping == (if delivery.Some? then delivery.value.fee else 0)
  }

  /** A recalculation leaves a cached cart stale exactly when it has anything to change, if only the time. */
  lemma RecalculateExactly(shop: Shop, c: nat, delivery: Option<Delivery>, now: int, owner: Owner)
    requires Sound(shop) && CoherentFor(shop, owner, now)
    ensures CoherentFor(Totalled(shop, c, delivery, now), owner, now)
            <==> (Holds(shop, owner, c, now) && c < |shop.carts| ==> IsTotalled(shop.carts[c], delivery, now))
  {
    if c < |shop.carts| {
      assert CartOk(shop.carts, shop.lines, c);
      OneCartExactly(shop, Totalled(shop, c, delivery, now), c, now, owner);
    }
  }

  /** Some line of the cart was available and no longer is. */
  predicate WillFlag(shop: Shop, c: nat)
  {
    exists l :: l in shop.lines && l.cartId == c && l.isAvailable && !Buyable(l, shop.products)
  }

  lemma FlagsShowExactly(shop: Shop, c: nat)
    ensures Flagged(LinesOf(shop.lines, c), c, shop.products) == LinesOf(shop.lines, c) <==> !WillFlag(shop, c)
  {
    var own := LinesOf(shop.lines, c);
    LinesOfAreThere(shop.lines, c);
    if WillFlag(shop, c) {
      var l :| l in shop.lines && l.cartId == c && l.isAvailable && !Buyable(l, shop.products);
      var i :| 0 <= i < |own| && own[i] == l;
      assert Flagged(own, c, shop.products)[i] != own[i];
    } else {
      forall i | 0 <= i < |own| ensures Flagged(own, c, shop.products)[i] == own[i] {
        assert own[i] in own;
      }
    }
  }

  lemma FlagsElsewhere(lines: seq<Line>, c: nat, products: map<string, Product>, k: nat)
    requires k != c
    ensures Flagged(LinesOf(lines, k), c, products) == LinesOf(lines, k)
  {
  }

  /** A validation leaves a cached cart stale exactly when it flags a line. */
  lemma ValidateExactly(shop: Shop, c: nat, now: int, owner: Owner)
    requires CoherentFor(shop, owner, now)
    ensures CoherentFor(Validated(shop, c).shop, owner, now)
            <==> (Holds(shop, owner, c, now) && c < |shop.carts| ==> !WillFlag(shop, c))
  {
    if c < |shop.carts| {
      var next := Validated(shop, c).shop;
      forall k ensures LinesOf(next.lines, k) == Flagged(LinesOf(shop.lines, k), c, shop.products) {
        FlaggedOf(shop.lines, c, shop.products, k);
      }
      forall k | k != c ensures LinesOf(next.lines, k) == LinesOf(shop.lines, k) {
        FlagsElsewhere(shop.lines, c, shop.products, k);
      }
      OneCartExactly(shop, next, c, now, owner);
      FlagsShowExactly(shop, c);
    }
  }

  /** The cart cached for the owner is about to be expired. */
  predicate ExpiresCached(shop: Shop, owner: Owner, now: int)
  {
    exists c :: 0 <= c < |shop.carts| && Holds(shop, owner, c, now) && Idle(shop.carts[c], now)
  }

  /** The cart cached for the owner is about to be marked abandoned. */
  predicate AbandonsCached(shop: Shop, owner: Owner, now: int)
  {
    exists c :: 0 <= c < |shop.carts| && Holds(shop, owner, c, now)
                && Abandoned(shop.carts[c], LinesOf(shop.lines, c), now)
  }

  lemma ExpireExactly(shop: Shop, now: int, owner: Owner)
    requires CoherentFor(shop, owner, now)
    ensures CoherentFor(Expired(shop, now), owner, now) <==> !ExpiresCached(shop, owner, now)
  {
  }

  lemma AbandonExactly(shop: Shop, now: int, owner: Owner)
    requires CoherentFor(shop, owner, now)
    ensures CoherentFor(AbandonmentsMarked(shop, now), owner, now) <==> !AbandonsCached(shop, owner, now)
  {
  }

  // ---------------------------------------------------------------- merging

  /** The guest cart is empty and cached: the one merge that leaves a stale entry. */
  predicate MergesEmptyCached(shop: Shop, sessionId: string, now: int)
  {
    var g := FindActive(shop.carts, SessionKey(sessionId));
    g.Some? && LinesOf(shop.lines, g.value) == [] && CachedCart(shop.cache, SessionKey(sessionId), now).Some?
  }

  lemma CartsMergedCoherent(shop: Shop, user: Owner, g: nat, now: int, owner: Owner)
    requires Sound(shop) && CoherentFor(shop, owner, now) && g < |shop.carts| && shop.carts[g].owner != user
    ensures var merged := Invalidated(CartsMerged(shop, user, g, now), user);
            CoherentFor(Invalidated(merged, shop.carts[g].owner), owner, now)
  {
    var s, guest := Ensured(shop, user, now), shop.carts[g].owner;
    var u := FindActive(s.carts, user).value;
    var start := Merge(s.lines, s.nextLine, Counters(0, 0, 0));
    EnsuredKeeps(shop, user, now);
    EnsuredCoherent(shop, user, now, owner);
    var marked := Invalidated(s.(carts := s.carts[g := MarkedMerged(s.carts[g], now)]), guest);
    DroppedCoherent(s, marked, g, now, owner);
    MergeAllOk(start, u, LinesOf(s.lines, g), |s.carts|, s.products);
    var next := Invalidated(Invalidated(CartsMerged(shop, user, g, now), user), guest);
    assert next.cache == marked.cache - {CacheKey(user)};
    DroppedCoherent(marked, next, u, now, owner);
  }

  lemma EnsuredCoherent(shop: Shop, user: Owner, now: int, owner: Owner)
    requires CoherentFor(shop, owner, now)
    ensures CoherentFor(Ensured(shop, user, now), owner, now)
  {
  }

  lemma GuestMergedExactly(shop: Shop, userId: string, sessionId: string, now: int, owner: Owner)
    requires Sound(shop) && CoherentFor(shop, owner, now)
    ensures CoherentFor(GuestMerged(shop, userId, sessionId, now), owner, now)
            <==> !(owner == SessionKey(sessionId) && MergesEmptyCached(shop, sessionId, now))
  {
    var guest := SessionKey(sessionId);
    match FindActive(shop.carts, guest)
    case None =>
    case Some(g) =>
      if LinesOf(shop.lines, g) == [] {
        OneCartExactly(shop, GuestMerged(shop, userId, sessionId, now), g, now, owner);
        if owner == guest && CachedCart(shop.cache, guest, now).Some? {
          ActiveIs(shop.carts, CachedCart(shop.cache, guest, now).value.id);
        }
      } else {
        CartsMergedCoherent(shop, UserKey(userId), g, now, owner);
      }
  }

  /** A merge leaves a stale entry exactly for the guest, and when the guest's cart is empty and cached. */
  lemma MergedExactly(shop: Shop, userId: string, sessionId: string, now: int, owner: Owner)
    requires Sound(shop) && CoherentFor(shop, owner, now)
    ensures CoherentFor(Merged(shop, userId, sessionId, now).shop, owner, now)
            <==> !(owner == SessionKey(sessionId) && MergesEmptyCached(shop, sessionId, now))
  {
    GuestMergedExactly(shop, userId, sessionId, now, owner);
    OpenedExactly(GuestMerged(shop, userId, sessionId, now), UserKey(userId), now, owner);
  }

  // ---------------------------------------------------------------- every step

  /** Before the call: a step that writes behind the cache's back is not about to hit the cart cached for the owner. */
  predicate SafeFor(shop: Shop, s: Step, owner: Owner)
  {
    match s
    case MergeGuest(_, sessionId, at) => !(owner == SessionKey(sessionId) && MergesEmptyCached(shop, sessionId, at))
    case Recalculate(c, delivery, at) =>
      Holds(shop, owner, c, at) && c < |shop.carts| ==> IsTotalled(shop.carts[c], delivery, at)
    case Validate(c, at) => Holds(shop, owner, c, at) && c < |shop.carts| ==> !WillFlag(shop, c)
    case Expire(at) => !ExpiresCached(shop, owner, at)
    case MarkAbandoned(at) => !AbandonsCached(shop, owner, at)
    case _ => true
  }

  lemma OwnStepCoherent(shop: Shop, s: Step, owner: Owner)
    requires Sound(shop) && CoherentFor(shop, owner, s.at) && (s.Add? ==> Theirs(shop, s.owner, s.at))
    requires s.Get? || s.Add? || s.Update? || s.Remove? || s.Clear? || s.SetProduct?
    ensures CoherentFor(Run(shop, s), owner, s.at)
  {
    match s
    case Get(user, at) => OpenedExactly(shop, user, at, owner);
    case Add(user, productId, quantity, at) => AddedCoherent(shop, user, productId, quantity, at, owner);
    case Update(cartId, itemId, quantity, at) => ItemUpdatedCoherent(shop, cartId, itemId, quantity, at, owner);
    case Remove(cartId, itemId, at) => ItemRemovedCoherent(shop, cartId, itemId, at, owner);
    case Clear(cartId, at) => ClearedCoherent(shop, cartId, at, owner);
    case SetProduct(productId, product, at) => SetProductCoherent(shop, productId, product, at, owner);
  }

  /**
   * For each owner on its own: get, add, update, remove, clear and catalogue changes keep the owner's
   * entry right; a merge, a recalculation, a validation and the two cron jobs do exactly when they
   * are safe for that owner. What is cached for other owners plays no part.
   */
  lemma StepCoherentForExactly(shop: Shop, s: Step, now: int, owner: Owner)
    requires Sound(shop) && CoherentFor(shop, owner, now) && now <= s.at && (s.Add? ==> Theirs(shop, s.owner, s.at))
    ensures CoherentFor(Run(shop, s), owner, s.at) <==> SafeFor(shop, s, owner)
  {
    CoherentLater(shop, owner, now, s.at);
    match s
    case MergeGuest(userId, sessionId, at) => MergedExactly(shop, userId, sessionId, at, owner);
    case Recalculate(c, delivery, at) => RecalculateExactly(shop, c, delivery, at, owner);
    case Validate(c, at) => ValidateExactly(shop, c, at, owner);
    case Expire(at) => ExpireExactly(shop, at, owner);
    case MarkAbandoned(at) => AbandonExactly(shop, at, owner);
    case _ => OwnStepCoherent(shop, s, owner);
  }

  ghost predicate Safe(shop: Shop, s: Step)
  {
    forall owner :: SafeFor(shop, s, owner)
  }

  /** From a cache that is right for everyone, a step leaves it so exactly when it is safe for everyone. */
  lemma StepCoherentExactly(shop: Shop, s: Step, now: int)
    requires Sound(shop) && Coherent(shop, now) && now <= s.at
    ensures Coherent(Run(shop, s), s.at) <==> Safe(shop, s)
  {
    if s.Add? {
      assert CoherentFor(shop, s.owner, now);
      CoherentLater(shop, s.owner, now, s.at);
    }
    forall owner ensures CoherentFor(Run(shop, s), owner, s.at) <==> SafeFor(shop, s, owner) {
      assert CoherentFor(shop, owner, now);
      StepCoherentForExactly(shop, s, now, owner);
    }
  }

  // ---------------------------------------------------------------- every run

  function LastAt(steps: seq<Step>, start: int): int
  {
    if steps == [] then start else steps[|steps| - 1].at
  }

  /** Time never goes back and each step is safe in the shop it meets. */
  ghost predicate SafeRun(shop: Shop, steps: seq<Step>, start: int)
    decreases |steps|
  {
    steps == [] ||
      var before, s := steps[..|steps| - 1], steps[|steps| - 1];
      SafeRun(shop, before, start) && LastAt(before, start) <= s.at && Safe(RunAll(shop, before), s)
  }

  /** After any safe run from a coherent shop, whatever the cache answers is the owner's ACTIVE cart. */
  lemma {:induction false} SafeRunsAreCoherent(shop: Shop, steps: seq<Step>, start: int)
    requires Sound(shop) && Coherent(shop, start) && SafeRun(shop, steps, start)
    ensures Coherent(RunAll(shop, steps), LastAt(steps, start))
    decreases |steps|
  {
    if steps != [] {
      var before := steps[..|steps| - 1];
      SafeRunsAreCoherent(shop, before, start);
      RunKeeps(shop, before);
      StepCoherentExactly(RunAll(shop, before), steps[|steps| - 1], LastAt(before, start));
    }
  }

  /** In particular after any safe run from empty tables. */
  lemma SafeRunsFromEmpty(steps: seq<Step>, start: int)
    requires SafeRun(EMPTY, steps, start)
    ensures Sound(RunAll(EMPTY, steps)) && Coherent(RunAll(EMPTY, steps), LastAt(steps, start))
  {
    assert Sound(EMPTY) && Coherent(EMPTY, start);
    RunKeeps(EMPTY, steps);
    SafeRunsAreCoherent(EMPTY, steps, start);
  }

  /** Get, add, update, remove, clear, catalogue changes, and a merge unless the guest's cart is empty. */
  predicate Plain(shop: Shop, s: Step)
  {
    match s
    case MergeGuest(_, sessionId, _) =>
      var g := FindActive(shop.carts, SessionKey(sessionId)); g.Some? ==> LinesOf(shop.lines, g.value) != []
    case _ => s.Get? || s.Add? || s.Update? || s.Remove? || s.Clear? || s.SetProduct?
  }

  predicate PlainRun(shop: Shop, steps: seq<Step>, start: int)
    decreases |steps|
  {
    steps == [] ||
      var before, s := steps[..|steps| - 1], steps[|steps| - 1];
      PlainRun(shop, before, start) && LastAt(before, start) <= s.at && Plain(RunAll(shop, before), s)
  }

  /** Runs of these steps need no further condition. */
  lemma {:induction false} PlainRunsAreSafe(shop: Shop, steps: seq<Step>, start: int)
    requires PlainRun(shop, steps, start)
    ensures SafeRun(shop, steps, start)
    decreases |steps|
  {
    if steps != [] {
      PlainRunsAreSafe(shop, steps[..|steps| - 1], start);
      PlainIsSafe(RunAll(shop, steps[..|steps| - 1]), steps[|steps| - 1]);
    }
  }

  lemma PlainIsSafe(shop: Shop, s: Step)
    requires Plain(shop, s)
    ensures Safe(shop, s)
  {
  }
}
