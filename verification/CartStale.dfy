/**
 * What a stale cart entry can be: over any run the cache holds an owner's newest cart or nothing, and
 * only the newest can be ACTIVE. And, owner by owner, how a stale entry heals.
 */
module CartStale {
  import opened Prelude
  import opened CartModel
  import opened CartRuns
  import opened CartMerge
  import opened CartCoherence

  // ---------------------------------------------------------------- the newest cart

  predicate NewestOf(carts: seq<Cart>, owner: Owner, c: nat)
  {
    c < |carts| && carts[c].owner == owner && forall j :: c < j < |carts| ==> carts[j].owner != owner
  }

  /** A cart that its owner has a newer one than is not ACTIVE. */
  predicate OldAreDone(carts: seq<Cart>)
  {
    forall i, j :: 0 <= i < j < |carts| && carts[i].owner == carts[j].owner ==> carts[i].status != ACTIVE
  }

  ghost predicate CachedAreNewest(cache: map<string, Cached>, carts: seq<Cart>)
  {
    forall o :: CacheKey(o) in cache ==> NewestOf(carts, o, cache[CacheKey(o)].response.id)
  }

  ghost predicate Filed(shop: Shop)
  {
    OldAreDone(shop.carts) && CachedAreNewest(shop.cache, shop.carts)
  }

  /** No entry came or changed its cart. */
  predicate OnlyDrops(before: map<string, Cached>, after: map<string, Cached>)
  {
    forall key :: key in after ==> key in before && after[key] == before[key]
  }

  lemma NoNewCarts(shop: Shop, next: Shop)
    requires Filed(shop) && |next.carts| == |shop.carts| && AllContinue(shop.carts, next.carts)
    requires OnlyDrops(shop.cache, next.cache)
    ensures Filed(next)
  {
  }

  /** With a cart for the owner the rows are in order, and the owner's ACTIVE cart is the newest. */
  lemma EnsuredFiled(shop: Shop, user: Owner, now: int)
    requires Filed(shop)
    ensures var s := Ensured(shop, user, now);
            && OldAreDone(s.carts) && NewestOf(s.carts, user, FindActive(s.carts, user).value)
            && forall o :: o != user && CacheKey(o) in shop.cache ==>
                 NewestOf(s.carts, o, shop.cache[CacheKey(o)].response.id)
  {
  }

  lemma OpenedFiled(shop: Shop, user: Owner, now: int)
    requires Filed(shop)
    ensures Filed(Opened(shop, user, now).shop)
  {
    if CachedCart(shop.cache, user, now).None? {
      var next := Opened(shop, user, now).shop;
      EnsuredFiled(shop, user, now);
      forall o | CacheKey(o) in next.cache ensures NewestOf(next.carts, o, next.cache[CacheKey(o)].response.id) {
        if CacheKey(o) == CacheKey(user) { KeysApart(o, user); }
      }
    }
  }

  lemma AddedToFiled(shop: Shop, c: nat, productId: string, quantity: int, now: int, user: Owner)
    requires Sound(shop) && Filed(shop) && c < |shop.carts| && productId in shop.products
    ensures Filed(Invalidated(Totalled(LinesAdded(shop, c, productId, quantity), c, None, now), user))
  {
    LinesAddedKeeps(shop, c, productId, quantity, now);
    NoNewCarts(shop, Invalidated(Totalled(LinesAdded(shop, c, productId, quantity), c, None, now), user));
  }

  lemma AddedFiled(shop: Shop, user: Owner, productId: string, quantity: int, now: int)
    requires Sound(shop) && Filed(shop)
    ensures Filed(Added(shop, user, productId, quantity, now).shop)
  {
    var start := Opened(shop, user, now);
    var s, c := start.shop, start.cart.id;
    OpenedKeeps(shop, user, now);
    OpenedFiled(shop, user, now);
    if AddRefusal(s.products, productId, HeldQuantity(s.lines, c, productId), quantity).None? {
      AddedToFiled(s, c, productId, quantity, now, user);
      OpenedFiled(Invalidated(Totalled(LinesAdded(s, c, productId, quantity), c, None, now), user), user, now);
    }
  }

  lemma CartsMergedFiled(shop: Shop, user: Owner, g: nat, now: int)
    requires Filed(shop) && g < |shop.carts| && shop.carts[g].owner != user && shop.carts[g].status == ACTIVE
    ensures Filed(Invalidated(Invalidated(CartsMerged(shop, user, g, now), user), shop.carts[g].owner))
  {
    var s := Invalidated(Ensured(shop, user, now), user);
    EnsuredFiled(shop, user, now);
    forall o | CacheKey(o) in s.cache ensures NewestOf(s.carts, o, s.cache[CacheKey(o)].response.id) {
      if o == user { assert false; }
    }
    var next := Invalidated(Invalidated(CartsMerged(shop, user, g, now), user), shop.carts[g].owner);
    forall i | 0 <= i < |s.carts| ensures Continues(s.carts[i], next.carts[i]) { }
    NoNewCarts(s, next);
  }

  lemma MergedFiled(shop: Shop, userId: string, sessionId: string, now: int)
    requires Sound(shop) && Filed(shop)
    ensures Filed(Merged(shop, userId, sessionId, now).shop)
  {
    var s := GuestMerged(shop, userId, sessionId, now);
    match FindActive(shop.carts, SessionKey(sessionId)) {
      case None =>
      case Some(g) =>
        if LinesOf(shop.lines, g) == [] {
          NoNewCarts(shop, s);
        } else {
          CartsMergedFiled(shop, UserKey(userId), g, now);
        }
    }
    OpenedFiled(s, UserKey(userId), now);
  }

  lemma QuietStepFiled(shop: Shop, s: Step)
    requires Sound(shop) && Filed(shop) && !s.Get? && !s.Add? && !s.MergeGuest?
    ensures Filed(Run(shop, s))
  {
    StepKeeps(shop, s);
    NoNewCarts(shop, Run(shop, s));
  }

  lemma StepFiled(shop: Shop, s: Step)
    requires Sound(shop) && Filed(shop)
    ensures Filed(Run(shop, s))
  {
    match s
    case Get(owner, at) => OpenedFiled(shop, owner, at);
    case Add(owner, productId, quantity, at) => AddedFiled(shop, owner, productId, quantity, at);
    case MergeGuest(userId, sessionId, at) => MergedFiled(shop, userId, sessionId, at);
    case _ => QuietStepFiled(shop, s);
  }

  /** Over any run: only an owner's newest cart can be ACTIVE, and the cache holds the newest or nothing. */
  lemma {:induction false} RunFiled(shop: Shop, steps: seq<Step>)
    requires Sound(shop) && Filed(shop)
    ensures Filed(RunAll(shop, steps))
    decreases |steps|
  {
    if steps != [] {
      var before := steps[..|steps| - 1];
      RunFiled(shop, before);
      RunKeeps(shop, before);
      StepFiled(RunAll(shop, before), steps[|steps| - 1]);
    }
  }

  lemma ReachableIsFiled(steps: seq<Step>)
    ensures Sound(RunAll(EMPTY, steps)) && Filed(RunAll(EMPTY, steps))
  {
    assert Sound(EMPTY) && Filed(EMPTY);
    RunKeeps(EMPTY, steps);
    RunFiled(EMPTY, steps);
  }

  /** So a cached cart that is not the owner's ACTIVE one means that the owner has no ACTIVE cart. */
  lemma StaleMeansNone(shop: Shop, owner: Owner, now: int)
    requires Filed(shop) && CachedCart(shop.cache, owner, now).Some?
    ensures var c := CachedCart(shop.cache, owner, now).value.id;
            && c < |shop.carts|
            && FindActive(shop.carts, owner) == if shop.carts[c].status == ACTIVE then Some(c) else None
  {
    assert NewestOf(shop.carts, owner, CachedCart(shop.cache, owner, now).value.id);
  }

  // ---------------------------------------------------------------- how a stale entry heals

  /** An entry was dropped, or filled anew. */
  predicate Renewed(before: map<string, Cached>, after: map<string, Cached>, key: string)
  {
    key !in after || (key in before ==> after[key] != before[key])
  }

  predicate SameEntry(before: map<string, Cached>, after: map<string, Cached>, key: string)
  {
    (key in after <==> key in before) && (key in after ==> after[key] == before[key])
  }

  /** The step dropped the owner's entry, or filled it anew. */
  predicate Renews(shop: Shop, s: Step, owner: Owner)
  {
    Renewed(shop.cache, Run(shop, s).cache, CacheKey(owner))
  }

  lemma OpenedRenews(shop: Shop, user: Owner, now: int, owner: Owner)
    ensures var next := Opened(shop, user, now).shop;
            && (Renewed(shop.cache, next.cache, CacheKey(owner)) ==> CoherentFor(next, owner, now))
            && (owner != user ==> SameEntry(shop.cache, next.cache, CacheKey(owner)))
  {
    if CacheKey(owner) == CacheKey(user) { KeysApart(owner, user); }
    if CachedCart(shop.cache, user, now).None? { EnsuredIsCurrent(shop, user, now); }
  }

  lemma AddedRenews(shop: Shop, user: Owner, productId: string, quantity: int, now: int, owner: Owner)
    requires Renews(shop, Add(user, productId, quantity, now), owner)
    ensures CoherentFor(Added(shop, user, productId, quantity, now).shop, owner, now)
  {
    var start := Opened(shop, user, now);
    var s, c := start.shop, start.cart.id;
    OpenedRenews(shop, user, now, owner);
    if AddRefusal(s.products, productId, HeldQuantity(s.lines, c, productId), quantity).None? {
      var written := Invalidated(Totalled(LinesAdded(s, c, productId, quantity), c, None, now), user);
      OpenedRenews(written, user, now, owner);
      if CacheKey(owner) == CacheKey(user) { KeysApart(owner, user); }
    }
  }

  lemma GuestMergedDrops(shop: Shop, userId: string, sessionId: string, now: int)
    ensures OnlyDrops(shop.cache, GuestMerged(shop, userId, sessionId, now).cache)
  {
  }

  lemma MergedRenews(shop: Shop, userId: string, sessionId: string, now: int, owner: Owner)
    requires Renews(shop, MergeGuest(userId, sessionId, now), owner)
    ensures CoherentFor(Merged(shop, userId, sessionId, now).shop, owner, now)
  {
    var s := GuestMerged(shop, userId, sessionId, now);
    GuestMergedDrops(shop, userId, sessionId, now);
    OpenedRenews(s, UserKey(userId), now, owner);
  }

  /** Whatever was cached before, an entry just filled is right, and one just dropped cannot be wrong. */
  lemma RenewedIsCoherent(shop: Shop, s: Step, owner: Owner)
    requires Renews(shop, s, owner)
    ensures CoherentFor(Run(shop, s), owner, s.at)
  {
    match s
    case Get(user, at) => OpenedRenews(shop, user, at, owner);
    case Add(user, productId, quantity, at) => AddedRenews(shop, user, productId, quantity, at, owner);
    case MergeGuest(userId, sessionId, at) => MergedRenews(shop, userId, sessionId, at, owner);
    case _ => assert OnlyDrops(shop.cache, Run(shop, s).cache);
  }

  /** Since the owner's entry was last dropped or filled, no unsafe step hit the owner's cart. */
  predicate SafeSince(shop: Shop, steps: seq<Step>, owner: Owner, start: int)
    decreases |steps|
  {
    if steps == [] then CoherentFor(shop, owner, start)
    else
      var before, s := steps[..|steps| - 1], steps[|steps| - 1];
      || Renews(RunAll(shop, before), s, owner)
      || (SafeSince(shop, before, owner, start) && LastAt(before, start) <= s.at
           && SafeFor(RunAll(shop, before), s, owner))
  }

  /** After any such run the owner's entry is right, whatever has become of anyone else's. */
  lemma {:induction false} SafeSinceIsCoherent(shop: Shop, steps: seq<Step>, owner: Owner, start: int)
    requires Sound(shop) && Filed(shop) && SafeSince(shop, steps, owner, start)
    ensures CoherentFor(RunAll(shop, steps), owner, LastAt(steps, start))
    decreases |steps|
  {
    if steps != [] {
      var before, s := steps[..|steps| - 1], steps[|steps| - 1];
      var now := RunAll(shop, before);
      if Renews(now, s, owner) {
        RenewedIsCoherent(now, s, owner);
      } else {
        SafeSinceIsCoherent(shop, before, owner, start);
        RunKeeps(shop, before);
        RunFiled(shop, before);
        if s.Add? { FiledAreTheirs(now, s.owner, s.at); }
        StepCoherentForExactly(now, s, LastAt(before, start), owner);
      }
    }
  }

  lemma FiledAreTheirs(shop: Shop, owner: Owner, now: int)
    requires Filed(shop)
    ensures Theirs(shop, owner, now)
  {
    if CacheKey(owner) in shop.cache { assert NewestOf(shop.carts, owner, shop.cache[CacheKey(owner)].response.id); }
  }
}
