/** The cart service, its cache and its scheduler as objects over the tables of the database. */
module CartService {
  import opened Prelude
  import opened TaxReport
  import opened CartModel
  import opened CartLines

  class Database {
    var carts: seq<Cart>
    var lines: seq<Line>
    var nextLine: int
    var products: map<string, Product>

    constructor ()
      ensures carts == [] && lines == [] && nextLine == 0 && products == map[]
    {
      carts, lines, nextLine, products := [], [], 0, map[];
    }
  }

  class CartCacheService {
    var store: map<string, Cached>

    constructor ()
      ensures store == map[]
    {
      store := map[];
    }

    method GetCart(owner: Owner, now: int) returns (cart: Option<Response>)
      ensures cart == CachedCart(store, owner, now)
    {
      var key := CacheKey(owner);
      if key !in store || now >= store[key].expiresAt {
        return None;
      }
      return Some(store[key].response);
    }

    method SetCart(cart: Response, owner: Owner, now: int)
      modifies this
      ensures store == old(store)[CacheKey(owner) := Cached(cart, now + CACHE_TTL)]
    {
      store := store[CacheKey(owner) := Cached(cart, now + CACHE_TTL)];
    }

    method InvalidateCart(owner: Owner)
      modifies this
      ensures store == old(store) - {CacheKey(owner)}
    {
      store := store - {CacheKey(owner)};
    }
  }

  /** Tables and cache as one value. */
  function ShopOf(db: Database, cache: CartCacheService): Shop
    reads db, cache
  {
    Shop(db.carts, db.lines, db.nextLine, db.products, cache.store)
  }

  class CartService {
    const db: Database
    const cache: CartCacheService

    constructor (db: Database, cache: CartCacheService)
      ensures this.db == db && this.cache == cache
    {
      this.db := db;
      this.cache := cache;
    }

    method GetOrCreateCart(owner: Owner, now: int) returns (response: Response)
      modifies db, cache
      ensures View(ShopOf(db, cache), response) == Opened(old(ShopOf(db, cache)), owner, now)
    {
      var cachedCart := cache.GetCart(owner, now);
      if cachedCart.Some? {
        return cachedCart.value;
      }
      var found := FindActive(db.carts, owner);
      if found.None? {
        db.carts := db.carts + [NewCart(owner, now)];
        found := FindActive(db.carts, owner);
      }
      response := Response(found.value, db.carts[found.value], LinesOf(db.lines, found.value));
      cache.SetCart(response, owner, now);
    }

    method AddItem(owner: Owner, productId: string, quantity: int, now: int) returns (reply: Reply)
      modifies db, cache
      ensures Outcome(ShopOf(db, cache), reply) == Added(old(ShopOf(db, cache)), owner, productId, quantity, now)
    {
      var cart := GetOrCreateCart(owner, now);
      var refusal := AddToCart(cart.id, productId, quantity, now);
      if refusal.Some? {
        return Refused(refusal.value);
      }
      cache.InvalidateCart(owner);
      var updated := GetOrCreateCart(owner, now);
      return Shown(updated);
    }

    /** The checks and the write of addItem, up to the new totals. */
    method AddToCart(cartId: nat, productId: string, quantity: int, now: int) returns (refusal: Option<Reason>)
      modifies db
      ensures refusal == AddRefusal(old(db.products), productId, HeldQuantity(old(db.lines), cartId, productId),
                                    quantity)
      ensures refusal.Some? ==> ShopOf(db, cache) == old(ShopOf(db, cache))
      ensures refusal.None? ==>
                var added := LinesAdded(old(ShopOf(db, cache)), cartId, productId, quantity);
                ShopOf(db, cache) == Totalled(added, cartId, None, now)
    {
      if productId !in db.products {
        return Some(NotFound);
      }
      var product := db.products[productId];
      if !product.isActive {
        return Some(Unavailable);
      }
      if product.stock < quantity {
        return Some(NoStock);
      }
      var maxQty := MaxQuantity(product);
      if quantity > maxQty {
        return Some(OverLimit);
      }
      ghost var added := LinesAdded(ShopOf(db, cache), cartId, productId, quantity);
      var existingItem := LineAt(db.lines, cartId, productId);
      if existingItem.Some? {
        var newQuantity := db.lines[existingItem.value].quantity + quantity;
        if newQuantity > maxQty {
          return Some(OverLimit);
        }
        if newQuantity > product.stock {
          return Some(NoStock);
        }
        UpdateItemQuantity(cartId, existingItem.value, newQuantity, now);
        TotallingTwice(added, cartId, now);
        assert ShopOf(db, cache) == Totalled(added, cartId, None, now);
      } else {
        var subtotal := product.price * quantity;
        db.lines := db.lines + [Line(db.nextLine, cartId, productId, quantity, product.price, subtotal, 0, subtotal,
                                     true)];
        db.nextLine := db.nextLine + 1;
        assert ShopOf(db, cache) == added;
      }
      var _ := CalculateTotals(cartId, None, now);
      return None;
    }

    /** The line is addressed by its position, found by the caller. */
    method UpdateItemQuantity(cartId: nat, i: nat, quantity: int, now: int)
      requires i < |db.lines|
      modifies db
      ensures ShopOf(db, cache)
           == Totalled(old(ShopOf(db, cache)).(lines := old(db.lines)[i := Requantified(old(db.lines)[i], quantity)]),
                       cartId, None, now)
    {
      var item := db.lines[i];
      var subtotal := item.price * quantity;
      var total := subtotal - item.discount;
      db.lines := db.lines[i := item.(quantity := quantity, subtotal := subtotal, total := total)];
      var _ := CalculateTotals(cartId, None, now);
    }

    method UpdateItem(cartId: nat, itemId: int, quantity: int, now: int) returns (reply: Reply)
      modifies db, cache
      ensures Outcome(ShopOf(db, cache), reply) == ItemUpdated(old(ShopOf(db, cache)), cartId, itemId, quantity, now)
    {
      var found := LineById(db.lines, itemId);
      if found.None? {
        return Refused(NotFound);
      }
      var item := db.lines[found.value];
      if item.cartId != cartId {
        return Refused(NotInCart);
      }
      if item.productId !in db.products || cartId >= |db.carts| {
        return Refused(NotFound);
      }
      var product := db.products[item.productId];
      if quantity > product.stock {
        return Refused(NoStock);
      }
      if quantity > MaxQuantity(product) {
        return Refused(OverLimit);
      }
      UpdateItemQuantity(cartId, found.value, quantity, now);
      cache.InvalidateCart(db.carts[cartId].owner);
      return Shown(Response(cartId, db.carts[cartId], LinesOf(db.lines, cartId)));
    }

    method RemoveItem(cartId: nat, itemId: int, now: int) returns (reply: Reply)
      modifies db, cache
      ensures Outcome(ShopOf(db, cache), reply) == ItemRemoved(old(ShopOf(db, cache)), cartId, itemId, now)
    {
      var found := LineById(db.lines, itemId);
      if found.None? {
        return Refused(NotFound);
      }
      if db.lines[found.value].cartId != cartId {
        return Refused(NotInCart);
      }
      if cartId >= |db.carts| {
        return Refused(NotFound);
      }
      db.lines := db.lines[..found.value] + db.lines[found.value + 1..];
      var _ := CalculateTotals(cartId, None, now);
      cache.InvalidateCart(db.carts[cartId].owner);
      return Done;
    }

    method ClearCart(cartId: nat, now: int) returns (reply: Reply)
      modifies db, cache
      ensures Outcome(ShopOf(db, cache), reply) == Cleared(old(ShopOf(db, cache)), cartId, now)
    {
      if cartId >= |db.carts| {
        return Refused(NotFound);
      }
      db.lines := WithoutCart(db.lines, cartId);
      var cart := db.carts[cartId].(subtotal := 0, tax := 0, discount := 0, total := 0, lastActivityAt := now);
      db.carts := db.carts[cartId := cart];
      cache.InvalidateCart(cart.owner);
      return Done;
    }

    method CalculateTotals(cartId: nat, delivery: Option<Delivery>, now: int) returns (found: bool)
      modifies db
      ensures ShopOf(db, cache) == Totalled(old(ShopOf(db, cache)), cartId, delivery, now)
      ensures found == (cartId < |old(db.carts)|)
    {
      if cartId >= |db.carts| {
        return false;
      }
      var cart := db.carts[cartId];
      var items := LinesOf(db.lines, cartId);
      var subtotal := 0;
      for i := 0 to |items|
        invariant subtotal == SumTotals(items[..i])
      {
        assert items[..i + 1][..i] == items[..i];
        subtotal := subtotal + items[i].total;
      }
      assert items[..|items|] == items;
      var region := if delivery.Some? then RegionOf(delivery.value.region) else NCR;
      var tax := RoundHundredth(subtotal * TaxRate(region));
      var shipping := if delivery.Some? then delivery.value.fee else 0;
      var total := subtotal + tax + shipping - cart.discount;
      db.carts := db.carts[cartId := cart.(subtotal := subtotal, tax := tax, shipping := shipping, total := total,
                                           lastActivityAt := now)];
      return true;
    }

    /** Reports on each line of the cart and flags those that are no longer available. */
    method ValidateCart(cartId: nat) returns (reply: Reply, valid: bool, items: seq<ItemCheck>)
      modifies db
      ensures Outcome(ShopOf(db, cache), reply) == Validated(old(ShopOf(db, cache)), cartId)
      ensures reply.Done? ==> items == ChecksOf(LinesOf(old(db.lines), cartId), db.products)
      ensures reply.Done? ==> (valid <==> AllAsPriced(old(db.lines), cartId, db.products))
    {
      items := [];
      if cartId >= |db.carts| {
        return Refused(NotFound), false, items;
      }
      ghost var before := db.lines;
      items := ChecksOf(LinesOf(db.lines, cartId), db.products);
      for i := 0 to |db.lines|
        invariant |db.lines| == |before| && ShopOf(db, cache) == old(ShopOf(db, cache)).(lines := db.lines)
        invariant forall k :: 0 <= k < i ==> db.lines[k] == FlaggedLine(before[k], cartId, db.products)
        invariant forall k :: i <= k < |before| ==> db.lines[k] == before[k]
      {
        var item := db.lines[i];
        if item.cartId == cartId {
          var isAvailable := Buyable(item, db.products);
          if !isAvailable && item.isAvailable {
            db.lines := db.lines[i := item.(isAvailable := false)];
          }
        }
      }
      assert db.lines == Flagged(before, cartId, db.products);
      valid := forall c <- items :: c.isAvailable && c.prices.None?;
      ValidExactly(before, cartId, db.products);
      return Done, valid, items;
    }

    method MergeGuestCart(userId: string, guestSessionId: string, now: int) returns (reply: Reply, results: Counters)
      modifies db, cache
      ensures Outcome(ShopOf(db, cache), reply) == Merged(old(ShopOf(db, cache)), userId, guestSessionId, now)
      ensures results == MergeCounters(old(ShopOf(db, cache)), userId, guestSessionId, now)
    {
      results := Counters(0, 0, 0);
      var user := UserKey(userId);
      var guestCart := FindActive(db.carts, SessionKey(guestSessionId));
      if guestCart.None? {
        var mine := GetOrCreateCart(user, now);
        return Shown(mine), results;
      }
      var g := guestCart.value;
      var guestItems := LinesOf(db.lines, g);
      if guestItems == [] {
        db.carts := db.carts[g := db.carts[g].(status := MERGED, convertedAt := Some(now))];
        var mine := GetOrCreateCart(user, now);
        return Shown(mine), results;
      }
      var userCart := FindActive(db.carts, user);
      if userCart.None? {
        db.carts := db.carts + [NewCart(user, now)];
        userCart := FindActive(db.carts, user);
      }
      var u := userCart.value;
      ghost var start := Merge(db.lines, db.nextLine, results);
      ghost var ensured := ShopOf(db, cache);
      for i := 0 to |guestItems|
        invariant Merge(db.lines, db.nextLine, results) == MergeAll(start, u, guestItems[..i], db.products)
        invariant ShopOf(db, cache) == ensured.(lines := db.lines, nextLine := db.nextLine)
      {
        assert guestItems[..i + 1][..i] == guestItems[..i];
        results := MergeItem(guestItems[i], u, results);
      }
      assert guestItems[..|guestItems|] == guestItems;
      db.carts := db.carts[g := db.carts[g].(status := MERGED, convertedAt := Some(now))];
      var _ := CalculateTotals(u, None, now);
      cache.InvalidateCart(user);
      cache.InvalidateCart(SessionKey(guestSessionId));
      var merged := GetOrCreateCart(user, now);
      return Shown(merged), results;
    }

    /** The body of the merge loop. */
    method MergeItem(guestItem: Line, userCart: nat, before: Counters) returns (results: Counters)
      modifies db
      ensures Merge(db.lines, db.nextLine, results)
           == MergeOne(Merge(old(db.lines), old(db.nextLine), before), userCart, guestItem, old(db.products))
      ensures db.carts == old(db.carts) && db.products == old(db.products)
    {
      results := before;
      if guestItem.productId !in db.products {
        results := results.(skippedItems := results.skippedItems + 1);
        return;
      }
      var product := db.products[guestItem.productId];
      var existing := LineAt(db.lines, userCart, guestItem.productId);
      if existing.Some? {
        var item := db.lines[existing.value];
        var maxQty := MaxQuantity(product);
        var newQuantity := Min(Min(item.quantity + guestItem.quantity, maxQty), product.stock);
        db.lines := db.lines[existing.value := item.(quantity := newQuantity, subtotal := product.price * newQuantity,
                                                     total := product.price * newQuantity)];
        results := results.(quantitiesMerged := results.quantitiesMerged + 1);
        return;
      }
      if !product.isActive {
        results := results.(skippedItems := results.skippedItems + 1);
        return;
      }
      if product.stock < guestItem.quantity {
        results := results.(skippedItems := results.skippedItems + 1);
        return;
      }
      db.lines := db.lines + [guestItem.(id := db.nextLine, cartId := userCart, isAvailable := true)];
      db.nextLine := db.nextLine + 1;
      results := results.(itemsAdded := results.itemsAdded + 1);
    }
  }

  lemma TotallingTwice(shop: Shop, cartId: nat, now: int)
    ensures Totalled(Totalled(shop, cartId, None, now), cartId, None, now) == Totalled(shop, cartId, None, now)
  {
  }

  /** Every line of the cart can be bought, at an unchanged price. */
  predicate AllAsPriced(lines: seq<Line>, cartId: nat, products: map<string, Product>)
  {
    forall l <- lines :: l.cartId == cartId ==> Buyable(l, products) && products[l.productId].price == l.price
  }

  lemma ValidExactly(lines: seq<Line>, cartId: nat, products: map<string, Product>)
    ensures (forall c <- ChecksOf(LinesOf(lines, cartId), products) :: c.isAvailable && c.prices.None?)
            <==> AllAsPriced(lines, cartId, products)
  {
    var own := LinesOf(lines, cartId);
    var checks := ChecksOf(own, products);
    LinesOfAreThere(lines, cartId);
    if forall c <- checks :: c.isAvailable && c.prices.None? {
      forall l | l in lines && l.cartId == cartId
        ensures Buyable(l, products) && products[l.productId].price == l.price
      {
        var i :| 0 <= i < |own| && own[i] == l;
        assert checks[i] in checks;
      }
    }
    if AllAsPriced(lines, cartId, products) {
      forall i | 0 <= i < |checks| ensures checks[i].isAvailable && checks[i].prices.None? {
        assert own[i] in own;
      }
    }
  }

  /** A cart after the bulk update of the user carts, or of the guest carts. */
  function ExpiredOf(cart: Cart, users: bool, now: int): Cart
  {
    if cart.owner.UserKey? == users then ExpiredCart(cart, now) else cart
  }

  /** Expiring the guest carts leaves the idle user carts. */
  lemma {:induction false} SameIdleCount(before: seq<Cart>, after: seq<Cart>, users: bool, now: int)
    requires |after| == |before|
    requires forall i :: 0 <= i < |before| ==> after[i] == ExpiredOf(before[i], !users, now)
    ensures IdleCount(after, users, now) == IdleCount(before, users, now)
  {
    if before != [] {
      var n := |before| - 1;
      assert after[n] == ExpiredOf(before[n], !users, now);
      SameIdleCount(before[..n], after[..n], users, now);
    }
  }

  class CartSchedulerService {
    const db: Database

    constructor (db: Database)
      ensures this.db == db
    {
      this.db := db;
    }

    /** Guest carts after seven idle days, then user carts after thirty. The cache is left alone. */
    method ExpireInactiveCarts(now: int) returns (expiredGuestCarts: nat, expiredUserCarts: nat, totalExpired: nat)
      modifies db
      ensures db.lines == old(db.lines) && db.nextLine == old(db.nextLine) && db.products == old(db.products)
      ensures |db.carts| == |old(db.carts)|
      ensures forall i :: 0 <= i < |db.carts| ==> db.carts[i] == ExpiredCart(old(db.carts)[i], now)
      ensures expiredGuestCarts == IdleCount(old(db.carts), false, now)
      ensures expiredUserCarts == IdleCount(old(db.carts), true, now)
      ensures totalExpired == expiredGuestCarts + expiredUserCarts
    {
      ghost var before := db.carts;
      expiredGuestCarts := ExpireWhere(now, false, now - 7 * DAY);
      SameIdleCount(before, db.carts, true, now);
      expiredUserCarts := ExpireWhere(now, true, now - 30 * DAY);
      totalExpired := expiredGuestCarts + expiredUserCarts;
    }

    /** One bulk update: the user carts, or the guest carts, last active before their date. */
    method ExpireWhere(now: int, users: bool, date: int) returns (count: nat)
      requires date == now - (if users then 30 else 7) * DAY
      modifies db
      ensures db.lines == old(db.lines) && db.nextLine == old(db.nextLine) && db.products == old(db.products)
      ensures |db.carts| == |old(db.carts)|
      ensures forall i :: 0 <= i < |db.carts| ==> db.carts[i] == ExpiredOf(old(db.carts)[i], users, now)
      ensures count == IdleCount(old(db.carts), users, now)
    {
      count := 0;
      ghost var before := db.carts;
      for i := 0 to |db.carts|
        invariant db.lines == old(db.lines) && db.nextLine == old(db.nextLine) && db.products == old(db.products)
        invariant |db.carts| == |before|
        invariant forall k :: 0 <= k < i ==> db.carts[k] == ExpiredOf(before[k], users, now)
        invariant forall k :: i <= k < |db.carts| ==> db.carts[k] == before[k]
        invariant count == IdleCount(before[..i], users, now)
      {
        assert before[..i + 1][..i] == before[..i];
        var cart := db.carts[i];
        if cart.status == ACTIVE && cart.lastActivityAt < date && cart.owner.UserKey? == users {
          db.carts := db.carts[i := cart.(status := EXPIRED, expiresAt := Some(now))];
          count := count + 1;
        }
      }
      assert before[..|before|] == before;
    }

    method DetectAbandonedCarts(now: int) returns (abandonedCarts: nat)
      modifies db
      ensures db.lines == old(db.lines) && db.nextLine == old(db.nextLine) && db.products == old(db.products)
      ensures |db.carts| == |old(db.carts)|
      ensures forall i :: 0 <= i < |db.carts| ==>
                db.carts[i] == AbandonedCart(old(db.carts)[i], LinesOf(db.lines, i), now)
      ensures abandonedCarts == AbandonedCount(old(db.carts), db.lines, |old(db.carts)|, now)
    {
      abandonedCarts := 0;
      ghost var before := db.carts;
      var threshold := now - 3 * HOUR;
      for i := 0 to |db.carts|
        invariant db.lines == old(db.lines) && db.nextLine == old(db.nextLine) && db.products == old(db.products)
        invariant |db.carts| == |before|
        invariant forall k :: 0 <= k < i ==> db.carts[k] == AbandonedCart(before[k], LinesOf(db.lines, k), now)
        invariant forall k :: i <= k < |before| ==> db.carts[k] == before[k]
        invariant abandonedCarts == AbandonedCount(before, db.lines, i, now)
      {
        CountedOneMore(before, db.lines, i, now);
        var marked := MarkAbandoned(i, threshold, now);
        if marked {
          abandonedCarts := abandonedCarts + 1;
        }
      }
    }

    /** The bulk update, for one cart. */
    method MarkAbandoned(i: nat, threshold: int, now: int) returns (marked: bool)
      requires i < |db.carts| && threshold == now - 3 * HOUR
      modifies db
      ensures db.lines == old(db.lines) && db.nextLine == old(db.nextLine) && db.products == old(db.products)
      ensures db.carts == old(db.carts)[i := AbandonedCart(old(db.carts)[i], LinesOf(db.lines, i), now)]
      ensures marked == Abandoned(old(db.carts)[i], LinesOf(db.lines, i), now)
    {
      var cart := db.carts[i];
      marked := cart.status == ACTIVE && cart.lastActivityAt < threshold && cart.abandonedAt == None
        && LinesOf(db.lines, i) != [];
      if marked {
        db.carts := db.carts[i := cart.(abandonedAt := Some(now))];
      }
    }
  }

  lemma CountedOneMore(carts: seq<Cart>, lines: seq<Line>, i: nat, now: int)
    requires i < |carts|
    ensures AbandonedCount(carts, lines, i + 1, now)
         == AbandonedCount(carts, lines, i, now) + if Abandoned(carts[i], LinesOf(lines, i), now) then 1 else 0
  {
  }
}
