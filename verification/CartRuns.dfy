/** What every step of the cart service and its scheduler keeps, and so every run. */
module CartRuns {
  import opened Prelude
  import opened TaxReport
  import opened CartModel
  import opened CartLines

  // ---------------------------------------------------------------- the invariant

  /** At most one ACTIVE cart per owner. */
  predicate OneActive(carts: seq<Cart>)
  {
    forall i, j :: 0 <= i < j < |carts| ==> !BothActive(carts[i], carts[j])
  }

  predicate BothActive(a: Cart, b: Cart)
  {
    a.owner == b.owner && a.status == ACTIVE && b.status == ACTIVE
  }

  /** The total adds up, or the cart was cleared and everything but shipping is zero. */
  predicate Balanced(c: Cart)
  {
    AddsUp(c) || (c.subtotal == 0 && c.tax == 0 && c.discount == 0 && c.total == 0)
  }

  predicate AddsUp(c: Cart)
  {
    c.total == c.subtotal + c.tax + c.shipping - c.discount
  }

  predicate CartOk(carts: seq<Cart>, lines: seq<Line>, i: nat)
    requires i < |carts|
  {
    carts[i].subtotal == SumTotals(LinesOf(lines, i)) && Balanced(carts[i])
  }

  /** Every subtotal is the sum of its line totals. */
  predicate CartsOk(carts: seq<Cart>, lines: seq<Line>)
  {
    forall i :: 0 <= i < |carts| ==> CartOk(carts, lines, i)
  }

  predicate CacheOk(cache: map<string, Cached>, carts: nat)
  {
    forall key :: key in cache ==> cache[key].response.id < carts
  }

  predicate Sound(shop: Shop)
  {
    && LinesOk(shop.lines, shop.nextLine, |shop.carts|, shop.products)
    && OneActive(shop.carts)
    && CartsOk(shop.carts, shop.lines)
    && CacheOk(shop.cache, |shop.carts|)
  }

  /** The same cart later: its owner stays, and MERGED or EXPIRED is final. */
  predicate Continues(a: Cart, b: Cart)
  {
    b.owner == a.owner && (a.status != ACTIVE ==> b.status == a.status)
  }

  predicate AllContinue(before: seq<Cart>, after: seq<Cart>)
  {
    |before| <= |after| && forall i :: 0 <= i < |before| ==> Continues(before[i], after[i])
  }

  predicate Keeps(before: Shop, after: Shop)
  {
    Sound(after) && AllContinue(before.carts, after.carts)
  }

  lemma KeepsTwice(a: Shop, b: Shop, c: Shop)
    requires Keeps(a, b) && Keeps(b, c)
    ensures Keeps(a, c)
  {
  }

  // ---------------------------------------------------------------- opening a cart

  lemma EnsuredKeeps(shop: Shop, owner: Owner, now: int)
    requires Sound(shop)
    ensures Keeps(shop, Ensured(shop, owner, now))
  {
    var n := |shop.carts|;
    var next := Ensured(shop, owner, now);
    if FindActive(shop.carts, owner).None? {
      forall i | 0 <= i < |shop.lines|
        ensures shop.lines[i].cartId != n && LineOk(shop.lines[i], shop.nextLine, n + 1, shop.products)
      {
        assert LineOk(shop.lines[i], shop.nextLine, n, shop.products);
      }
      NoLines(shop.lines, n);
      forall i | 0 <= i < n + 1 ensures CartOk(next.carts, next.lines, i) {
        if i < n { assert CartOk(shop.carts, shop.lines, i); }
      }
    }
  }

  lemma WarmedKeeps(shop: Shop, owner: Owner, response: Response, now: int)
    requires Sound(shop) && response.id < |shop.carts|
    ensures Keeps(shop, Warmed(shop, owner, response, now))
  {
  }

  lemma InvalidatedKeeps(shop: Shop, owner: Owner)
    requires Sound(shop)
    ensures Keeps(shop, Invalidated(shop, owner))
  {
  }

  lemma OpenedKeeps(shop: Shop, owner: Owner, now: int)
    requires Sound(shop)
    ensures var v := Opened(shop, owner, now); Keeps(shop, v.shop) && v.cart.id < |v.shop.carts|
  {
    if CachedCart(shop.cache, owner, now).None? {
      var s := Ensured(shop, owner, now);
      EnsuredKeeps(shop, owner, now);
      var response := ResponseOf(s, FindActive(s.carts, owner).value);
      WarmedKeeps(s, owner, response, now);
      KeepsTwice(shop, s, Warmed(s, owner, response, now));
    }
  }

  // ---------------------------------------------------------------- new totals

  lemma TotalledAddsUp(shop: Shop, cartId: nat, delivery: Option<Delivery>, now: int)
    requires cartId < |shop.carts|
    ensures var c := Totalled(shop, cartId, delivery, now).carts[cartId];
            && AddsUp(c) && c.subtotal == SumTotals(LinesOf(shop.lines, cartId))
            && c.tax == Tax(c.subtotal, if delivery.None? then NCR else RegionOf(delivery.value.region))
            && c.shipping == (if delivery.None? then 0 else delivery.value.fee)
  {
  }

  /** Writes to the lines of one cart followed by new totals for it. */
  lemma WriteKeeps(shop: Shop, written: Shop, cartId: nat, delivery: Option<Delivery>, now: int)
    requires Sound(shop) && cartId < |shop.carts|
    requires written == shop.(lines := written.lines, nextLine := written.nextLine)
    requires LinesOk(written.lines, written.nextLine, |shop.carts|, shop.products)
             && OthersSame(shop.lines, written.lines, cartId)
    ensures Keeps(shop, Totalled(written, cartId, delivery, now))
  {
    var next := Totalled(written, cartId, delivery, now);
    TotalledAddsUp(written, cartId, delivery, now);
    forall i | 0 <= i < |next.carts| ensures CartOk(next.carts, next.lines, i) {
      if i != cartId { assert CartOk(shop.carts, shop.lines, i); }
    }
    forall i, j | 0 <= i < j < |next.carts| ensures !BothActive(next.carts[i], next.carts[j]) {
      assert !BothActive(shop.carts[i], shop.carts[j]);
    }
  }

  lemma TotalledKeeps(shop: Shop, cartId: nat, delivery: Option<Delivery>, now: int)
    requires Sound(shop)
    ensures Keeps(shop, Totalled(shop, cartId, delivery, now))
  {
    if cartId < |shop.carts| { WriteKeeps(shop, shop, cartId, delivery, now); }
  }

  // ---------------------------------------------------------------- the cart's own operations

  lemma LinesAddedKeeps(shop: Shop, cartId: nat, productId: string, quantity: int, now: int)
    requires Sound(shop) && cartId < |shop.carts| && productId in shop.products
    ensures Keeps(shop, Totalled(LinesAdded(shop, cartId, productId, quantity), cartId, None, now))
  {
    var written := LinesAdded(shop, cartId, productId, quantity);
    match LineAt(shop.lines, cartId, productId) {
      case Some(i) =>
        var l := Requantified(shop.lines[i], shop.lines[i].quantity + quantity);
        RewriteOk(shop.lines, i, l, shop.nextLine, |shop.carts|, shop.products);
        RewriteOthers(shop.lines, i, l);
      case None =>
        var l := NewLine(shop.nextLine, cartId, productId, quantity, shop.products[productId].price);
        AppendOk(shop.lines, l, shop.nextLine, |shop.carts|, shop.products);
        AppendOthers(shop.lines, l);
    }
    WriteKeeps(shop, written, cartId, None, now);
  }

  lemma AddedKeeps(shop: Shop, owner: Owner, productId: string, quantity: int, now: int)
    requires Sound(shop)
    ensures Keeps(shop, Added(shop, owner, productId, quantity, now).shop)
  {
    var start := Opened(shop, owner, now);
    var s, cartId := start.shop, start.cart.id;
    OpenedKeeps(shop, owner, now);
    if AddRefusal(s.products, productId, HeldQuantity(s.lines, cartId, productId), quantity).None? {
      var totalled := Totalled(LinesAdded(s, cartId, productId, quantity), cartId, None, now);
      var written := Invalidated(totalled, owner);
      LinesAddedKeeps(s, cartId, productId, quantity, now);
      KeepsTwice(shop, s, totalled);
      InvalidatedKeeps(totalled, owner);
      KeepsTwice(shop, totalled, written);
      OpenedKeeps(written, owner, now);
      KeepsTwice(shop, written, Opened(written, owner, now).shop);
    }
  }

  lemma ItemUpdatedKeeps(shop: Shop, cartId: nat, itemId: int, quantity: int, now: int)
    requires Sound(shop)
    ensures Keeps(shop, ItemUpdated(shop, cartId, itemId, quantity, now).shop)
  {
    if UpdateRefusal(shop, cartId, itemId, quantity).None? {
      var i := LineById(shop.lines, itemId).value;
      var l := Requantified(shop.lines[i], quantity);
      var written := shop.(lines := shop.lines[i := l]);
      RewriteOk(shop.lines, i, l, shop.nextLine, |shop.carts|, shop.products);
      RewriteOthers(shop.lines, i, l);
      WriteKeeps(shop, written, cartId, None, now);
      var totalled := Totalled(written, cartId, None, now);
      InvalidatedKeeps(totalled, totalled.carts[cartId].owner);
    }
  }

  lemma ItemRemovedKeeps(shop: Shop, cartId: nat, itemId: int, now: int)
    requires Sound(shop)
    ensures Keeps(shop, ItemRemoved(shop, cartId, itemId, now).shop)
  {
    var found := LineById(shop.lines, itemId);
    if found.Some? && shop.lines[found.value].cartId == cartId {
      var i := found.value;
      assert LineOk(shop.lines[i], shop.nextLine, |shop.carts|, shop.products);
      var written := shop.(lines := shop.lines[..i] + shop.lines[i + 1..]);
      RemoveOk(shop.lines, i, shop.nextLine, |shop.carts|, shop.products);
      RemoveOthers(shop.lines, i);
      WriteKeeps(shop, written, cartId, None, now);
      var totalled := Totalled(written, cartId, None, now);
      InvalidatedKeeps(totalled, totalled.carts[cartId].owner);
    }
  }

  lemma ClearedKeeps(shop: Shop, cartId: nat, now: int)
    requires Sound(shop)
    ensures Keeps(shop, Cleared(shop, cartId, now).shop)
  {
    if cartId < |shop.carts| {
      var next := Cleared(shop, cartId, now).shop;
      ClearOk(shop.lines, cartId, shop.nextLine, |shop.carts|, shop.products);
      forall i | 0 <= i < |next.carts| ensures CartOk(next.carts, next.lines, i) {
        ClearedOf(shop.lines, cartId, i);
        if i != cartId { assert CartOk(shop.carts, shop.lines, i); }
      }
      forall i, j | 0 <= i < j < |next.carts| ensures !BothActive(next.carts[i], next.carts[j]) {
        assert !BothActive(shop.carts[i], shop.carts[j]);
      }
    }
  }

  lemma ValidatedKeeps(shop: Shop, cartId: nat)
    requires Sound(shop)
    ensures Keeps(shop, Validated(shop, cartId).shop)
  {
    var next := Validated(shop, cartId).shop;
    if cartId < |shop.carts| {
      SameKeysOk(shop.lines, next.lines, shop.nextLine, |shop.carts|, shop.products);
      forall i | 0 <= i < |shop.carts| ensures CartOk(next.carts, next.lines, i) {
        assert CartOk(shop.carts, shop.lines, i);
        FlaggedOf(shop.lines, cartId, shop.products, i);
        FlagsCostNothing(LinesOf(shop.lines, i), cartId, shop.products);
      }
    }
  }

  // ---------------------------------------------------------------- status changes

  /** Carts that keep owner and amounts, and only ever leave ACTIVE. */
  predicate OnlyStatus(a: Cart, b: Cart)
  {
    && Continues(a, b) && (b.status == ACTIVE ==> a.status == ACTIVE)
    && b.subtotal == a.subtotal && b.tax == a.tax && b.shipping == a.shipping && b.discount == a.discount
    && b.total == a.total
  }

  lemma StatusKeeps(shop: Shop, carts: seq<Cart>)
    requires Sound(shop) && |carts| == |shop.carts|
    requires forall i :: 0 <= i < |carts| ==> OnlyStatus(shop.carts[i], carts[i])
    ensures Keeps(shop, shop.(carts := carts))
  {
    forall i | 0 <= i < |carts| ensures CartOk(carts, shop.lines, i) && Continues(shop.carts[i], carts[i]) {
      assert CartOk(shop.carts, shop.lines, i) && OnlyStatus(shop.carts[i], carts[i]);
    }
    forall i, j | 0 <= i < j < |carts| ensures !BothActive(carts[i], carts[j]) {
      assert OnlyStatus(shop.carts[i], carts[i]) && OnlyStatus(shop.carts[j], carts[j])
        && !BothActive(shop.carts[i], shop.carts[j]);
    }
  }

  lemma MarkedMergedKeeps(shop: Shop, g: nat, now: int)
    requires Sound(shop) && g < |shop.carts| && shop.carts[g].status == ACTIVE
    ensures Keeps(shop, shop.(carts := shop.carts[g := MarkedMerged(shop.carts[g], now)]))
  {
    StatusKeeps(shop, shop.carts[g := MarkedMerged(shop.carts[g], now)]);
  }

  lemma SchedulerKeeps(shop: Shop, now: int)
    requires Sound(shop)
    ensures Keeps(shop, Expired(shop, now))
    ensures Keeps(shop, AbandonmentsMarked(shop, now))
  {
    StatusKeeps(shop, Expired(shop, now).carts);
    StatusKeeps(shop, AbandonmentsMarked(shop, now).carts);
  }

  lemma SetProductKeeps(shop: Shop, productId: string, product: Product)
    requires Sound(shop)
    ensures Keeps(shop, shop.(products := shop.products[productId := product]))
  {
  }

  // ---------------------------------------------------------------- merging

  lemma CartsMergedKeeps(shop: Shop, user: Owner, g: nat, now: int)
    requires Sound(shop) && g < |shop.carts| && shop.carts[g].status == ACTIVE
    ensures Keeps(shop, CartsMerged(shop, user, g, now))
  {
    var s := Ensured(shop, user, now);
    var u := FindActive(s.carts, user).value;
    var m := MergeAll(Merge(s.lines, s.nextLine, Counters(0, 0, 0)), u, LinesOf(s.lines, g), s.products);
    EnsuredKeeps(shop, user, now);
    MergeAllOk(Merge(s.lines, s.nextLine, Counters(0, 0, 0)), u, LinesOf(s.lines, g), |s.carts|, s.products);
    var marked := s.(carts := s.carts[g := MarkedMerged(s.carts[g], now)]);
    MarkedMergedKeeps(s, g, now);
    KeepsTwice(shop, s, marked);
    var written := marked.(lines := m.lines, nextLine := m.nextLine);
    WriteKeeps(marked, written, u, None, now);
    KeepsTwice(shop, marked, Totalled(written, u, None, now));
  }

  lemma GuestMergedKeeps(shop: Shop, userId: string, sessionId: string, now: int)
    requires Sound(shop)
    ensures Keeps(shop, GuestMerged(shop, userId, sessionId, now))
  {
    var user, guest := UserKey(userId), SessionKey(sessionId);
    match FindActive(shop.carts, guest)
    case None =>
    case Some(g) =>
      if LinesOf(shop.lines, g) == [] {
        MarkedMergedKeeps(shop, g, now);
      } else {
        CartsMergedKeeps(shop, user, g, now);
        var merged := CartsMerged(shop, user, g, now);
        InvalidatedKeeps(merged, user);
        InvalidatedKeeps(Invalidated(merged, user), guest);
      }
  }

  lemma MergedKeeps(shop: Shop, userId: string, sessionId: string, now: int)
    requires Sound(shop)
    ensures Keeps(shop, Merged(shop, userId, sessionId, now).shop)
  {
    var s := GuestMerged(shop, userId, sessionId, now);
    GuestMergedKeeps(shop, userId, sessionId, now);
    OpenedKeeps(s, UserKey(userId), now);
    KeepsTwice(shop, s, Opened(s, UserKey(userId), now).shop);
  }

  // ---------------------------------------------------------------- every step, every run

  lemma OwnerStepKeeps(shop: Shop, s: Step)
    requires Sound(shop) && (s.Get? || s.Add? || s.Update? || s.Remove? || s.Clear? || s.MergeGuest?)
    ensures Keeps(shop, Run(shop, s))
  {
    match s
    case Get(owner, at) => OpenedKeeps(shop, owner, at);
    case Add(owner, productId, quantity, at) => AddedKeeps(shop, owner, productId, quantity, at);
    case Update(cartId, itemId, quantity, at) => ItemUpdatedKeeps(shop, cartId, itemId, quantity, at);
    case Remove(cartId, itemId, at) => ItemRemovedKeeps(shop, cartId, itemId, at);
    case Clear(cartId, at) => ClearedKeeps(shop, cartId, at);
    case MergeGuest(userId, sessionId, at) => MergedKeeps(shop, userId, sessionId, at);
  }

  /**
   * Every step keeps: at most one ACTIVE cart per owner, at most one line per cart and product,
   * subtotals that are the sums of the line totals, totals that add up unless just cleared;
   * and no cart changes its owner or comes back from MERGED or EXPIRED.
   */
  lemma StepKeeps(shop: Shop, s: Step)
    requires Sound(shop)
    ensures Keeps(shop, Run(shop, s))
  {
    match s
    case Recalculate(cartId, delivery, at) => TotalledKeeps(shop, cartId, delivery, at);
    case Validate(cartId, _) => ValidatedKeeps(shop, cartId);
    case Expire(at) => SchedulerKeeps(shop, at);
    case MarkAbandoned(at) => SchedulerKeeps(shop, at);
    case SetProduct(productId, product, _) => SetProductKeeps(shop, productId, product);
    case _ => OwnerStepKeeps(shop, s);
  }

  lemma KeepsItself(shop: Shop)
    requires Sound(shop)
    ensures Keeps(shop, shop)
  {
  }

  /** The same for every run from a sound shop: MERGED and EXPIRED carts stay so whatever steps follow. */
  lemma {:induction false} RunKeeps(shop: Shop, steps: seq<Step>)
    requires Sound(shop)
    ensures Keeps(shop, RunAll(shop, steps))
    decreases |steps|
  {
    if steps == [] {
      KeepsItself(shop);
    } else {
      var before := RunAll(shop, steps[..|steps| - 1]);
      RunKeeps(shop, steps[..|steps| - 1]);
      StepKeeps(before, steps[|steps| - 1]);
      KeepsTwice(shop, before, RunAll(shop, steps));
    }
  }

  /** A shop with empty tables is sound, so every run from it is. */
  lemma ReachableIsSound(steps: seq<Step>)
    ensures Sound(RunAll(EMPTY, steps))
  {
    RunKeeps(EMPTY, steps);
  }

  // ---------------------------------------------------------------- clearing

  /** After a clear the total adds up exactly when no shipping was left on the cart. */
  lemma ClearedAddsUpExactly(shop: Shop, cartId: nat, now: int)
    requires cartId < |shop.carts|
    ensures AddsUp(Cleared(shop, cartId, now).shop.carts[cartId]) <==> shop.carts[cartId].shipping == 0
  {
  }

  // ---------------------------------------------------------------- stock and limits

  predicate WithinLimits(quantity: int, p: Product)
  {
    quantity <= p.stock && quantity <= MaxQuantity(p)
  }

  lemma AddRefusalExactly(products: map<string, Product>, productId: string, held: Option<int>, quantity: int)
    ensures var wanted := (if held.Some? then held.value else 0) + quantity;
            AddRefusal(products, productId, held, quantity).None? <==>
              productId in products && products[productId].isActive
              && WithinLimits(quantity, products[productId]) && WithinLimits(wanted, products[productId])
  {
  }

  lemma OpenedLeaves(shop: Shop, owner: Owner, now: int)
    ensures var s := Opened(shop, owner, now).shop;
            s.lines == shop.lines && s.nextLine == shop.nextLine && s.products == shop.products
  {
  }

  lemma AddedLines(shop: Shop, owner: Owner, productId: string, quantity: int, now: int)
    ensures var start := Opened(shop, owner, now);
            var o := Added(shop, owner, productId, quantity, now);
            var refusal := AddRefusal(shop.products, productId, HeldQuantity(shop.lines, start.cart.id, productId),
                                      quantity);
            && o.reply.Refused? == refusal.Some?
            && (refusal.Some? ==> o.shop == start.shop)
            && (refusal.None? ==> o.shop.lines == LinesAdded(shop, start.cart.id, productId, quantity).lines)
  {
    var start := Opened(shop, owner, now);
    var s, cartId := start.shop, start.cart.id;
    OpenedLeaves(shop, owner, now);
    if AddRefusal(s.products, productId, HeldQuantity(s.lines, cartId, productId), quantity).None? {
      OpenedLeaves(Invalidated(Totalled(LinesAdded(s, cartId, productId, quantity), cartId, None, now), owner), owner,
                   now);
    }
  }

  /**
   * addItem goes through exactly when the product is on sale and neither the quantity asked for nor
   * the new quantity of the line passes stock or limit; the line then has the new quantity.
   */
  lemma AddedExactly(shop: Shop, owner: Owner, productId: string, quantity: int, now: int, cartId: nat,
                     held: Option<int>, wanted: int)
    requires Sound(shop)
    requires cartId == Opened(shop, owner, now).cart.id && held == HeldQuantity(shop.lines, cartId, productId)
    requires wanted == (if held.Some? then held.value else 0) + quantity
    ensures var o := Added(shop, owner, productId, quantity, now);
            && (!o.reply.Refused? <==> productId in shop.products && shop.products[productId].isActive
                                       && WithinLimits(quantity, shop.products[productId])
                                       && WithinLimits(wanted, shop.products[productId]))
            && HeldQuantity(o.shop.lines, cartId, productId) == if o.reply.Refused? then held else Some(wanted)
  {
    AddedLines(shop, owner, productId, quantity, now);
    OpenedLeaves(shop, owner, now);
    AddRefusalExactly(shop.products, productId, held, quantity);
    if productId in shop.products { LinesAddedHeld(shop, cartId, productId, quantity); }
  }

  lemma LinesAddedHeld(shop: Shop, cartId: nat, productId: string, quantity: int)
    requires Sound(shop) && productId in shop.products
    ensures var held := HeldQuantity(shop.lines, cartId, productId);
            HeldQuantity(LinesAdded(shop, cartId, productId, quantity).lines, cartId, productId)
            == Some((if held.Some? then held.value else 0) + quantity)
  {
    match LineAt(shop.lines, cartId, productId)
    case Some(i) => TheLine(LinesAdded(shop, cartId, productId, quantity).lines, shop.lines, i);
    case None =>
  }

  /** The only line of a cart for a product is found wherever it is. */
  lemma TheLine(next: seq<Line>, lines: seq<Line>, i: nat)
    requires |next| == |lines| && i < |lines|
    requires forall k :: 0 <= k < |lines| ==> SameKeys(lines[k], next[k])
    requires forall a, b :: 0 <= a < b < |lines| ==> Apart(lines[a], lines[b])
    ensures LineAt(next, lines[i].cartId, lines[i].productId) == Some(i)
  {
  }

  lemma SharedKey(a: Line, b: Line)
    requires a.id == b.id || (a.cartId == b.cartId && a.productId == b.productId)
    ensures !Apart(a, b)
  {
  }

  /** updateItem goes through exactly when the line is in the cart and the quantity passes neither stock nor limit. */
  lemma UpdatedExactly(shop: Shop, cartId: nat, i: nat, quantity: int, now: int)
    requires Sound(shop) && i < |shop.lines|
    ensures var l := shop.lines[i];
            var o := ItemUpdated(shop, cartId, l.id, quantity, now);
            && l.productId in shop.products
            && (!o.reply.Refused? <==> l.cartId == cartId && WithinLimits(quantity, shop.products[l.productId]))
            && o.shop.lines == (if o.reply.Refused? then shop.lines else shop.lines[i := Requantified(l, quantity)])
  {
    var l := shop.lines[i];
    assert LineOk(l, shop.nextLine, |shop.carts|, shop.products);
    var j := LineById(shop.lines, l.id).value;
    if i < j { SharedKey(shop.lines[i], shop.lines[j]); }
    if j < i { SharedKey(shop.lines[j], shop.lines[i]); }
  }
}
