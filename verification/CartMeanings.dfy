/** What each cart operation answers and stores, with limits, times and regions spelled out. */
module CartMeanings {
  import opened Prelude
  import opened TaxReport
  import opened CartModel
  import opened CartLines
  import opened CartRuns
  import opened CartMerge
  import opened CartCoherence
  import opened CartEdits

  // ---------------------------------------------------------------- limits

  /** What a product allows: its limit if one is set and not 0, its stock otherwise. */
  predicate IsLimit(limit: int, p: Product)
  {
    match p.maxCartQty
    case None => limit == p.stock
    case Some(m) => limit == if m == 0 then p.stock else m
  }

  /**
   * An add is accepted exactly for a product on sale when asked and resulting quantity are at most the
   * stock and, if a limit is set and not 0, at most the limit.
   */
  lemma AddAcceptedExactly(shop: Shop, owner: Owner, productId: string, quantity: int, now: int, held: int)
    requires held == match Held(shop.lines, Opened(shop, owner, now).cart.id, productId)
                     case Some(l) => l.quantity
                     case None => 0
    ensures !Added(shop, owner, productId, quantity, now).reply.Refused? <==>
              productId in shop.products && Admits(shop.products[productId], held, quantity)
  {
    AddedReason(shop, owner, productId, quantity, now);
  }

  predicate Admits(p: Product, held: int, quantity: int)
  {
    && p.isActive && quantity <= p.stock && held + quantity <= p.stock
    && (p.maxCartQty.Some? && p.maxCartQty.value != 0 ==>
          quantity <= p.maxCartQty.value && held + quantity <= p.maxCartQty.value)
  }

  /** Why an add is refused, in the order of the checks. */
  lemma AddRefusedFor(shop: Shop, owner: Owner, productId: string, quantity: int, now: int, held: Option<int>,
                      limit: int, reply: Reply)
    requires held == match Held(shop.lines, Opened(shop, owner, now).cart.id, productId)
                     case Some(l) => Some(l.quantity)
                     case None => None
    requires productId in shop.products ==> IsLimit(limit, shop.products[productId])
    requires reply == Added(shop, owner, productId, quantity, now).reply
    ensures reply == Refused(NotFound) <==> productId !in shop.products
    ensures productId in shop.products && reply.Refused? ==>
              FirstFailure(reply.reason, shop.products[productId], limit, held, quantity)
  {
    AddedReason(shop, owner, productId, quantity, now);
    assert HeldQuantity(shop.lines, Opened(shop, owner, now).cart.id, productId) == held;
    if productId in shop.products {
      ReasonIsFirst(shop.products, productId, limit, held, quantity);
    }
  }

  /** Not on sale; then out of stock or over the limit for what is asked; then the same for the sum, limit first. */
  predicate FirstFailure(reason: Reason, p: Product, limit: int, held: Option<int>, quantity: int)
  {
    match reason
    case Unavailable => !p.isActive
    case NoStock =>
      && p.isActive
      && (p.stock < quantity || (quantity <= limit && held.Some? && p.stock < held.value + quantity <= limit))
    case OverLimit =>
      && p.isActive && quantity <= p.stock
      && (limit < quantity || (held.Some? && limit < held.value + quantity))
    case _ => false
  }

  lemma ReasonIsFirst(products: map<string, Product>, productId: string, limit: int, held: Option<int>, quantity: int)
    requires productId in products && IsLimit(limit, products[productId])
    ensures var refusal := AddRefusal(products, productId, held, quantity);
            refusal.Some? ==> FirstFailure(refusal.value, products[productId], limit, held, quantity)
  {
  }

  lemma AddedReason(shop: Shop, owner: Owner, productId: string, quantity: int, now: int)
    ensures var refusal := AddRefusal(shop.products, productId,
                                      HeldQuantity(shop.lines, Opened(shop, owner, now).cart.id, productId), quantity);
            var reply := Added(shop, owner, productId, quantity, now).reply;
            if refusal.Some? then reply == Refused(refusal.value) else reply.Shown?
  {
    OpenedLeaves(shop, owner, now);
  }

  /**
   * An update is accepted exactly when the line is the cart's and the quantity is at most the stock and,
   * if a limit is set and not 0, at most the limit; otherwise the first check that fails says why.
   */
  lemma UpdateAcceptedExactly(shop: Shop, c: nat, i: nat, quantity: int, now: int)
    requires Sound(shop) && i < |shop.lines|
    ensures shop.lines[i].productId in shop.products
    ensures var reply := ItemUpdated(shop, c, shop.lines[i].id, quantity, now).reply;
            var p := shop.products[shop.lines[i].productId];
            && (!reply.Refused? <==>
                  && shop.lines[i].cartId == c && quantity <= p.stock
                  && (p.maxCartQty.Some? && p.maxCartQty.value != 0 ==> quantity <= p.maxCartQty.value))
            && (reply == Refused(NotInCart) <==> shop.lines[i].cartId != c)
            && (reply == Refused(NoStock) <==> shop.lines[i].cartId == c && quantity > p.stock)
            && (reply.Refused? && shop.lines[i].cartId == c && quantity <= p.stock ==> reply == Refused(OverLimit))
  {
    UpdatedExactly(shop, c, i, quantity, now);
    TheId(shop, i);
  }

  lemma TheId(shop: Shop, i: nat)
    requires Sound(shop) && i < |shop.lines|
    ensures LineById(shop.lines, shop.lines[i].id) == Some(i)
    ensures LineOk(shop.lines[i], shop.nextLine, |shop.carts|, shop.products)
  {
    var j := LineById(shop.lines, shop.lines[i].id).value;
    if i < j { SharedKey(shop.lines[i], shop.lines[j]); }
    if j < i { SharedKey(shop.lines[j], shop.lines[i]); }
  }

  /** An id no line has is not found, for an update or a removal; a line of another cart is turned down. */
  lemma NoSuchLine(shop: Shop, c: nat, itemId: int, quantity: int, now: int)
    requires forall l <- shop.lines :: l.id != itemId
    ensures ItemUpdated(shop, c, itemId, quantity, now) == Outcome(shop, Refused(NotFound))
    ensures ItemRemoved(shop, c, itemId, now) == Outcome(shop, Refused(NotFound))
  {
  }

  lemma ForeignLine(shop: Shop, c: nat, i: nat, now: int)
    requires Sound(shop) && i < |shop.lines| && shop.lines[i].cartId != c
    ensures ItemRemoved(shop, c, shop.lines[i].id, now) == Outcome(shop, Refused(NotInCart))
  {
    TheId(shop, i);
  }

  // ---------------------------------------------------------------- merging

  /** The least of sum, stock and limit, at the price of today; the rest as the user's line had it. */
  predicate TopsUp(mine: Line, guests: Line, p: Product, after: Line)
  {
    && after.quantity <= mine.quantity + guests.quantity && after.quantity <= p.stock
    && (p.maxCartQty.Some? && p.maxCartQty.value != 0 ==> after.quantity <= p.maxCartQty.value)
    && (|| after.quantity == mine.quantity + guests.quantity || after.quantity == p.stock
        || (p.maxCartQty.Some? && p.maxCartQty.value != 0 && after.quantity == p.maxCartQty.value))
    && after.subtotal == p.price * after.quantity && after.total == p.price * after.quantity
    && after.price == mine.price && after.discount == mine.discount && after.isAvailable == mine.isAvailable
    && after.productId == mine.productId && after.cartId == mine.cartId
  }

  /** The line as the guest had it, now in cart u and available. */
  predicate CopyOf(guests: Line, u: nat, after: Line)
  {
    && after.productId == guests.productId && after.cartId == u && after.isAvailable
    && after.quantity == guests.quantity && after.price == guests.price && after.subtotal == guests.subtotal
    && after.discount == guests.discount && after.total == guests.total
  }

  lemma BothHeld(mine: Line, guests: Line, products: map<string, Product>, u: nat)
    requires guests.productId in products
    ensures var after := MergedHeld(Some(mine), Some(guests), products, u);
            after.Some? && TopsUp(mine, guests, products[guests.productId], after.value)
  {
  }

  lemma OnlyGuestHeld(guests: Line, products: map<string, Product>, u: nat)
    requires guests.productId in products
    ensures var after, p := MergedHeld(None, Some(guests), products, u), products[guests.productId];
            && (after.Some? <==> p.isActive && p.stock >= guests.quantity)
            && (after.Some? ==> CopyOf(guests, u, after.value))
  {
  }

  lemma HeldAfterMerge(shop: Shop, userId: string, sessionId: string, now: int, u: nat, g: nat, p: string)
    requires Sound(shop) && FindActive(Ensured(shop, UserKey(userId), now).carts, UserKey(userId)) == Some(u)
    requires FindActive(shop.carts, SessionKey(sessionId)) == Some(g) && Held(shop.lines, g, p).Some?
    ensures Held(Run(shop, MergeGuest(userId, sessionId, now)).lines, u, p)
         == MergedHeld(Held(shop.lines, u, p), Held(shop.lines, g, p), shop.products, u)
    ensures Held(shop.lines, g, p).value.productId == p && p in shop.products
  {
    GuestHasLines(shop, g, p);
    MergeMeans(shop, userId, sessionId, g, now, p);
  }

  lemma GuestHasLines(shop: Shop, g: nat, p: string)
    requires Sound(shop) && Held(shop.lines, g, p).Some?
    ensures LinesOf(shop.lines, g) != []
    ensures Held(shop.lines, g, p).value.productId == p && p in shop.products
  {
    LinesOfAreThere(shop.lines, g);
    var i := LineAt(shop.lines, g, p).value;
    assert shop.lines[i] in shop.lines && shop.lines[i] in LinesOf(shop.lines, g);
    TheId(shop, i);
  }

  /** What becomes of a product both carts held. */
  lemma MergedQuantityMeans(shop: Shop, userId: string, sessionId: string, now: int, u: nat, g: nat, p: string,
                            mine: Line, guests: Line, after: Option<Line>)
    requires Sound(shop) && FindActive(Ensured(shop, UserKey(userId), now).carts, UserKey(userId)) == Some(u)
    requires FindActive(shop.carts, SessionKey(sessionId)) == Some(g)
    requires Held(shop.lines, u, p) == Some(mine) && Held(shop.lines, g, p) == Some(guests)
    requires after == Held(Run(shop, MergeGuest(userId, sessionId, now)).lines, u, p)
    ensures p in shop.products && after.Some? && TopsUp(mine, guests, shop.products[p], after.value)
  {
    HeldAfterMerge(shop, userId, sessionId, now, u, g, p);
    BothHeld(mine, guests, shop.products, u);
  }

  /** A product only the guest held is copied as it is if on sale and in stock, and else left out. */
  lemma CopiedLineMeans(shop: Shop, userId: string, sessionId: string, now: int, u: nat, g: nat, p: string,
                        guests: Line, after: Option<Line>)
    requires Sound(shop) && FindActive(Ensured(shop, UserKey(userId), now).carts, UserKey(userId)) == Some(u)
    requires FindActive(shop.carts, SessionKey(sessionId)) == Some(g)
    requires Held(shop.lines, u, p) == None && Held(shop.lines, g, p) == Some(guests)
    requires after == Held(Run(shop, MergeGuest(userId, sessionId, now)).lines, u, p)
    ensures p in shop.products
    ensures after.Some? <==> shop.products[p].isActive && shop.products[p].stock >= guests.quantity
    ensures after.Some? ==> CopyOf(guests, u, after.value)
  {
    HeldAfterMerge(shop, userId, sessionId, now, u, g, p);
    OnlyGuestHeld(guests, shop.products, u);
  }

  /** A product the guest did not hold stays as the user held it. */
  lemma OtherLinesStay(shop: Shop, userId: string, sessionId: string, now: int, u: nat, p: string)
    requires Sound(shop) && FindActive(Ensured(shop, UserKey(userId), now).carts, UserKey(userId)) == Some(u)
    requires var g := FindActive(shop.carts, SessionKey(sessionId)); g.Some? ==> Held(shop.lines, g.value, p).None?
    ensures Held(Run(shop, MergeGuest(userId, sessionId, now)).lines, u, p) == Held(shop.lines, u, p)
  {
    match FindActive(shop.carts, SessionKey(sessionId))
    case None => OpenedLeaves(shop, UserKey(userId), now);
    case Some(g) =>
      if LinesOf(shop.lines, g) != [] {
        MergeMeans(shop, userId, sessionId, g, now, p);
      } else {
        OpenedLeaves(GuestMerged(shop, userId, sessionId, now), UserKey(userId), now);
      }
  }

  /** Without a guest cart nothing is counted. */
  lemma NothingToMerge(shop: Shop, userId: string, sessionId: string, now: int)
    requires forall c <- shop.carts :: c.owner != SessionKey(sessionId) || c.status != ACTIVE
    ensures var counters := MergeCounters(shop, userId, sessionId, now);
            counters.itemsAdded == 0 && counters.quantitiesMerged == 0 && counters.skippedItems == 0
  {
  }

  /** The guest's row is marked and otherwise as it was. */
  lemma GuestRowMeans(shop: Shop, userId: string, sessionId: string, now: int, g: nat)
    requires Sound(shop) && FindActive(shop.carts, SessionKey(sessionId)) == Some(g)
    ensures var next := Run(shop, MergeGuest(userId, sessionId, now)).carts;
            && g < |next| && next[g].status == MERGED && next[g].convertedAt == Some(now)
            && next[g].(status := ACTIVE, convertedAt := shop.carts[g].convertedAt) == shop.carts[g]
  {
    GuestRowMarked(shop, userId, sessionId, now, g);
    OpenedKeepsRows(GuestMerged(shop, userId, sessionId, now), UserKey(userId), now);
  }

  lemma GuestRowMarked(shop: Shop, userId: string, sessionId: string, now: int, g: nat)
    requires FindActive(shop.carts, SessionKey(sessionId)) == Some(g)
    ensures var next := GuestMerged(shop, userId, sessionId, now).carts;
            g < |next| && next[g] == shop.carts[g].(status := MERGED, convertedAt := Some(now))
  {
  }

  lemma OpenedKeepsRows(shop: Shop, owner: Owner, now: int)
    ensures var carts := Opened(shop, owner, now).shop.carts;
            |shop.carts| <= |carts| && forall i :: 0 <= i < |shop.carts| ==> carts[i] == shop.carts[i]
  {
  }

  // ---------------------------------------------------------------- totals

  /** A letter in either case; the names are in capitals. */
  predicate SameLetter(c: char, capital: char)
  {
    c == capital || ('a' <= c <= 'z' && c as int - 'a' as int == capital as int - 'A' as int)
  }

  predicate SpelledAt(text: string, i: nat, name: string)
  {
    i + |name| <= |text| && forall k :: 0 <= k < |name| ==> SameLetter(text[i + k], name[k])
  }

  predicate Spells(text: string, name: string)
  {
    exists i :: 0 <= i <= |text| && SpelledAt(text, i, name)
  }

  predicate AllCapital(name: string)
  {
    forall k :: 0 <= k < |name| ==> !('a' <= name[k] <= 'z')
  }

  lemma {:induction false} UpperAt(text: string)
    ensures |Upper(text)| == |text|
    ensures forall k, capital: char :: 0 <= k < |text| && !('a' <= capital <= 'z') ==>
              (Upper(text)[k] == capital <==> SameLetter(text[k], capital))
  {
    if text != [] { UpperAt(text[1..]); }
  }

  lemma {:induction false} ContainsExactly(s: string, t: string)
    ensures Contains(s, t) <==> exists i :: 0 <= i <= |s| && t <= s[i..]
  {
    if t <= s {
      assert t <= s[0..];
    } else if s != [] {
      ContainsExactly(s[1..], t);
      if Contains(s[1..], t) {
        var i :| 0 <= i <= |s[1..]| && t <= s[1..][i..];
        assert s[i + 1..] == s[1..][i..];
      }
      if exists i :: 0 <= i <= |s| && t <= s[i..] {
        var i :| 0 <= i <= |s| && t <= s[i..];
        assert i != 0 by { assert s[0..] == s; }
        assert s[i..] == s[1..][i - 1..];
      }
    } else {
      assert s[0..] == s;
    }
  }

  lemma PrefixIsSpelled(up: string, text: string, name: string, i: nat)
    requires |up| == |text| && i <= |text| && AllCapital(name)
    requires forall k, capital: char :: 0 <= k < |text| && !('a' <= capital <= 'z') ==>
               (up[k] == capital <==> SameLetter(text[k], capital))
    ensures name <= up[i..] <==> SpelledAt(text, i, name)
  {
    if name <= up[i..] {
      forall k | 0 <= k < |name| ensures SameLetter(text[i + k], name[k]) {
        assert up[i + k] == up[i..][k] == name[k];
      }
    }
    if SpelledAt(text, i, name) {
      forall k | 0 <= k < |name| ensures up[i..][k] == name[k] { assert SameLetter(text[i + k], name[k]); }
      assert up[i..][..|name|] == name;
    }
  }

  lemma SpelledExactly(text: string, name: string)
    requires AllCapital(name)
    ensures Contains(Upper(text), name) <==> Spells(text, name)
  {
    var up := Upper(text);
    UpperAt(text);
    ContainsExactly(up, name);
    forall i: nat | i <= |text| ensures name <= up[i..] <==> SpelledAt(text, i, name) {
      PrefixIsSpelled(up, text, name, i);
    }
  }

  /** The text names the capital region, in any case. */
  predicate NamesCapital(text: string)
  {
    Spells(text, "NCR") || Spells(text, "METRO MANILA") || Spells(text, "NATIONAL CAPITAL")
  }

  /**
   * A recalculation for delivery: 12 percent tax exactly when the region names the capital, else 10; the
   * fee as shipping, and the total of them all. Nothing else of the row changes.
   */
  lemma DeliveryMeans(shop: Shop, c: nat, region: string, fee: int, now: int)
    requires c < |shop.carts|
    ensures var before, after := shop.carts[c], Totalled(shop, c, Some(Delivery(region, fee)), now).carts[c];
            && after.subtotal == SumTotals(LinesOf(shop.lines, c))
            && after.tax == RoundHundredth(after.subtotal * if NamesCapital(region) then 12 else 10)
            && after.shipping == fee && after.total == after.subtotal + after.tax + fee - before.discount
            && SameButTotals(before, after, now)
  {
    SpelledExactly(region, "NCR");
    SpelledExactly(region, "METRO MANILA");
    SpelledExactly(region, "NATIONAL CAPITAL");
  }

  /** Without an address: 12 percent and no shipping. */
  lemma NoAddressMeans(shop: Shop, c: nat, now: int)
    requires c < |shop.carts|
    ensures var before, after := shop.carts[c], Totalled(shop, c, None, now).carts[c];
            && after.subtotal == SumTotals(LinesOf(shop.lines, c)) && after.tax == RoundHundredth(after.subtotal * 12)
            && after.shipping == 0 && after.total == after.subtotal + after.tax - before.discount
            && SameButTotals(before, after, now)
  {
  }

  predicate SameButTotals(before: Cart, after: Cart, now: int)
  {
    && after.lastActivityAt == now && after.owner == before.owner && after.status == before.status
    && after.discount == before.discount && after.expiresAt == before.expiresAt
    && after.abandonedAt == before.abandonedAt && after.convertedAt == before.convertedAt
  }

  /** The lines of a cart are those with its id, in table order; their totals are summed one by one. */
  lemma LinesAndSums(lines: seq<Line>, l: Line, c: nat)
    ensures LinesOf([], c) == [] && LinesOf(lines + [l], c) == LinesOf(lines, c) + if l.cartId == c then [l] else []
    ensures SumTotals([]) == 0 && SumTotals(lines + [l]) == SumTotals(lines) + l.total
  {
    assert (lines + [l])[..|lines|] == lines;
  }

  /** A clear zeroes four amounts and notes the time; every other column stays, shipping among them. */
  lemma ClearedRowMeans(shop: Shop, c: nat, now: int)
    ensures c >= |shop.carts| ==> Cleared(shop, c, now) == Outcome(shop, Refused(NotFound))
    ensures c < |shop.carts| ==>
              var before, o := shop.carts[c], Cleared(shop, c, now);
              && o.reply == Done && |o.shop.carts| == |shop.carts|
              && var after := o.shop.carts[c];
                 && after.subtotal == 0 && after.tax == 0 && after.total == 0 && after.discount == 0
                 && after.shipping == before.shipping && SameButTotals(before.(discount := 0), after, now)
  {
  }

  // ---------------------------------------------------------------- the cache

  function KeyOf(owner: Owner): string
  {
    match owner
    case UserKey(id) => "cart:user:" + id
    case SessionKey(id) => "cart:session:" + id
  }

  predicate IsLive(shop: Shop, owner: Owner, now: int)
  {
    KeyOf(owner) in shop.cache && now < shop.cache[KeyOf(owner)].expiresAt
  }

  /**
   * Opening a cart: a live entry is answered and nothing changes; otherwise the ACTIVE row, or a new
   * empty one, is answered and cached for 24 hours.
   */
  lemma OpenedMeans(shop: Shop, owner: Owner, now: int)
    ensures var v := Opened(shop, owner, now);
            && (IsLive(shop, owner, now) ==> v == View(shop, shop.cache[KeyOf(owner)].response))
            && (!IsLive(shop, owner, now) ==>
                  && v.shop.cache == shop.cache[KeyOf(owner) := Cached(v.cart, now + 86400000)]
                  && v.cart.id < |v.shop.carts| && v.cart.cart == v.shop.carts[v.cart.id]
                  && v.cart.cart.owner == owner && v.cart.cart.status == ACTIVE
                  && v.cart.items == LinesOf(shop.lines, v.cart.id)
                  && ((exists c <- shop.carts :: c.owner == owner && c.status == ACTIVE) ==> v.shop.carts == shop.carts)
                  && ((forall c <- shop.carts :: c.owner != owner || c.status != ACTIVE) ==>
                        v.shop.carts == shop.carts + [EmptyCart(owner, now)]))
  {
    assert KeyOf(owner) == CacheKey(owner);
    if FindActive(shop.carts, owner).Some? {
      assert shop.carts[FindActive(shop.carts, owner).value] in shop.carts;
    }
  }

  function EmptyCart(owner: Owner, now: int): (c: Cart)
    ensures c.owner == owner && c.status == ACTIVE && c.lastActivityAt == now
    ensures c.subtotal == 0 && c.tax == 0 && c.shipping == 0 && c.discount == 0 && c.total == 0
    ensures c.expiresAt.None? && c.abandonedAt.None? && c.convertedAt.None?
  {
    Cart(owner, ACTIVE, 0, 0, 0, 0, 0, now, None, None, None)
  }

  // ---------------------------------------------------------------- the scheduler

  /** ACTIVE and not touched for seven days as a guest's cart, thirty as a user's. */
  predicate Forgotten(c: Cart, now: int)
  {
    c.status == ACTIVE && now - c.lastActivityAt > if c.owner.SessionKey? then 604800000 else 2592000000
  }

  /** Expiry marks exactly those, with the time, and counts them by kind. */
  lemma ExpiryMeans(shop: Shop, now: int, i: nat)
    ensures Expired(shop, now) == shop.(carts := Expired(shop, now).carts)
    ensures |Expired(shop, now).carts| == |shop.carts|
    ensures i < |shop.carts| ==>
              Expired(shop, now).carts[i] == if Forgotten(shop.carts[i], now)
                                             then shop.carts[i].(status := EXPIRED, expiresAt := Some(now))
                                             else shop.carts[i]
  {
  }

  /** The positions before n at which a row is forgotten, and of the kind asked for. */
  function ForgottenAt(carts: seq<Cart>, users: bool, now: int, n: nat): set<nat>
    requires n <= |carts|
  {
    set i: nat | i < n && Forgotten(carts[i], now) && carts[i].owner.UserKey? == users
  }

  lemma {:induction false} ExpiryCounts(carts: seq<Cart>, users: bool, now: int)
    ensures IdleCount(carts, users, now) == |ForgottenAt(carts, users, now, |carts|)|
  {
    if carts != [] {
      var n := |carts| - 1;
      ExpiryCounts(carts[..n], users, now);
      var before := ForgottenAt(carts[..n], users, now, n);
      assert before == ForgottenAt(carts, users, now, n);
      IdleIsForgotten(carts[n], now);
      if Forgotten(carts[n], now) && carts[n].owner.UserKey? == users {
        assert ForgottenAt(carts, users, now, n + 1) == before + {n};
      } else {
        assert ForgottenAt(carts, users, now, n + 1) == before;
      }
    }
  }

  lemma IdleIsForgotten(c: Cart, now: int)
    ensures Idle(c, now) <==> Forgotten(c, now)
  {
  }

  /** ACTIVE, with lines, without a mark, and not touched for three hours. */
  predicate LeftBehind(c: Cart, lines: seq<Line>, now: int)
  {
    c.status == ACTIVE && now - c.lastActivityAt > 10800000 && c.abandonedAt.None? && |lines| > 0
  }

  lemma AbandonmentMeans(shop: Shop, now: int, i: nat)
    ensures AbandonmentsMarked(shop, now) == shop.(carts := AbandonmentsMarked(shop, now).carts)
    ensures |AbandonmentsMarked(shop, now).carts| == |shop.carts|
    ensures i < |shop.carts| ==>
              AbandonmentsMarked(shop, now).carts[i] == if LeftBehind(shop.carts[i], LinesOf(shop.lines, i), now)
                                                        then shop.carts[i].(abandonedAt := Some(now)) else shop.carts[i]
  {
  }

  /** The positions before n at which a row is left behind. */
  function LeftAt(carts: seq<Cart>, lines: seq<Line>, now: int, n: nat): set<nat>
    requires n <= |carts|
  {
    set i: nat | i < n && LeftBehind(carts[i], LinesOf(lines, i), now)
  }

  lemma {:induction false} AbandonmentCounts(carts: seq<Cart>, lines: seq<Line>, n: nat, now: int)
    requires n <= |carts|
    ensures AbandonedCount(carts, lines, n, now) == |LeftAt(carts, lines, now, n)|
  {
    if n > 0 {
      var k := n - 1;
      AbandonmentCounts(carts, lines, k, now);
      AbandonedIsLeftBehind(carts[k], LinesOf(lines, k), now);
      if LeftBehind(carts[k], LinesOf(lines, k), now) {
        assert LeftAt(carts, lines, now, n) == LeftAt(carts, lines, now, k) + {k};
      } else {
        assert LeftAt(carts, lines, now, n) == LeftAt(carts, lines, now, k);
      }
    }
  }

  lemma AbandonedIsLeftBehind(c: Cart, lines: seq<Line>, now: int)
    ensures Abandoned(c, lines, now) <==> LeftBehind(c, lines, now)
  {
  }

  // ---------------------------------------------------------------- validation

  /** The product is on sale and in stock for the line's quantity. */
  predicate Sellable(l: Line, products: map<string, Product>)
  {
    l.productId in products && products[l.productId].isActive && l.quantity <= products[l.productId].stock
  }

  /** A validation takes the flag from exactly the lines of the cart that cannot be sold, and changes nothing else. */
  lemma ValidationMeans(shop: Shop, c: nat, i: nat)
    requires i < |shop.lines|
    ensures var o := Validated(shop, c);
            && (o.reply == Refused(NotFound) <==> c >= |shop.carts|) && (o.reply == Done <==> c < |shop.carts|)
            && (c >= |shop.carts| ==> o.shop == shop)
            && o.shop == shop.(lines := o.shop.lines) && |o.shop.lines| == |shop.lines|
            && (c < |shop.carts| ==>
                  o.shop.lines[i] == if shop.lines[i].cartId == c && !Sellable(shop.lines[i], shop.products)
                                     then shop.lines[i].(isAvailable := false) else shop.lines[i])
  {
  }

  /**
   * What is reported of a line: its availability, quantity and stock, none without a product, and both
   * prices exactly when they differ.
   */
  lemma CheckReports(l: Line, products: map<string, Product>)
    ensures var r := CheckOf(l, products);
            && r.itemId == l.id && r.productId == l.productId && r.requestedQuantity == l.quantity
            && (r.isAvailable <==> Sellable(l, products))
            && r.currentStock == (if l.productId in products then products[l.productId].stock else 0)
            && (r.prices.Some? <==> l.productId in products && products[l.productId].price != l.price)
            && (r.prices.Some? ==> r.prices.value == (l.price, products[l.productId].price))
  {
  }
}
