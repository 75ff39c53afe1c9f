/** What the edits of a cart come to: the line they write, the lines they leave alone, the totals and the answer. */
module CartEdits {
  import opened Prelude
  import opened TaxReport
  import opened CartModel
  import opened CartLines
  import opened CartRuns
  import opened CartMerge
  import opened CartCoherence
  import opened CartStale

  /** The lines after an edit of one product in one cart. */
  ghost predicate OnlyProduct(before: seq<Line>, after: seq<Line>, c: nat, productId: string)
  {
    OthersSame(before, after, c) && forall p :: p != productId ==> Held(after, c, p) == Held(before, c, p)
  }

  /** A line charged at its own price. */
  predicate Priced(l: Line)
  {
    l.subtotal == l.price * l.quantity && l.total == l.subtotal - l.discount
  }

  /** The line of a product grew by a quantity; a line that was not there starts at a given price. */
  predicate Grew(before: Option<Line>, after: Option<Line>, quantity: int, price: int)
  {
    && after.Some? && Priced(after.value)
    && match before
       case None => after.value.quantity == quantity && after.value.price == price && after.value.discount == 0
       case Some(l) =>
         && after.value.quantity == l.quantity + quantity
         && after.value.price == l.price && after.value.discount == l.discount
  }

  /** A cart whose row agrees with its lines, taxed as in NCR and not shipped. */
  predicate Settled(shop: Shop, c: nat)
  {
    c < |shop.carts| &&
    var cart := shop.carts[c];
    && cart.subtotal == SumTotals(LinesOf(shop.lines, c)) && cart.tax == Tax(cart.subtotal, NCR) && cart.shipping == 0
    && AddsUp(cart)
  }

  // ---------------------------------------------------------------- adding

  lemma LinesAddedMeans(shop: Shop, c: nat, productId: string, quantity: int)
    requires Sound(shop) && productId in shop.products
    ensures var next := LinesAdded(shop, c, productId, quantity).lines;
            && OnlyProduct(shop.lines, next, c, productId)
            && Grew(Held(shop.lines, c, productId), Held(next, c, productId), quantity, shop.products[productId].price)
  {
    var next := LinesAdded(shop, c, productId, quantity).lines;
    match LineAt(shop.lines, c, productId) {
      case Some(i) =>
        var l := Requantified(shop.lines[i], shop.lines[i].quantity + quantity);
        RewriteOthers(shop.lines, i, l);
        forall p { HeldRewritten(shop.lines, i, l, c, p); }
      case None =>
        var l := NewLine(shop.nextLine, c, productId, quantity, shop.products[productId].price);
        AppendOthers(shop.lines, l);
        forall p { HeldAppended(shop.lines, l, c, p); }
    }
  }

  lemma TotalledSettles(shop: Shop, c: nat, now: int)
    requires c < |shop.carts|
    ensures Settled(Totalled(shop, c, None, now), c)
  {
  }

  /** Nothing is cached for the owner, or the owner's ACTIVE cart is. */
  predicate CachesActive(shop: Shop, owner: Owner, now: int)
  {
    match CachedCart(shop.cache, owner, now)
    case None => true
    case Some(r) => FindActive(shop.carts, owner) == Some(r.id)
  }

  lemma SameActive(carts: seq<Cart>, next: seq<Cart>, owner: Owner)
    requires |next| == |carts| && OneActive(carts)
    requires forall i :: 0 <= i < |carts| ==> next[i].owner == carts[i].owner && next[i].status == carts[i].status
    ensures FindActive(next, owner) == FindActive(carts, owner)
  {
    if FindActive(next, owner).Some? { ActiveIs(carts, FindActive(next, owner).value); }
  }

  /** An owner without an entry is answered with the ACTIVE cart, or with a new and empty one. */
  lemma OpenedAnew(shop: Shop, owner: Owner, now: int)
    requires Sound(shop) && CachedCart(shop.cache, owner, now).None?
    ensures var v, i := Opened(shop, owner, now), FindActive(shop.carts, owner);
            && Current(v.shop, owner, v.cart) && v.shop.lines == shop.lines
            && |shop.carts| <= |v.shop.carts| && v.shop.carts[..|shop.carts|] == shop.carts
            && v.cart.id == (if i.Some? then i.value else |shop.carts|)
            && (i.None? ==> v.cart.items == [])
  {
    EnsuredIsCurrent(shop, owner, now);
    if FindActive(shop.carts, owner).None? {
      forall i | 0 <= i < |shop.lines| ensures shop.lines[i].cartId != |shop.carts| {
        assert LineOk(shop.lines[i], shop.nextLine, |shop.carts|, shop.products);
      }
      NoLines(shop.lines, |shop.carts|);
    }
  }

  /** What writing the line leaves: sound tables, settled totals, no entry for the owner, and the same ACTIVE cart. */
  lemma WrittenLeaves(s: Shop, owner: Owner, productId: string, quantity: int, now: int, c: nat, written: Shop)
    requires Sound(s) && c < |s.carts| && productId in s.products
    requires written == Invalidated(Totalled(LinesAdded(s, c, productId, quantity), c, None, now), owner)
    ensures Sound(written) && Settled(written, c) && |written.carts| == |s.carts|
    ensures CachedCart(written.cache, owner, now).None?
    ensures FindActive(written.carts, owner) == FindActive(s.carts, owner)
  {
    var totalled := Totalled(LinesAdded(s, c, productId, quantity), c, None, now);
    LinesAddedKeeps(s, c, productId, quantity, now);
    InvalidatedKeeps(totalled, owner);
    TotalledSettles(LinesAdded(s, c, productId, quantity), c, now);
    SameActive(s.carts, written.carts, owner);
  }

  /** What is answered from there. */
  lemma SettledAnswers(written: Shop, owner: Owner, now: int, c: nat)
    requires Sound(written) && Settled(written, c) && CachedCart(written.cache, owner, now).None?
    ensures var v, i := Opened(written, owner, now), FindActive(written.carts, owner);
            && Current(v.shop, owner, v.cart) && Settled(v.shop, c)
            && v.cart.id == (if i.Some? then i.value else |written.carts|)
            && (i.None? ==> v.cart.items == [])
  {
    OpenedAnew(written, owner, now);
    assert Opened(written, owner, now).shop.carts[c] == written.carts[c];
  }

  /** The answer of addItem once the line is written. */
  lemma AddedAnew(s: Shop, owner: Owner, productId: string, quantity: int, now: int, c: nat)
    requires Sound(s) && c < |s.carts| && productId in s.products
    ensures var written := Invalidated(Totalled(LinesAdded(s, c, productId, quantity), c, None, now), owner);
            var v, i := Opened(written, owner, now), FindActive(s.carts, owner);
            && Current(v.shop, owner, v.cart) && Settled(v.shop, c)
            && v.cart.id == (if i.Some? then i.value else |s.carts|)
            && (i.None? ==> v.cart.items == [])
  {
    var written := Invalidated(Totalled(LinesAdded(s, c, productId, quantity), c, None, now), owner);
    WrittenLeaves(s, owner, productId, quantity, now, c, written);
    SettledAnswers(written, owner, now, c);
  }

  lemma AddedAnswers(shop: Shop, owner: Owner, productId: string, quantity: int, now: int, start: View)
    requires Sound(shop) && start == Opened(shop, owner, now)
    requires !Added(shop, owner, productId, quantity, now).reply.Refused?
    ensures var o, i := Added(shop, owner, productId, quantity, now), FindActive(start.shop.carts, owner);
            && o.reply.Shown? && Current(o.shop, owner, o.reply.cart) && Settled(o.shop, start.cart.id)
            && o.reply.cart.id == (if i.Some? then i.value else |start.shop.carts|)
            && (i.None? ==> o.reply.cart.items == [])
  {
    OpenedKeeps(shop, owner, now);
    AddedAnew(start.shop, owner, productId, quantity, now, start.cart.id);
  }

  lemma AddedWrites(shop: Shop, owner: Owner, productId: string, quantity: int, now: int, c: nat)
    requires Sound(shop) && c == Opened(shop, owner, now).cart.id
    requires !Added(shop, owner, productId, quantity, now).reply.Refused?
    ensures productId in shop.products
    ensures Added(shop, owner, productId, quantity, now).shop.lines == LinesAdded(shop, c, productId, quantity).lines
  {
    AddedLines(shop, owner, productId, quantity, now);
  }

  lemma StartsActiveExactly(shop: Shop, owner: Owner, now: int)
    ensures var start := Opened(shop, owner, now);
            CachesActive(shop, owner, now) <==> FindActive(start.shop.carts, owner) == Some(start.cart.id)
  {
  }

  /**
   * An add that goes through answers with the cart it wrote to exactly when no other cart is cached for the
   * owner than the ACTIVE one.
   */
  lemma AddAnswersItsCartExactly(shop: Shop, owner: Owner, productId: string, quantity: int, now: int, start: View)
    requires Sound(shop) && start == Opened(shop, owner, now)
    requires !Added(shop, owner, productId, quantity, now).reply.Refused?
    ensures var o := Added(shop, owner, productId, quantity, now);
            && o.reply.Shown?
            && (o.reply.cart.id == start.cart.id <==> FindActive(start.shop.carts, owner) == Some(start.cart.id))
            && (o.reply.cart.id == start.cart.id <==> CachesActive(shop, owner, now))
  {
    AddedAnswers(shop, owner, productId, quantity, now, start);
    StartsActiveExactly(shop, owner, now);
    OpenedKeeps(shop, owner, now);
  }

  /**
   * Whatever was cached, an add that goes through writes one line of the cart it started from: a line
   * that cart had keeps its price and discount and grows, a new one has the price of today; every other
   * line stays and that cart's totals follow. The answer is the owner's ACTIVE cart as it then is. When
   * that is another cart its lines are what they were; when the owner had none it is new and empty.
   */
  lemma AddedMeans(shop: Shop, owner: Owner, productId: string, quantity: int, now: int, start: View)
    requires Sound(shop) && start == Opened(shop, owner, now)
    requires !Added(shop, owner, productId, quantity, now).reply.Refused?
    ensures var o, c := Added(shop, owner, productId, quantity, now), start.cart.id;
            && productId in shop.products && OnlyProduct(shop.lines, o.shop.lines, c, productId)
            && Grew(Held(shop.lines, c, productId), Held(o.shop.lines, c, productId), quantity,
                    shop.products[productId].price)
            && Settled(o.shop, c) && o.reply.Shown? && Current(o.shop, owner, o.reply.cart)
            && (o.reply.cart.id != c ==> o.reply.cart.items == LinesOf(shop.lines, o.reply.cart.id))
            && (FindActive(start.shop.carts, owner).None? ==> o.reply.cart.id != c && o.reply.cart.items == [])
  {
    AddedAnswers(shop, owner, productId, quantity, now, start);
    AddedWrites(shop, owner, productId, quantity, now, start.cart.id);
    LinesAddedMeans(shop, start.cart.id, productId, quantity);
    OpenedKeeps(shop, owner, now);
  }

  /** With a current entry or none, the cart written to is the one answered. */
  lemma AddFromCoherent(shop: Shop, owner: Owner, productId: string, quantity: int, now: int, start: View)
    requires Sound(shop) && CoherentFor(shop, owner, now) && start == Opened(shop, owner, now)
    requires !Added(shop, owner, productId, quantity, now).reply.Refused?
    ensures var o := Added(shop, owner, productId, quantity, now); o.reply.Shown? && o.reply.cart.id == start.cart.id
  {
    AddAnswersItsCartExactly(shop, owner, productId, quantity, now, start);
    if CachedCart(shop.cache, owner, now).Some? { ActiveIs(shop.carts, CachedCart(shop.cache, owner, now).value.id); }
  }

  /**
   * With a cached cart but no ACTIVE one, as expiry leaves it, the line goes to the old cart and the
   * answer is a new, empty one.
   */
  lemma AddBehindExpiry(shop: Shop, owner: Owner, productId: string, quantity: int, now: int)
    requires Sound(shop) && CachedCart(shop.cache, owner, now).Some? && FindActive(shop.carts, owner).None?
    requires !Added(shop, owner, productId, quantity, now).reply.Refused?
    ensures var stale := CachedCart(shop.cache, owner, now).value.id;
            var o := Added(shop, owner, productId, quantity, now);
            && Held(o.shop.lines, stale, productId).Some?
            && o.reply.Shown? && o.reply.cart.id != stale && o.reply.cart.items == []
  {
    AddedMeans(shop, owner, productId, quantity, now, Opened(shop, owner, now));
  }

  /**
   * After any run from empty tables there is no third case: an add that goes through answers with the
   * cart it wrote to if nothing is cached or the cached cart is ACTIVE, and otherwise with a new, empty one.
   */
  lemma AddAfterAnyRun(steps: seq<Step>, owner: Owner, productId: string, quantity: int, now: int, start: View)
    requires start == Opened(RunAll(EMPTY, steps), owner, now)
    requires !Added(RunAll(EMPTY, steps), owner, productId, quantity, now).reply.Refused?
    ensures var shop := RunAll(EMPTY, steps);
            var cached, o := CachedCart(shop.cache, owner, now), Added(shop, owner, productId, quantity, now);
            && o.reply.Shown? && (cached.Some? ==> cached.value.id < |shop.carts|)
            && if cached.None? || shop.carts[cached.value.id].status == ACTIVE then o.reply.cart.id == start.cart.id
               else o.reply.cart.id != start.cart.id && o.reply.cart.items == []
  {
    var shop := RunAll(EMPTY, steps);
    ReachableIsFiled(steps);
    if CachedCart(shop.cache, owner, now).Some? { StaleMeansNone(shop, owner, now); }
    AddAnswersItsCartExactly(shop, owner, productId, quantity, now, start);
    AddedMeans(shop, owner, productId, quantity, now, start);
  }

  // ---------------------------------------------------------------- updating, removing, clearing

  /** An update that goes through writes one line, at its own price; all else as for an add. */
  lemma UpdatedMeans(shop: Shop, c: nat, i: nat, quantity: int, now: int)
    requires Sound(shop) && i < |shop.lines| && !ItemUpdated(shop, c, shop.lines[i].id, quantity, now).reply.Refused?
    ensures var o := ItemUpdated(shop, c, shop.lines[i].id, quantity, now);
            var p := shop.lines[i].productId;
            var after := Held(o.shop.lines, c, p);
            && o.reply == Shown(ResponseOf(o.shop, c)) && Settled(o.shop, c)
            && OnlyProduct(shop.lines, o.shop.lines, c, p)
            && after.Some? && Priced(after.value) && after.value.quantity == quantity
            && after.value.price == shop.lines[i].price && after.value.discount == shop.lines[i].discount
  {
    var l := Requantified(shop.lines[i], quantity);
    UpdatedExactly(shop, c, i, quantity, now);
    TheLine(shop.lines, shop.lines, i);
    RewriteOthers(shop.lines, i, l);
    forall p { HeldRewritten(shop.lines, i, l, c, p); }
    TotalledSettles(shop.(lines := shop.lines[i := l]), c, now);
  }

  lemma {:induction false} HeldRemoved(lines: seq<Line>, i: nat, c: nat, p: string)
    requires i < |lines| && (forall a, b :: 0 <= a < b < |lines| ==> Apart(lines[a], lines[b]))
    ensures Held(lines[..i] + lines[i + 1..], c, p)
         == if c == lines[i].cartId && p == lines[i].productId then None else Held(lines, c, p)
    decreases |lines|
  {
    var n := |lines| - 1;
    var next := lines[..i] + lines[i + 1..];
    HeldAppended(lines[..n], lines[n], c, p);
    assert lines[..n] + [lines[n]] == lines;
    if i < n {
      HeldRemoved(lines[..n], i, c, p);
      var front := lines[..n][..i] + lines[..n][i + 1..];
      assert next == front + [lines[n]];
      HeldAppended(front, lines[n], c, p);
      assert Apart(lines[i], lines[n]);
    } else {
      assert next == lines[..n];
      NotAmong(lines[..n], lines[n]);
    }
  }

  lemma NotAmong(lines: seq<Line>, l: Line)
    requires forall i :: 0 <= i < |lines| ==> Apart(lines[i], l)
    ensures Held(lines, l.cartId, l.productId) == None
  {
  }

  /** A remove that goes through takes out one line of the cart and leaves every other; the totals follow. */
  lemma RemovedMeans(shop: Shop, c: nat, i: nat, now: int)
    requires Sound(shop) && i < |shop.lines|
    ensures var o := ItemRemoved(shop, c, shop.lines[i].id, now);
            && (o.reply.Done? <==> shop.lines[i].cartId == c)
            && (!o.reply.Done? ==> o.shop == shop)
            && (o.reply.Done? ==> && OnlyProduct(shop.lines, o.shop.lines, c, shop.lines[i].productId)
                                  && Held(o.shop.lines, c, shop.lines[i].productId) == None && Settled(o.shop, c))
  {
    var l := shop.lines[i];
    assert LineOk(l, shop.nextLine, |shop.carts|, shop.products);
    var j := LineById(shop.lines, l.id).value;
    if i < j { SharedKey(shop.lines[i], shop.lines[j]); }
    if j < i { SharedKey(shop.lines[j], shop.lines[i]); }
    if l.cartId == c {
      RemoveOthers(shop.lines, i);
      forall p { HeldRemoved(shop.lines, i, c, p); }
      TotalledSettles(shop.(lines := shop.lines[..i] + shop.lines[i + 1..]), c, now);
    }
  }

  /** A clear leaves the cart no lines and every other cart all of its own. */
  lemma ClearedMeans(shop: Shop, c: nat, now: int)
    requires c < |shop.carts|
    ensures var next := Cleared(shop, c, now).shop;
            && LinesOf(next.lines, c) == [] && OthersSame(shop.lines, next.lines, c)
            && next.carts[c].total == next.carts[c].subtotal == 0
            && forall i :: 0 <= i < |shop.carts| && i != c ==> next.carts[i] == shop.carts[i]
  {
    forall k { ClearedOf(shop.lines, c, k); }
  }
}
