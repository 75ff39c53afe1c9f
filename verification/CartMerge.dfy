/** What merging a guest's cart into a user's cart comes to, product by product. */
module CartMerge {
  import opened Prelude
  import opened TaxReport
  import opened CartModel
  import opened CartLines
  import opened CartRuns

  // ---------------------------------------------------------------- the line of a product

  /** The line a cart has for a product, its id aside. */
  function Held(lines: seq<Line>, cartId: nat, productId: string): Option<Line>
  {
    match LineAt(lines, cartId, productId)
    case Some(i) => Some(lines[i].(id := 0))
    case None => None
  }

  lemma {:induction false} SamePlaces(lines: seq<Line>, next: seq<Line>, c: nat, p: string)
    requires |next| == |lines| && forall i :: 0 <= i < |lines| ==> SameKeys(lines[i], next[i])
    ensures LineAt(next, c, p) == LineAt(lines, c, p)
    decreases |lines|
  {
    if lines != [] {
      var n := |lines| - 1;
      assert SameKeys(lines[n], next[n]);
      SamePlaces(lines[..n], next[..n], c, p);
    }
  }

  lemma HeldRewritten(lines: seq<Line>, i: nat, l: Line, c: nat, p: string)
    requires i < |lines| && SameKeys(lines[i], l) && LineAt(lines, l.cartId, l.productId) == Some(i)
    ensures Held(lines[i := l], c, p)
         == if c == l.cartId && p == l.productId then Some(l.(id := 0)) else Held(lines, c, p)
  {
    SamePlaces(lines, lines[i := l], c, p);
  }

  lemma HeldAppended(lines: seq<Line>, l: Line, c: nat, p: string)
    ensures Held(lines + [l], c, p)
         == if c == l.cartId && p == l.productId then Some(l.(id := 0)) else Held(lines, c, p)
  {
  }

  lemma {:induction false} HeldAmongOwn(lines: seq<Line>, c: nat, p: string)
    ensures Held(LinesOf(lines, c), c, p) == Held(lines, c, p)
  {
    if lines != [] {
      var n := |lines| - 1;
      HeldAmongOwn(lines[..n], c, p);
      var front := LinesOf(lines[..n], c);
      assert front + [] == front;
      HeldAppended(front, lines[n], c, p);
      HeldAppended(lines[..n], lines[n], c, p);
      assert lines[..n] + [lines[n]] == lines;
    }
  }

  // ---------------------------------------------------------------- the formula

  /** What the user holds of a product after the merge, from what user and guest held before. */
  function MergedHeld(mine: Option<Line>, guests: Option<Line>, products: map<string, Product>, u: nat): Option<Line>
  {
    if guests.None? || guests.value.productId !in products then mine
    else
      var g, p := guests.value, products[guests.value.productId];
      if mine.Some? then Some(MergedLine(mine.value, g, p))
      else if p.isActive && p.stock >= g.quantity then Some(CopiedLine(g, 0, u))
      else None
  }

  lemma MergeOneHeld(m: Merge, u: nat, guest: Line, products: map<string, Product>, p: string)
    ensures Held(MergeOne(m, u, guest, products).lines, u, p)
         == if p == guest.productId then MergedHeld(Held(m.lines, u, p), Some(guest.(id := 0)), products, u)
            else Held(m.lines, u, p)
  {
    if guest.productId in products {
      match LineAt(m.lines, u, guest.productId)
      case Some(i) => HeldRewritten(m.lines, i, MergedLine(m.lines[i], guest, products[guest.productId]), u, p);
      case None => HeldAppended(m.lines, CopiedLine(guest, m.nextLine, u), u, p);
    }
  }

  /** Guest lines all of cart g, each for a product of its own. */
  predicate OneEach(guests: seq<Line>, g: nat)
  {
    && (forall i :: 0 <= i < |guests| ==> guests[i].cartId == g)
    && forall i, j :: 0 <= i < j < |guests| ==> guests[i].productId != guests[j].productId
  }

  lemma NotInFront(guests: seq<Line>, g: nat)
    requires OneEach(guests, g) && guests != []
    ensures Held(guests[..|guests| - 1], g, guests[|guests| - 1].productId) == None
  {
  }

  /** The loop as a whole, product by product. */
  lemma {:induction false} MergeFormula(start: Merge, u: nat, guests: seq<Line>, g: nat,
                                        products: map<string, Product>, p: string)
    requires OneEach(guests, g)
    ensures Held(MergeAll(start, u, guests, products).lines, u, p)
         == MergedHeld(Held(start.lines, u, p), Held(guests, g, p), products, u)
  {
    if guests != [] {
      var n := |guests| - 1;
      MergeFormula(start, u, guests[..n], g, products, p);
      MergeOneHeld(MergeAll(start, u, guests[..n], products), u, guests[n], products, p);
      NotInFront(guests, g);
      HeldAppended(guests[..n], guests[n], g, p);
      assert guests[..n] + [guests[n]] == guests;
    }
  }

  lemma {:induction false} OwnLinesOneEach(lines: seq<Line>, nextLine: int, carts: nat,
                                           products: map<string, Product>, g: nat)
    requires LinesOk(lines, nextLine, carts, products)
    ensures OneEach(LinesOf(lines, g), g)
  {
    if lines != [] {
      var n := |lines| - 1;
      OwnLinesOneEach(lines[..n], nextLine, carts, products, g);
      LinesOfAreThere(lines[..n], g);
      if lines[n].cartId == g { NewInOwn(lines, g); }
    }
  }

  lemma NewInOwn(lines: seq<Line>, g: nat)
    requires lines != [] && lines[|lines| - 1].cartId == g
    requires forall i, j :: 0 <= i < j < |lines| ==> Apart(lines[i], lines[j])
    ensures forall l <- LinesOf(lines[..|lines| - 1], g) :: l.productId != lines[|lines| - 1].productId
  {
    var n := |lines| - 1;
    LinesOfAreThere(lines[..n], g);
    forall l | l in LinesOf(lines[..n], g) ensures l.productId != lines[n].productId {
      var i :| 0 <= i < n && lines[i] == l;
      assert Apart(lines[i], lines[n]);
    }
  }

  // ---------------------------------------------------------------- the counters

  datatype Fate = Adds | Merges | Skips

  /** What becomes of a guest line, judged by the tables before the merge. */
  function FateOf(lines: seq<Line>, u: nat, guest: Line, products: map<string, Product>): Fate
  {
    if guest.productId !in products then Skips
    else if Held(lines, u, guest.productId).Some? then Merges
    else if products[guest.productId].isActive && products[guest.productId].stock >= guest.quantity then Adds
    else Skips
  }

  function CountFate(lines: seq<Line>, u: nat, guests: seq<Line>, products: map<string, Product>, fate: Fate): nat
  {
    if guests == [] then 0
    else
      var n := |guests| - 1;
      CountFate(lines, u, guests[..n], products, fate) + if FateOf(lines, u, guests[n], products) == fate then 1 else 0
  }

  /** Each counter counts the guest lines with that fate. */
  lemma {:induction false} CountersAreRight(lines: seq<Line>, nextLine: int, u: nat, guests: seq<Line>, g: nat,
                                            products: map<string, Product>)
    requires OneEach(guests, g)
    ensures MergeAll(Merge(lines, nextLine, Counters(0, 0, 0)), u, guests, products).counters
         == Counters(CountFate(lines, u, guests, products, Adds),
                     CountFate(lines, u, guests, products, Merges),
                     CountFate(lines, u, guests, products, Skips))
  {
    if guests != [] {
      var n := |guests| - 1;
      CountersAreRight(lines, nextLine, u, guests[..n], g, products);
      MergeFormula(Merge(lines, nextLine, Counters(0, 0, 0)), u, guests[..n], g, products, guests[n].productId);
      NotInFront(guests, g);
    }
  }

  /** Every guest line is added, merged or skipped. */
  lemma {:induction false} CountersAddUp(start: Merge, u: nat, guests: seq<Line>, products: map<string, Product>)
    ensures var before, after := start.counters, MergeAll(start, u, guests, products).counters;
            after.itemsAdded + after.quantitiesMerged + after.skippedItems
            == before.itemsAdded + before.quantitiesMerged + before.skippedItems + |guests|
  {
    if guests != [] { CountersAddUp(start, u, guests[..|guests| - 1], products); }
  }

  /** What mergeGuestCart counts: added, merged and skipped come to the guest's line count. */
  lemma MergeCountersMean(shop: Shop, userId: string, sessionId: string, g: nat, now: int)
    requires Sound(shop) && FindActive(shop.carts, SessionKey(sessionId)) == Some(g)
    ensures var s := Ensured(shop, UserKey(userId), now);
            var u := FindActive(s.carts, UserKey(userId)).value;
            var guests := LinesOf(shop.lines, g);
            var c := MergeCounters(shop, userId, sessionId, now);
            && c.itemsAdded == CountFate(shop.lines, u, guests, shop.products, Adds)
            && c.quantitiesMerged == CountFate(shop.lines, u, guests, shop.products, Merges)
            && c.skippedItems == CountFate(shop.lines, u, guests, shop.products, Skips)
            && c.itemsAdded + c.quantitiesMerged + c.skippedItems == |guests|
  {
    var s := Ensured(shop, UserKey(userId), now);
    var u := FindActive(s.carts, UserKey(userId)).value;
    var guests := LinesOf(shop.lines, g);
    OwnLinesOneEach(shop.lines, shop.nextLine, |shop.carts|, shop.products, g);
    CountersAreRight(shop.lines, shop.nextLine, u, guests, g, shop.products);
    CountersAddUp(Merge(shop.lines, shop.nextLine, Counters(0, 0, 0)), u, guests, shop.products);
  }

  // ---------------------------------------------------------------- the whole operation

  lemma ActiveIs(carts: seq<Cart>, i: nat)
    requires OneActive(carts) && i < |carts| && carts[i].status == ACTIVE
    ensures FindActive(carts, carts[i].owner) == Some(i)
  {
  }

  lemma CartsMergedMeans(shop: Shop, user: Owner, g: nat, now: int, p: string)
    requires Sound(shop) && g < |shop.carts| && shop.carts[g].status == ACTIVE && shop.carts[g].owner != user
    ensures var s := Ensured(shop, user, now);
            var u := FindActive(s.carts, user).value;
            var next := CartsMerged(shop, user, g, now);
            && Held(next.lines, u, p) == MergedHeld(Held(shop.lines, u, p), Held(shop.lines, g, p), shop.products, u)
            && OthersSame(shop.lines, next.lines, u)
            && next.carts[g].status == MERGED && next.carts[u].status == ACTIVE && next.carts[u].owner == user
            && AddsUp(next.carts[u]) && next.carts[u].tax == Tax(next.carts[u].subtotal, NCR)
            && forall i :: 0 <= i < |shop.carts| && i != u && i != g ==> next.carts[i] == shop.carts[i]
  {
    var s := Ensured(shop, user, now);
    var u := FindActive(s.carts, user).value;
    var guests := LinesOf(s.lines, g);
    var start := Merge(s.lines, s.nextLine, Counters(0, 0, 0));
    EnsuredKeeps(shop, user, now);
    OwnLinesOneEach(s.lines, s.nextLine, |s.carts|, s.products, g);
    MergeFormula(start, u, guests, g, s.products, p);
    HeldAmongOwn(s.lines, g, p);
    MergeAllOk(start, u, guests, |s.carts|, s.products);
  }

  /**
   * Merging a guest cart that has lines: each product the user already had gets
   * min(u + g, limit, stock), a new one is copied if active and in stock, all else stays; the guest
   * cart is MERGED, the user's cart is ACTIVE with totals that add up, no other cart or line changes.
   */
  lemma MergeMeans(shop: Shop, userId: string, sessionId: string, g: nat, now: int, p: string)
    requires Sound(shop) && FindActive(shop.carts, SessionKey(sessionId)) == Some(g) && LinesOf(shop.lines, g) != []
    ensures var s := Ensured(shop, UserKey(userId), now);
            var u := FindActive(s.carts, UserKey(userId)).value;
            var next := Merged(shop, userId, sessionId, now).shop;
            && Held(next.lines, u, p) == MergedHeld(Held(shop.lines, u, p), Held(shop.lines, g, p), shop.products, u)
            && OthersSame(shop.lines, next.lines, u)
            && g < |next.carts| && u < |next.carts|
            && next.carts[g].status == MERGED
            && next.carts[u].status == ACTIVE && next.carts[u].owner == UserKey(userId)
            && AddsUp(next.carts[u]) && next.carts[u].tax == Tax(next.carts[u].subtotal, NCR)
            && forall i :: 0 <= i < |shop.carts| && i != u && i != g ==> next.carts[i] == shop.carts[i]
  {
    var user := UserKey(userId);
    var merged := CartsMerged(shop, user, g, now);
    CartsMergedMeans(shop, user, g, now, p);
    CartsMergedKeeps(shop, user, g, now);
    var u := FindActive(Ensured(shop, user, now).carts, user).value;
    ActiveIs(merged.carts, u);
    OpenedWithCart(GuestMerged(shop, userId, sessionId, now), user, now);
  }

  /** An owner with an ACTIVE cart gets no new one. */
  lemma OpenedWithCart(shop: Shop, owner: Owner, now: int)
    requires FindActive(shop.carts, owner).Some?
    ensures var s := Opened(shop, owner, now).shop; s.carts == shop.carts && s.lines == shop.lines
  {
  }

  /**
   * A merged line is priced at its own locked price exactly when that is today's price, or nothing is left to
   * price.
   */
  lemma MergedLineKeepsItsPriceExactly(line: Line, guest: Line, p: Product)
    ensures var l := MergedLine(line, guest, p);
            l.subtotal == l.price * l.quantity <==>
              p.price == line.price || MergedQuantity(line.quantity, guest.quantity, p) == 0
  {
  }

  // ---------------------------------------------------------------- merging again

  lemma LeftNone(carts: seq<Cart>, g: nat, next: seq<Cart>, guest: Owner)
    requires OneActive(carts) && FindActive(carts, guest) == Some(g) && |carts| <= |next|
    requires next[g].status != ACTIVE
    requires forall i :: 0 <= i < |carts| && i != g ==>
               next[i].owner == carts[i].owner && next[i].status == carts[i].status
    requires forall i :: |carts| <= i < |next| ==> next[i].owner != guest
    ensures FindActive(next, guest).None?
  {
  }

  lemma RowsAfterMerging(shop: Shop, userId: string, g: nat, now: int)
    requires g < |shop.carts| && shop.carts[g].owner.SessionKey?
    ensures var next := CartsMerged(shop, UserKey(userId), g, now).carts;
            && |shop.carts| <= |next| && next[g].status == MERGED
            && (forall i :: 0 <= i < |shop.carts| && i != g ==>
                   next[i].owner == shop.carts[i].owner && next[i].status == shop.carts[i].status)
            && forall i :: |shop.carts| <= i < |next| ==> next[i].owner == UserKey(userId)
  {
  }

  lemma GuestGoneBefore(shop: Shop, userId: string, sessionId: string, now: int)
    requires Sound(shop)
    ensures FindActive(GuestMerged(shop, userId, sessionId, now).carts, SessionKey(sessionId)).None?
  {
    var found := FindActive(shop.carts, SessionKey(sessionId));
    if found.Some? {
      var g := found.value;
      if LinesOf(shop.lines, g) != [] { RowsAfterMerging(shop, userId, g, now); }
      LeftNone(shop.carts, g, GuestMerged(shop, userId, sessionId, now).carts, SessionKey(sessionId));
    }
  }

  lemma NoNewGuest(shop: Shop, user: Owner, guest: Owner, now: int)
    requires user != guest && FindActive(shop.carts, guest).None?
    ensures FindActive(Opened(shop, user, now).shop.carts, guest).None?
  {
  }

  lemma GuestGone(shop: Shop, userId: string, sessionId: string, now: int)
    requires Sound(shop)
    ensures FindActive(Merged(shop, userId, sessionId, now).shop.carts, SessionKey(sessionId)).None?
  {
    GuestGoneBefore(shop, userId, sessionId, now);
    NoNewGuest(GuestMerged(shop, userId, sessionId, now), UserKey(userId), SessionKey(sessionId), now);
  }

  lemma OpenedHasCart(shop: Shop, owner: Owner, now: int)
    requires FindActive(shop.carts, owner).Some? || CachedCart(shop.cache, owner, now).None?
    ensures FindActive(Opened(shop, owner, now).shop.carts, owner).Some?
  {
  }

  lemma UserStaysActive(shop: Shop, userId: string, sessionId: string, now: int)
    requires FindActive(shop.carts, UserKey(userId)).Some?
    ensures FindActive(GuestMerged(shop, userId, sessionId, now).carts, UserKey(userId)).Some?
  {
    var i := FindActive(shop.carts, UserKey(userId)).value;
    var next := GuestMerged(shop, userId, sessionId, now).carts;
    assert next[i].owner == UserKey(userId) && next[i].status == ACTIVE;
  }

  lemma OpenedChangesRowsExactly(shop: Shop, owner: Owner, now: int)
    ensures var s := Opened(shop, owner, now).shop;
            && s.lines == shop.lines && s.nextLine == shop.nextLine && s.products == shop.products
            && (s.carts == shop.carts
                <==> FindActive(shop.carts, owner).Some? || CachedCart(shop.cache, owner, now).Some?)
  {
  }

  lemma NothingToMerge(shop: Shop, userId: string, sessionId: string, now: int)
    requires FindActive(shop.carts, SessionKey(sessionId)).None?
    ensures Merged(shop, userId, sessionId, now).shop == Opened(shop, UserKey(userId), now).shop
  {
  }

  /** A second merge leaves rows and lines alone exactly when the user then has an ACTIVE cart or a cached one. */
  lemma SecondMergeExactly(shop: Shop, userId: string, sessionId: string, now: int, later: int)
    requires Sound(shop)
    ensures var once := Merged(shop, userId, sessionId, now).shop;
            var twice := Merged(once, userId, sessionId, later).shop;
            && twice.lines == once.lines && twice.nextLine == once.nextLine && twice.products == once.products
            && (twice.carts == once.carts <==>
                  FindActive(once.carts, UserKey(userId)).Some? || CachedCart(once.cache, UserKey(userId), later).Some?)
  {
    GuestGone(shop, userId, sessionId, now);
    var once := Merged(shop, userId, sessionId, now).shop;
    NothingToMerge(once, userId, sessionId, later);
    OpenedChangesRowsExactly(once, UserKey(userId), later);
  }

  /** It does when the guest had lines to merge, or the user's cached cart was not stale. */
  lemma SecondMergeChangesNothing(shop: Shop, userId: string, sessionId: string, now: int, later: int)
    requires Sound(shop)
    requires var g := FindActive(shop.carts, SessionKey(sessionId));
             || (g.Some? && LinesOf(shop.lines, g.value) != [])
             || FindActive(shop.carts, UserKey(userId)).Some? || CachedCart(shop.cache, UserKey(userId), now).None?
    ensures var once := Merged(shop, userId, sessionId, now).shop;
            var twice := Merged(once, userId, sessionId, later).shop;
            twice.carts == once.carts && twice.lines == once.lines && twice.nextLine == once.nextLine
              && twice.products == once.products
  {
    if FindActive(shop.carts, UserKey(userId)).Some? { UserStaysActive(shop, userId, sessionId, now); }
    OpenedHasCart(GuestMerged(shop, userId, sessionId, now), UserKey(userId), now);
    SecondMergeExactly(shop, userId, sessionId, now, later);
  }
}
