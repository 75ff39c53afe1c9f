/**
 * The shopping cart as operations on the tables of carts, cart lines and products and on the
 * cart cache. A cart's id is its position. Money is whole centavos, times are milliseconds.
 */
module CartModel {
  import opened Prelude
  import opened TaxReport

  const CACHE_TTL := 86400000
  const DAY := 86400000
  const HOUR := 3600000

  /** Each request has exactly one owner key. */
  datatype Owner = UserKey(id: string) | SessionKey(id: string)

  datatype Status = ACTIVE | MERGED | EXPIRED

  datatype Cart = Cart(
    owner: Owner,
    status: Status,
    subtotal: int,
    tax: int,
    shipping: int,
    discount: int,
    total: int,
    lastActivityAt: int,
    expiresAt: Option<int>,
    abandonedAt: Option<int>,
    convertedAt: Option<int>)

  datatype Line = Line(
    id: int,
    cartId: nat,
    productId: string,
    quantity: int,
    price: int,
    subtotal: int,
    discount: int,
    total: int,
    isAvailable: bool)

  datatype Product = Product(price: int, stock: int, maxCartQty: Option<int>, isActive: bool)

  /** A cart row with its lines, the product join aside. */
  datatype Response = Response(id: nat, cart: Cart, items: seq<Line>)

  datatype Cached = Cached(response: Response, expiresAt: int)

  datatype Shop = Shop(
    carts: seq<Cart>,
    lines: seq<Line>,
    nextLine: int,
    products: map<string, Product>,
    cache: map<string, Cached>)

  datatype Reason = NotFound | NotInCart | Unavailable | NoStock | OverLimit

  datatype Reply = Shown(cart: Response) | Done | Refused(reason: Reason)

  datatype Outcome = Outcome(shop: Shop, reply: Reply)

  // ---------------------------------------------------------------- queries

  function LinesOf(lines: seq<Line>, cartId: nat): seq<Line>
  {
    if lines == [] then []
    else
      var last := lines[|lines| - 1];
      LinesOf(lines[..|lines| - 1], cartId) + if last.cartId == cartId then [last] else []
  }

  function SumTotals(lines: seq<Line>): int
  {
    if lines == [] then 0 else SumTotals(lines[..|lines| - 1]) + lines[|lines| - 1].total
  }

  /** The position of the line of a cart for a product. */
  function LineAt(lines: seq<Line>, cartId: nat, productId: string): (r: Option<nat>)
    ensures r.Some? ==> r.value < |lines| && lines[r.value].cartId == cartId && lines[r.value].productId == productId
    ensures r.None? ==> forall i :: 0 <= i < |lines| ==> lines[i].cartId != cartId || lines[i].productId != productId
  {
    if lines == [] then None
    else
      var n := |lines| - 1;
      if lines[n].cartId == cartId && lines[n].productId == productId then Some(n)
      else LineAt(lines[..n], cartId, productId)
  }

  function LineById(lines: seq<Line>, id: int): (r: Option<nat>)
    ensures r.Some? ==> r.value < |lines| && lines[r.value].id == id
    ensures r.None? ==> forall i :: 0 <= i < |lines| ==> lines[i].id != id
  {
    if lines == [] then None
    else
      var n := |lines| - 1;
      if lines[n].id == id then Some(n) else LineById(lines[..n], id)
  }

  /** The owner's ACTIVE cart. */
  function FindActive(carts: seq<Cart>, owner: Owner): (r: Option<nat>)
    ensures r.Some? ==> r.value < |carts| && carts[r.value].owner == owner && carts[r.value].status == ACTIVE
    ensures r.None? ==> forall i :: 0 <= i < |carts| ==> carts[i].owner != owner || carts[i].status != ACTIVE
  {
    if carts == [] then None
    else
      var n := |carts| - 1;
      if carts[n].owner == owner && carts[n].status == ACTIVE then Some(n) else FindActive(carts[..n], owner)
  }

  /** A limit of null or 0 means the stock. */
  function MaxQuantity(p: Product): int
  {
    if p.maxCartQty.Some? && p.maxCartQty.value != 0 then p.maxCartQty.value else p.stock
  }

  function ResponseOf(shop: Shop, i: nat): Response
    requires i < |shop.carts|
  {
    Response(i, shop.carts[i], LinesOf(shop.lines, i))
  }

  function CacheKey(owner: Owner): string
  {
    match owner
    case UserKey(id) => "cart:user:" + id
    case SessionKey(id) => "cart:session:" + id
  }

  /** What the cache answers at time now. */
  function CachedCart(cache: map<string, Cached>, owner: Owner, now: int): Option<Response>
  {
    var key := CacheKey(owner);
    if key in cache && now < cache[key].expiresAt then Some(cache[key].response) else None
  }

  function Min(a: int, b: int): int { if a <= b then a else b }

  // ---------------------------------------------------------------- what each step does

  function Warmed(shop: Shop, owner: Owner, response: Response, now: int): Shop
  {
    shop.(cache := shop.cache[CacheKey(owner) := Cached(response, now + CACHE_TTL)])
  }

  function Invalidated(shop: Shop, owner: Owner): Shop
  {
    shop.(cache := shop.cache - {CacheKey(owner)})
  }

  function NewCart(owner: Owner, now: int): Cart
  {
    Cart(owner, ACTIVE, 0, 0, 0, 0, 0, now, None, None, None)
  }

  /** The shop with an ACTIVE cart for the owner. */
  function Ensured(shop: Shop, owner: Owner, now: int): (r: Shop)
    ensures FindActive(r.carts, owner).Some?
  {
    if FindActive(shop.carts, owner).Some? then shop else shop.(carts := shop.carts + [NewCart(owner, now)])
  }

  datatype View = View(shop: Shop, cart: Response)

  /** getOrCreateCart. */
  function Opened(shop: Shop, owner: Owner, now: int): View
  {
    match CachedCart(shop.cache, owner, now)
    case Some(response) => View(shop, response)
    case None =>
      var s := Ensured(shop, owner, now);
      var response := ResponseOf(s, FindActive(s.carts, owner).value);
      View(Warmed(s, owner, response, now), response)
  }

  /** The address of a delivery, as far as the totals depend on it: its region and what shipping there costs. */
  datatype Delivery = Delivery(region: string, fee: int)

  function Upper(s: string): string
  {
    if s == [] then []
    else [if 'a' <= s[0] <= 'z' then (s[0] as int - 'a' as int + 'A' as int) as char else s[0]] + Upper(s[1..])
  }

  predicate Contains(s: string, t: string)
  {
    t <= s || (s != [] && Contains(s[1..], t))
  }

  function RegionOf(region: string): Region
  {
    var r := Upper(region);
    if Contains(r, "NCR") || Contains(r, "METRO MANILA") || Contains(r, "NATIONAL CAPITAL") then NCR else Province
  }

  function TotalledCart(cart: Cart, subtotal: int, delivery: Option<Delivery>, now: int): Cart
  {
    var tax := Tax(subtotal, if delivery.Some? then RegionOf(delivery.value.region) else NCR);
    var shipping := if delivery.Some? then delivery.value.fee else 0;
    cart.(subtotal := subtotal, tax := tax, shipping := shipping, total := subtotal + tax + shipping - cart.discount,
          lastActivityAt := now)
  }

  /** calculateTotals, for a cart that exists. */
  function Totalled(shop: Shop, cartId: nat, delivery: Option<Delivery>, now: int): Shop
  {
    if cartId >= |shop.carts| then shop
    else
      shop.(carts := shop.carts[cartId := TotalledCart(shop.carts[cartId], SumTotals(LinesOf(shop.lines, cartId)),
                                                       delivery, now)])
  }

  /** A line with a new quantity at its own price, as add and update write it. */
  function Requantified(line: Line, quantity: int): Line
  {
    line.(quantity := quantity, subtotal := line.price * quantity, total := line.price * quantity - line.discount)
  }

  function NewLine(id: int, cartId: nat, productId: string, quantity: int, price: int): Line
  {
    Line(id, cartId, productId, quantity, price, price * quantity, 0, price * quantity, true)
  }

  /** Why addItem turns a request down, held being the quantity already in the cart. */
  function AddRefusal(products: map<string, Product>, productId: string, held: Option<int>,
                      quantity: int): Option<Reason>
  {
    if productId !in products then Some(NotFound)
    else
      var p := products[productId];
      if !p.isActive then Some(Unavailable)
      else if p.stock < quantity then Some(NoStock)
      else if quantity > MaxQuantity(p) then Some(OverLimit)
      else if held.Some? && held.value + quantity > MaxQuantity(p) then Some(OverLimit)
      else if held.Some? && held.value + quantity > p.stock then Some(NoStock)
      else None
  }

  function HeldQuantity(lines: seq<Line>, cartId: nat, productId: string): Option<int>
  {
    match LineAt(lines, cartId, productId)
    case Some(i) => Some(lines[i].quantity)
    case None => None
  }

  /** The lines after addItem's write, for a product that exists. */
  function LinesAdded(shop: Shop, cartId: nat, productId: string, quantity: int): Shop
    requires productId in shop.products
  {
    match LineAt(shop.lines, cartId, productId)
    case Some(i) =>
      shop.(lines := shop.lines[i := Requantified(shop.lines[i], shop.lines[i].quantity + quantity)])
    case None =>
      shop.(lines := shop.lines + [NewLine(shop.nextLine, cartId, productId, quantity, shop.products[productId].price)],
            nextLine := shop.nextLine + 1)
  }

  function Added(shop: Shop, owner: Owner, productId: string, quantity: int, now: int): Outcome
  {
    var start := Opened(shop, owner, now);
    var s, cartId := start.shop, start.cart.id;
    match AddRefusal(s.products, productId, HeldQuantity(s.lines, cartId, productId), quantity)
    case Some(reason) => Outcome(s, Refused(reason))
    case None =>
      var written := Invalidated(Totalled(LinesAdded(s, cartId, productId, quantity), cartId, None, now), owner);
      var reopened := Opened(written, owner, now);
      Outcome(reopened.shop, Shown(reopened.cart))
  }

  /** Why updateItem turns a request down; a line always has its product. */
  function UpdateRefusal(shop: Shop, cartId: nat, itemId: int, quantity: int): Option<Reason>
  {
    match LineById(shop.lines, itemId)
    case None => Some(NotFound)
    case Some(i) =>
      var line := shop.lines[i];
      if line.cartId != cartId then Some(NotInCart)
      else if line.productId !in shop.products || cartId >= |shop.carts| then Some(NotFound)
      else
        var p := shop.products[line.productId];
        if quantity > p.stock then Some(NoStock)
        else if quantity > MaxQuantity(p) then Some(OverLimit)
        else None
  }

  function ItemUpdated(shop: Shop, cartId: nat, itemId: int, quantity: int, now: int): Outcome
  {
    match UpdateRefusal(shop, cartId, itemId, quantity)
    case Some(reason) => Outcome(shop, Refused(reason))
    case None =>
      var i := LineById(shop.lines, itemId).value;
      var written := Totalled(shop.(lines := shop.lines[i := Requantified(shop.lines[i], quantity)]), cartId, None,
                              now);
      var s := Invalidated(written, written.carts[cartId].owner);
      Outcome(s, Shown(ResponseOf(s, cartId)))
  }

  function ItemRemoved(shop: Shop, cartId: nat, itemId: int, now: int): Outcome
  {
    match LineById(shop.lines, itemId)
    case None => Outcome(shop, Refused(NotFound))
    case Some(i) =>
      if shop.lines[i].cartId != cartId then Outcome(shop, Refused(NotInCart))
      else if cartId >= |shop.carts| then Outcome(shop, Refused(NotFound))
      else
        var written := Totalled(shop.(lines := shop.lines[..i] + shop.lines[i + 1..]), cartId, None, now);
        Outcome(Invalidated(written, written.carts[cartId].owner), Done)
  }

  function WithoutCart(lines: seq<Line>, cartId: nat): (r: seq<Line>)
    ensures forall l :: l in r <==> l in lines && l.cartId != cartId
  {
    if lines == [] then []
    else
      var last := lines[|lines| - 1];
      WithoutCart(lines[..|lines| - 1], cartId) + if last.cartId == cartId then [] else [last]
  }

  /** Shipping stays as it was. */
  function ClearedCart(cart: Cart, now: int): Cart
  {
    cart.(subtotal := 0, tax := 0, discount := 0, total := 0, lastActivityAt := now)
  }

  function Cleared(shop: Shop, cartId: nat, now: int): Outcome
  {
    if cartId >= |shop.carts| then Outcome(shop, Refused(NotFound))
    else
      var cart := ClearedCart(shop.carts[cartId], now);
      Outcome(Invalidated(shop.(carts := shop.carts[cartId := cart], lines := WithoutCart(shop.lines, cartId)),
                          cart.owner), Done)
  }

  /** Whether a line can still be bought. */
  predicate Buyable(line: Line, products: map<string, Product>)
  {
    line.productId in products && products[line.productId].isActive && products[line.productId].stock >= line.quantity
  }

  function Flagged(lines: seq<Line>, cartId: nat, products: map<string, Product>): (r: seq<Line>)
    ensures |r| == |lines|
    ensures forall i :: 0 <= i < |lines| ==> r[i] == FlaggedLine(lines[i], cartId, products)
  {
    seq(|lines|, i requires 0 <= i < |lines| => FlaggedLine(lines[i], cartId, products))
  }

  function FlaggedLine(line: Line, cartId: nat, products: map<string, Product>): Line
  {
    if line.cartId == cartId && !Buyable(line, products) then line.(isAvailable := false) else line
  }

  /** What validateCart reports of a line: prices are old and new, given when they differ. */
  datatype ItemCheck = ItemCheck(
    itemId: int,
    productId: string,
    isAvailable: bool,
    currentStock: int,
    requestedQuantity: int,
    prices: Option<(int, int)>)

  /** A line always has its product. */
  function CheckOf(line: Line, products: map<string, Product>): ItemCheck
  {
    if line.productId !in products then ItemCheck(line.id, line.productId, false, 0, line.quantity, None)
    else
      var p := products[line.productId];
      ItemCheck(line.id, line.productId, p.isActive && p.stock >= line.quantity, p.stock, line.quantity,
                if p.price == line.price then None else Some((line.price, p.price)))
  }

  function ChecksOf(lines: seq<Line>, products: map<string, Product>): (r: seq<ItemCheck>)
    ensures |r| == |lines|
    ensures forall i :: 0 <= i < |lines| ==> r[i] == CheckOf(lines[i], products)
  {
    if lines == [] then []
    else ChecksOf(lines[..|lines| - 1], products) + [CheckOf(lines[|lines| - 1], products)]
  }

  function Validated(shop: Shop, cartId: nat): Outcome
  {
    if cartId >= |shop.carts| then Outcome(shop, Refused(NotFound))
    else Outcome(shop.(lines := Flagged(shop.lines, cartId, shop.products)), Done)
  }

  // ---------------------------------------------------------------- merging

  datatype Counters = Counters(itemsAdded: nat, quantitiesMerged: nat, skippedItems: nat)

  /** The user's lines while the guest's are merged into them. */
  datatype Merge = Merge(lines: seq<Line>, nextLine: int, counters: Counters)

  /** The quantity both carts come to, within limit and stock. */
  function MergedQuantity(held: int, more: int, p: Product): int
  {
    Min(Min(held + more, MaxQuantity(p)), p.stock)
  }

  /** Priced at the product's price of today; the locked price stays. */
  function MergedLine(line: Line, guest: Line, p: Product): Line
  {
    var quantity := MergedQuantity(line.quantity, guest.quantity, p);
    line.(quantity := quantity, subtotal := p.price * quantity, total := p.price * quantity)
  }

  function CopiedLine(guest: Line, id: int, userCart: nat): Line
  {
    guest.(id := id, cartId := userCart, isAvailable := true)
  }

  /** One turn of the loop over the guest's lines. */
  function MergeOne(m: Merge, userCart: nat, guest: Line, products: map<string, Product>): Merge
  {
    if guest.productId !in products then m.(counters := m.counters.(skippedItems := m.counters.skippedItems + 1))
    else
      var p := products[guest.productId];
      match LineAt(m.lines, userCart, guest.productId)
      case Some(i) =>
        Merge(m.lines[i := MergedLine(m.lines[i], guest, p)], m.nextLine,
              m.counters.(quantitiesMerged := m.counters.quantitiesMerged + 1))
      case None =>
        if !p.isActive || p.stock < guest.quantity then
          m.(counters := m.counters.(skippedItems := m.counters.skippedItems + 1))
        else Merge(m.lines + [CopiedLine(guest, m.nextLine, userCart)], m.nextLine + 1,
                   m.counters.(itemsAdded := m.counters.itemsAdded + 1))
  }

  function MergeAll(start: Merge, userCart: nat, guests: seq<Line>, products: map<string, Product>): Merge
  {
    if guests == [] then start
    else MergeOne(MergeAll(start, userCart, guests[..|guests| - 1], products), userCart, guests[|guests| - 1], products)
  }

  function MarkedMerged(cart: Cart, now: int): Cart
  {
    cart.(status := MERGED, convertedAt := Some(now))
  }

  /** The shop once the guest cart g, which has lines, went into the user's cart. */
  function CartsMerged(shop: Shop, user: Owner, g: nat, now: int): Shop
    requires g < |shop.carts|
  {
    var s := Ensured(shop, user, now);
    var u := FindActive(s.carts, user).value;
    var m := MergeAll(Merge(s.lines, s.nextLine, Counters(0, 0, 0)), u, LinesOf(s.lines, g), s.products);
    Totalled(s.(lines := m.lines, nextLine := m.nextLine, carts := s.carts[g := MarkedMerged(s.carts[g], now)]), u,
             None, now)
  }

  /** What the merge counts; nothing when there is nothing to merge. */
  function MergeCounters(shop: Shop, userId: string, sessionId: string, now: int): Counters
  {
    match FindActive(shop.carts, SessionKey(sessionId))
    case None => Counters(0, 0, 0)
    case Some(g) =>
      var s := Ensured(shop, UserKey(userId), now);
      var u := FindActive(s.carts, UserKey(userId)).value;
      MergeAll(Merge(s.lines, s.nextLine, Counters(0, 0, 0)), u, LinesOf(s.lines, g), s.products).counters
  }

  function GuestMerged(shop: Shop, userId: string, sessionId: string, now: int): Shop
  {
    var user, guest := UserKey(userId), SessionKey(sessionId);
    match FindActive(shop.carts, guest)
    case None => shop
    case Some(g) =>
      if LinesOf(shop.lines, g) == [] then shop.(carts := shop.carts[g := MarkedMerged(shop.carts[g], now)])
      else Invalidated(Invalidated(CartsMerged(shop, user, g, now), user), guest)
  }

  /** mergeGuestCart. */
  function Merged(shop: Shop, userId: string, sessionId: string, now: int): Outcome
  {
    var view := Opened(GuestMerged(shop, userId, sessionId, now), UserKey(userId), now);
    Outcome(view.shop, Shown(view.cart))
  }

  // ---------------------------------------------------------------- the scheduler

  predicate Idle(cart: Cart, now: int)
  {
    cart.status == ACTIVE && cart.lastActivityAt < now - (if cart.owner.SessionKey? then 7 else 30) * DAY
  }

  /** How many user carts, or guest carts, are idle. */
  function IdleCount(carts: seq<Cart>, users: bool, now: int): nat
  {
    if carts == [] then 0
    else
      var last := carts[|carts| - 1];
      IdleCount(carts[..|carts| - 1], users, now) + if Idle(last, now) && last.owner.UserKey? == users then 1 else 0
  }

  function ExpiredCart(cart: Cart, now: int): Cart
  {
    if Idle(cart, now) then cart.(status := EXPIRED, expiresAt := Some(now)) else cart
  }

  function Expired(shop: Shop, now: int): Shop
  {
    shop.(carts := seq(|shop.carts|, i requires 0 <= i < |shop.carts| => ExpiredCart(shop.carts[i], now)))
  }

  predicate Abandoned(cart: Cart, lines: seq<Line>, now: int)
  {
    cart.status == ACTIVE && cart.lastActivityAt < now - 3 * HOUR && cart.abandonedAt == None && lines != []
  }

  /** How many of the first n carts get the mark. */
  function AbandonedCount(carts: seq<Cart>, lines: seq<Line>, n: nat, now: int): nat
    requires n <= |carts|
  {
    if n == 0 then 0
    else
      AbandonedCount(carts, lines, n - 1, now)
      + if Abandoned(carts[n - 1], LinesOf(lines, n - 1), now) then 1 else 0
  }

  function AbandonedCart(cart: Cart, lines: seq<Line>, now: int): Cart
  {
    if Abandoned(cart, lines, now) then cart.(abandonedAt := Some(now)) else cart
  }

  function AbandonmentsMarked(shop: Shop, now: int): Shop
  {
    shop.(carts := seq(|shop.carts|,
                       i requires 0 <= i < |shop.carts| => AbandonedCart(shop.carts[i], LinesOf(shop.lines, i), now)))
  }

  // ---------------------------------------------------------------- steps and runs

  datatype Step =
    | Get(owner: Owner, at: int)
    | Add(owner: Owner, productId: string, quantity: int, at: int)
    | Update(cartId: nat, itemId: int, quantity: int, at: int)
    | Remove(cartId: nat, itemId: int, at: int)
    | Clear(cartId: nat, at: int)
    | MergeGuest(userId: string, sessionId: string, at: int)
    | Recalculate(cartId: nat, delivery: Option<Delivery>, at: int)
    | Validate(cartId: nat, at: int)
    | Expire(at: int)
    | MarkAbandoned(at: int)
    | SetProduct(productId: string, product: Product, at: int)

  /** The shop after a step. SetProduct stands for the catalogue's own work. */
  function Run(shop: Shop, s: Step): Shop
  {
    match s
    case Get(owner, at) => Opened(shop, owner, at).shop
    case Add(owner, productId, quantity, at) => Added(shop, owner, productId, quantity, at).shop
    case Update(cartId, itemId, quantity, at) => ItemUpdated(shop, cartId, itemId, quantity, at).shop
    case Remove(cartId, itemId, at) => ItemRemoved(shop, cartId, itemId, at).shop
    case Clear(cartId, at) => Cleared(shop, cartId, at).shop
    case MergeGuest(userId, sessionId, at) => Merged(shop, userId, sessionId, at).shop
    case Recalculate(cartId, delivery, at) => Totalled(shop, cartId, delivery, at)
    case Validate(cartId, at) => Validated(shop, cartId).shop
    case Expire(at) => Expired(shop, at)
    case MarkAbandoned(at) => AbandonmentsMarked(shop, at)
    case SetProduct(productId, product, at) => shop.(products := shop.products[productId := product])
  }

  const EMPTY := Shop([], [], 0, map[], map[])

  /** The shop after a run from a given shop, oldest step first. */
  function RunAll(shop: Shop, steps: seq<Step>): Shop
    decreases |steps|
  {
    if steps == [] then shop else Run(RunAll(shop, steps[..|steps| - 1]), steps[|steps| - 1])
  }
}
