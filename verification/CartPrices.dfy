/** What every cart line is charged: its own locked price, unless a merge wrote it at another. */
module CartPrices {
  import opened Prelude
  import opened CartModel
  import opened CartLines
  import opened CartRuns
  import opened CartMerge
  import opened CartEdits

  /** Nothing discounts a line, and a guest's line is charged at its own price. */
  predicate LinePricing(l: Line, carts: seq<Cart>)
  {
    && l.discount == 0
    && (Priced(l) || OfUser(carts, l))
  }

  predicate PricingOk(shop: Shop)
  {
    forall l <- shop.lines :: LinePricing(l, shop.carts)
  }

  /** The table has this line, its availability flag aside. */
  predicate Stands(lines: seq<Line>, l: Line)
  {
    exists k :: 0 <= k < |lines| && SameCharge(lines[k], l)
  }

  predicate SameCharge(a: Line, b: Line)
  {
    a.(isAvailable := b.isAvailable) == b
  }

  /** Charged in full at the product's price of today, which is not the line's own. */
  predicate ChargedOtherwise(l: Line, products: map<string, Product>)
  {
    && l.productId in products && products[l.productId].price != l.price && l.quantity != 0
    && l.subtotal == l.total == products[l.productId].price * l.quantity
  }

  /** A line after a step: as it was, at its own price, or written by a merge at another price. */
  predicate Explained(shop: Shop, s: Step, l: Line)
  {
    || Stands(shop.lines, l)
    || (l.discount == 0 && Priced(l))
    || (s.MergeGuest? && l.discount == 0 && ChargedOtherwise(l, shop.products) && OfUser(Run(shop, s).carts, l))
  }

  predicate OfUser(carts: seq<Cart>, l: Line)
  {
    l.cartId < |carts| && carts[l.cartId].owner.UserKey?
  }

  lemma StandsWithin(lines: seq<Line>, l: Line)
    requires l in lines
    ensures Stands(lines, l)
  {
    var k :| 0 <= k < |lines| && lines[k] == l;
    assert SameCharge(lines[k], l);
  }

  // ---------------------------------------------------------------- merging

  /** A line of the merged table: as it was, at its own price, or charged at today's price. */
  predicate FromMerge(start: seq<Line>, l: Line, u: nat, products: map<string, Product>)
  {
    l in start || (l.discount == 0 && (Priced(l) || (l.cartId == u && ChargedOtherwise(l, products))))
  }

  predicate Undiscounted(lines: seq<Line>)
  {
    forall l <- lines :: l.discount == 0
  }

  lemma MergedLineFrom(line: Line, guest: Line, p: Product)
    requires line.discount == 0
    ensures var l := MergedLine(line, guest, p);
            && l.discount == 0
            && (Priced(l) || (p.price != l.price && l.quantity != 0 && l.subtotal == l.total == p.price * l.quantity))
  {
  }

  lemma MergeOneFrom(start: seq<Line>, m: Merge, u: nat, guest: Line, products: map<string, Product>, l: Line)
    requires guest.discount == 0 && Priced(guest) && Undiscounted(start)
    requires forall x <- m.lines :: FromMerge(start, x, u, products)
    requires l in MergeOne(m, u, guest, products).lines
    ensures FromMerge(start, l, u, products)
  {
    if l !in m.lines && guest.productId in products {
      match LineAt(m.lines, u, guest.productId)
      case Some(i) =>
        assert m.lines[i] in m.lines;
        MergedLineFrom(m.lines[i], guest, products[guest.productId]);
      case None =>
    }
  }

  lemma {:induction false} MergeAllFrom(start: Merge, u: nat, guests: seq<Line>, products: map<string, Product>)
    requires Undiscounted(start.lines) && forall g <- guests :: g.discount == 0 && Priced(g)
    ensures forall l <- MergeAll(start, u, guests, products).lines :: FromMerge(start.lines, l, u, products)
  {
    if guests != [] {
      var n := |guests| - 1;
      MergeAllFrom(start, u, guests[..n], products);
      var m := MergeAll(start, u, guests[..n], products);
      forall l | l in MergeOne(m, u, guests[n], products).lines ensures FromMerge(start.lines, l, u, products) {
        MergeOneFrom(start.lines, m, u, guests[n], products, l);
      }
    }
  }

  lemma GuestsArePriced(shop: Shop, g: nat)
    requires PricingOk(shop) && g < |shop.carts| && shop.carts[g].owner.SessionKey?
    ensures forall l <- LinesOf(shop.lines, g) :: l.discount == 0 && Priced(l)
  {
    LinesOfAreThere(shop.lines, g);
    forall l | l in LinesOf(shop.lines, g) ensures l.discount == 0 && Priced(l) {
      assert LinePricing(l, shop.carts);
    }
  }

  lemma GuestMergedFrom(shop: Shop, userId: string, sessionId: string, g: nat, now: int, u: nat, l: Line)
    requires PricingOk(shop) && FindActive(shop.carts, SessionKey(sessionId)) == Some(g) && LinesOf(shop.lines, g) != []
    requires FindActive(Ensured(shop, UserKey(userId), now).carts, UserKey(userId)) == Some(u)
    requires l in GuestMerged(shop, userId, sessionId, now).lines
    ensures FromMerge(shop.lines, l, u, shop.products)
  {
    var s := Ensured(shop, UserKey(userId), now);
    GuestsArePriced(shop, g);
    forall x | x in shop.lines ensures x.discount == 0 { assert LinePricing(x, shop.carts); }
    MergeAllFrom(Merge(s.lines, s.nextLine, Counters(0, 0, 0)), u, LinesOf(s.lines, g), s.products);
  }

  /** The user's cart stays the user's. */
  lemma UserCartAfter(shop: Shop, userId: string, sessionId: string, g: nat, now: int, u: nat)
    requires FindActive(shop.carts, SessionKey(sessionId)) == Some(g) && LinesOf(shop.lines, g) != []
    requires FindActive(Ensured(shop, UserKey(userId), now).carts, UserKey(userId)) == Some(u)
    ensures var carts := GuestMerged(shop, userId, sessionId, now).carts;
            u < |carts| && carts[u].owner == UserKey(userId)
  {
  }

  lemma OpenedKeepsOwners(shop: Shop, owner: Owner, now: int)
    ensures var carts := Opened(shop, owner, now).shop.carts;
            |shop.carts| <= |carts| && forall i :: 0 <= i < |shop.carts| ==> carts[i] == shop.carts[i]
  {
  }

  lemma MergeExplains(shop: Shop, userId: string, sessionId: string, now: int, l: Line)
    requires PricingOk(shop) && l in Merged(shop, userId, sessionId, now).shop.lines
    ensures Explained(shop, MergeGuest(userId, sessionId, now), l)
  {
    var merged := GuestMerged(shop, userId, sessionId, now);
    OpenedLeaves(merged, UserKey(userId), now);
    OpenedKeepsOwners(merged, UserKey(userId), now);
    if l in shop.lines {
      StandsWithin(shop.lines, l);
    } else {
      var g := FindActive(shop.carts, SessionKey(sessionId)).value;
      var u := FindActive(Ensured(shop, UserKey(userId), now).carts, UserKey(userId)).value;
      GuestMergedFrom(shop, userId, sessionId, g, now, u, l);
      UserCartAfter(shop, userId, sessionId, g, now, u);
    }
  }

  // ---------------------------------------------------------------- the other steps

  lemma LinesAddedFrom(shop: Shop, c: nat, productId: string, quantity: int, l: Line)
    requires PricingOk(shop) && productId in shop.products && l in LinesAdded(shop, c, productId, quantity).lines
    ensures l in shop.lines || (l.discount == 0 && Priced(l))
  {
    match LineAt(shop.lines, c, productId)
    case Some(i) => assert LinePricing(shop.lines[i], shop.carts);
    case None =>
  }

  lemma AddExplains(shop: Shop, owner: Owner, productId: string, quantity: int, now: int, l: Line)
    requires PricingOk(shop) && l in Added(shop, owner, productId, quantity, now).shop.lines
    ensures Explained(shop, Add(owner, productId, quantity, now), l)
  {
    if l in shop.lines {
      StandsWithin(shop.lines, l);
    } else {
      AddedLines(shop, owner, productId, quantity, now);
      OpenedLeaves(shop, owner, now);
      LinesAddedFrom(shop, Opened(shop, owner, now).cart.id, productId, quantity, l);
    }
  }

  lemma UpdateExplains(shop: Shop, c: nat, itemId: int, quantity: int, now: int, l: Line)
    requires PricingOk(shop) && l in ItemUpdated(shop, c, itemId, quantity, now).shop.lines
    ensures Explained(shop, Update(c, itemId, quantity, now), l)
  {
    if l in shop.lines {
      StandsWithin(shop.lines, l);
    } else {
      assert LinePricing(shop.lines[LineById(shop.lines, itemId).value], shop.carts);
    }
  }

  lemma ValidateExplains(shop: Shop, c: nat, now: int, l: Line)
    requires l in Validated(shop, c).shop.lines
    ensures Explained(shop, Validate(c, now), l)
  {
    if l in shop.lines {
      StandsWithin(shop.lines, l);
    } else {
      var k :| 0 <= k < |shop.lines| && Flagged(shop.lines, c, shop.products)[k] == l;
      assert SameCharge(shop.lines[k], l);
    }
  }

  /** The steps that only keep or drop lines. */
  lemma KeptExplains(shop: Shop, s: Step, l: Line)
    requires !s.Add? && !s.Update? && !s.Validate? && !s.MergeGuest? && l in Run(shop, s).lines
    ensures Explained(shop, s, l)
  {
    assert l in shop.lines;
    StandsWithin(shop.lines, l);
  }

  /** After any step each line is as it was, is charged at its own price, or was written by a merge at another. */
  lemma StepExplains(shop: Shop, s: Step, l: Line)
    requires PricingOk(shop) && l in Run(shop, s).lines
    ensures Explained(shop, s, l)
  {
    match s
    case Add(owner, productId, quantity, at) => AddExplains(shop, owner, productId, quantity, at, l);
    case Update(cartId, itemId, quantity, at) => UpdateExplains(shop, cartId, itemId, quantity, at, l);
    case MergeGuest(userId, sessionId, at) => MergeExplains(shop, userId, sessionId, at, l);
    case Validate(cartId, at) => ValidateExplains(shop, cartId, at, l);
    case _ => KeptExplains(shop, s, l);
  }

  // ---------------------------------------------------------------- every run

  lemma StillExplained(shop: Shop, s: Step, l: Line)
    requires PricingOk(shop) && AllContinue(shop.carts, Run(shop, s).carts) && Explained(shop, s, l)
    ensures LinePricing(l, Run(shop, s).carts)
  {
    if Stands(shop.lines, l) {
      var k :| 0 <= k < |shop.lines| && SameCharge(shop.lines[k], l);
      assert LinePricing(shop.lines[k], shop.carts);
      if OfUser(shop.carts, l) { assert Continues(shop.carts[l.cartId], Run(shop, s).carts[l.cartId]); }
    }
  }

  lemma StepKeepsPricing(shop: Shop, s: Step)
    requires Sound(shop) && PricingOk(shop)
    ensures PricingOk(Run(shop, s))
  {
    StepKeeps(shop, s);
    forall l | l in Run(shop, s).lines ensures LinePricing(l, Run(shop, s).carts) {
      StepExplains(shop, s, l);
      StillExplained(shop, s, l);
    }
  }

  lemma {:induction false} RunKeepsPricing(steps: seq<Step>)
    ensures PricingOk(RunAll(EMPTY, steps))
    decreases |steps|
  {
    if steps != [] {
      var before := steps[..|steps| - 1];
      RunKeepsPricing(before);
      ReachableIsSound(before);
      StepKeepsPricing(RunAll(EMPTY, before), steps[|steps| - 1]);
    }
  }

  /** The shop each run reaches from empty tables. */
  function Reached(): seq<Step> -> Shop
  {
    steps => RunAll(EMPTY, steps)
  }

  /** Step n of the run is a merge that charged the line at another price than its own, and the line stands since. */
  predicate WrittenByMerge(reached: seq<Step> -> Shop, steps: seq<Step>, n: nat, l: Line)
  {
    && n < |steps| && steps[n].MergeGuest?
    && ChargedOtherwise(l, reached(steps[..n]).products)
    && forall k :: n < k <= |steps| ==> Stands(reached(steps[..k]).lines, l)
  }

  lemma StandsFurther(reached: seq<Step> -> Shop, before: seq<Step>, s: Step, n: nat, m: Line, l: Line)
    requires WrittenByMerge(reached, before, n, m) && SameCharge(m, l) && Stands(reached(before + [s]).lines, l)
    ensures WrittenByMerge(reached, before + [s], n, l)
  {
    var steps := before + [s];
    assert steps[..n] == before[..n];
    forall k | n < k <= |steps| ensures Stands(reached(steps[..k]).lines, l) {
      if k <= |before| {
        assert steps[..k] == before[..k];
        var lines := reached(before[..k]).lines;
        var j :| 0 <= j < |lines| && SameCharge(lines[j], m);
        assert SameCharge(lines[j], l);
      } else {
        assert steps[..k] == steps;
      }
    }
  }

  lemma JustWritten(reached: seq<Step> -> Shop, before: seq<Step>, s: Step, l: Line)
    requires s.MergeGuest? && ChargedOtherwise(l, reached(before).products) && Stands(reached(before + [s]).lines, l)
    ensures WrittenByMerge(reached, before + [s], |before|, l)
  {
    var steps := before + [s];
    assert steps[..|before|] == before;
    forall k | |before| < k <= |steps| ensures Stands(reached(steps[..k]).lines, l) {
      assert steps[..k] == steps;
    }
  }

  /** After any run a line that is not charged at its own price was last written by a merge at another price. */
  lemma {:induction false} MispricedByMerge(steps: seq<Step>, l: Line) returns (n: nat)
    requires l in RunAll(EMPTY, steps).lines && !Priced(l)
    ensures WrittenByMerge(Reached(), steps, n, l)
    decreases |steps|
  {
    var before, s := steps[..|steps| - 1], steps[|steps| - 1];
    var shop := RunAll(EMPTY, before);
    assert before + [s] == steps;
    RunKeepsPricing(before);
    StepExplains(shop, s, l);
    StandsWithin(RunAll(EMPTY, steps).lines, l);
    if Stands(shop.lines, l) {
      var k :| 0 <= k < |shop.lines| && SameCharge(shop.lines[k], l);
      n := MispricedByMerge(before, shop.lines[k]);
      StandsFurther(Reached(), before, s, n, shop.lines[k], l);
    } else {
      n := |before|;
      JustWritten(Reached(), before, s, l);
    }
  }

  /** After a run without merges every line is charged at its own price, without discount. */
  lemma WithoutMergesPriced(steps: seq<Step>, l: Line)
    requires l in RunAll(EMPTY, steps).lines && forall i :: 0 <= i < |steps| ==> !steps[i].MergeGuest?
    ensures l.subtotal == l.price * l.quantity && l.total == l.subtotal && l.discount == 0
  {
    RunKeepsPricing(steps);
    assert LinePricing(l, RunAll(EMPTY, steps).carts);
    if !Priced(l) { var _ := MispricedByMerge(steps, l); }
  }
}
