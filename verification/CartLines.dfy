/** What the writes to the line table do to the lines of each cart. */
module CartLines {
  import opened Prelude
  import opened CartModel

  predicate LineOk(l: Line, nextLine: int, carts: nat, products: map<string, Product>)
  {
    l.id < nextLine && l.cartId < carts && l.productId in products
  }

  predicate Apart(a: Line, b: Line)
  {
    a.id != b.id && (a.cartId != b.cartId || a.productId != b.productId)
  }

  /** Lines point to carts and products, have their own ids, and a cart has one line for a product. */
  predicate LinesOk(lines: seq<Line>, nextLine: int, carts: nat, products: map<string, Product>)
  {
    && (forall i :: 0 <= i < |lines| ==> LineOk(lines[i], nextLine, carts, products))
    && forall i, j :: 0 <= i < j < |lines| ==> Apart(lines[i], lines[j])
  }

  /** Only the lines of cart c may have changed. */
  ghost predicate OthersSame(before: seq<Line>, after: seq<Line>, c: nat)
  {
    forall k :: k != c ==> LinesOf(after, k) == LinesOf(before, k)
  }

  lemma OthersSameTwice(a: seq<Line>, b: seq<Line>, d: seq<Line>, c: nat)
    requires OthersSame(a, b, c) && OthersSame(b, d, c)
    ensures OthersSame(a, d, c)
  {
  }

  // ---------------------------------------------------------------- appending

  lemma AppendedOf(lines: seq<Line>, l: Line, c: nat)
    ensures LinesOf(lines + [l], c) == LinesOf(lines, c) + if l.cartId == c then [l] else []
  {
  }

  lemma AppendOthers(lines: seq<Line>, l: Line)
    ensures OthersSame(lines, lines + [l], l.cartId)
  {
  }

  lemma AppendOk(lines: seq<Line>, l: Line, nextLine: int, carts: nat, products: map<string, Product>)
    requires LinesOk(lines, nextLine, carts, products) && l.id == nextLine && LineOk(l, nextLine + 1, carts, products)
    requires LineAt(lines, l.cartId, l.productId).None?
    ensures LinesOk(lines + [l], nextLine + 1, carts, products)
  {
  }

  // ---------------------------------------------------------------- rewriting one line

  lemma {:induction false} RewrittenOf(lines: seq<Line>, i: nat, l: Line, c: nat)
    requires i < |lines| && l.cartId == lines[i].cartId && c != l.cartId
    ensures LinesOf(lines[i := l], c) == LinesOf(lines, c)
    decreases |lines|
  {
    var n := |lines| - 1;
    var next := lines[i := l];
    if i < n {
      RewrittenOf(lines[..n], i, l, c);
      assert next[..n] == lines[..n][i := l];
    } else {
      assert next[..n] == lines[..n];
    }
  }

  lemma RewriteOthers(lines: seq<Line>, i: nat, l: Line)
    requires i < |lines| && l.cartId == lines[i].cartId
    ensures OthersSame(lines, lines[i := l], l.cartId)
  {
    forall k | k != l.cartId ensures LinesOf(lines[i := l], k) == LinesOf(lines, k) {
      RewrittenOf(lines, i, l, k);
    }
  }

  predicate SameKeys(a: Line, b: Line)
  {
    a.id == b.id && a.cartId == b.cartId && a.productId == b.productId
  }

  /** Lines that keep their keys one by one stay in order. */
  lemma SameKeysOk(lines: seq<Line>, next: seq<Line>, nextLine: int, carts: nat, products: map<string, Product>)
    requires LinesOk(lines, nextLine, carts, products) && |next| == |lines|
    requires forall i :: 0 <= i < |lines| ==> SameKeys(lines[i], next[i])
    ensures LinesOk(next, nextLine, carts, products)
  {
  }

  lemma RewriteOk(lines: seq<Line>, i: nat, l: Line, nextLine: int, carts: nat, products: map<string, Product>)
    requires LinesOk(lines, nextLine, carts, products) && i < |lines| && SameKeys(lines[i], l)
    ensures LinesOk(lines[i := l], nextLine, carts, products)
  {
  }

  // ---------------------------------------------------------------- removing

  lemma {:induction false} RemovedOf(lines: seq<Line>, i: nat, c: nat)
    requires i < |lines| && c != lines[i].cartId
    ensures LinesOf(lines[..i] + lines[i + 1..], c) == LinesOf(lines, c)
    decreases |lines|
  {
    var n := |lines| - 1;
    var next := lines[..i] + lines[i + 1..];
    if i < n {
      RemovedOf(lines[..n], i, c);
      assert next[..|next| - 1] == lines[..n][..i] + lines[..n][i + 1..];
    } else {
      assert next == lines[..n];
    }
  }

  lemma RemoveOthers(lines: seq<Line>, i: nat)
    requires i < |lines|
    ensures OthersSame(lines, lines[..i] + lines[i + 1..], lines[i].cartId)
  {
    forall k | k != lines[i].cartId ensures LinesOf(lines[..i] + lines[i + 1..], k) == LinesOf(lines, k) {
      RemovedOf(lines, i, k);
    }
  }

  lemma RemoveOk(lines: seq<Line>, i: nat, nextLine: int, carts: nat, products: map<string, Product>)
    requires LinesOk(lines, nextLine, carts, products) && i < |lines|
    ensures LinesOk(lines[..i] + lines[i + 1..], nextLine, carts, products)
  {
  }

  lemma {:induction false} ClearedOf(lines: seq<Line>, c: nat, k: nat)
    ensures LinesOf(WithoutCart(lines, c), k) == if k == c then [] else LinesOf(lines, k)
  {
    if lines != [] {
      var n := |lines| - 1;
      ClearedOf(lines[..n], c, k);
      var kept, front := WithoutCart(lines[..n], c), LinesOf(lines[..n], k);
      assert kept + [] == kept && front + [] == front;
      if lines[n].cartId != c { AppendedOf(kept, lines[n], k); }
    }
  }

  lemma {:induction false} ClearOk(lines: seq<Line>, c: nat, nextLine: int, carts: nat, products: map<string, Product>)
    requires LinesOk(lines, nextLine, carts, products)
    ensures LinesOk(WithoutCart(lines, c), nextLine, carts, products)
    decreases |lines|
  {
    if lines != [] {
      var n := |lines| - 1;
      ClearOk(lines[..n], c, nextLine, carts, products);
      if lines[n].cartId != c { KeepLast(lines, WithoutCart(lines[..n], c), nextLine, carts, products); }
    }
  }

  lemma KeepLast(lines: seq<Line>, kept: seq<Line>, nextLine: int, carts: nat, products: map<string, Product>)
    requires LinesOk(lines, nextLine, carts, products) && lines != []
    requires LinesOk(kept, nextLine, carts, products) && forall l <- kept :: l in lines[..|lines| - 1]
    ensures LinesOk(kept + [lines[|lines| - 1]], nextLine, carts, products)
  {
    var n := |lines| - 1;
    forall i | 0 <= i < |kept| ensures Apart(kept[i], lines[n]) {
      assert kept[i] in kept;
      var j :| 0 <= j < n && lines[j] == kept[i];
    }
  }

  // ---------------------------------------------------------------- flags

  lemma {:induction false} FlaggedOf(lines: seq<Line>, c: nat, products: map<string, Product>, k: nat)
    ensures LinesOf(Flagged(lines, c, products), k) == Flagged(LinesOf(lines, k), c, products)
  {
    if lines != [] {
      var n := |lines| - 1;
      FlaggedOf(lines[..n], c, products, k);
      assert Flagged(lines, c, products)[..n] == Flagged(lines[..n], c, products);
    }
  }

  lemma {:induction false} FlagsCostNothing(lines: seq<Line>, c: nat, products: map<string, Product>)
    ensures SumTotals(Flagged(lines, c, products)) == SumTotals(lines)
  {
    if lines != [] {
      var n := |lines| - 1;
      FlagsCostNothing(lines[..n], c, products);
      assert Flagged(lines, c, products)[..n] == Flagged(lines[..n], c, products);
    }
  }

  lemma {:induction false} NoLines(lines: seq<Line>, c: nat)
    requires forall i :: 0 <= i < |lines| ==> lines[i].cartId != c
    ensures LinesOf(lines, c) == []
    decreases |lines|
  {
    if lines != [] { NoLines(lines[..|lines| - 1], c); }
  }

  lemma {:induction false} LinesOfAreThere(lines: seq<Line>, c: nat)
    ensures forall l :: l in LinesOf(lines, c) <==> l in lines && l.cartId == c
  {
    if lines != [] { LinesOfAreThere(lines[..|lines| - 1], c); }
  }

  // ---------------------------------------------------------------- merging

  lemma MergeOneOthers(m: Merge, u: nat, guest: Line, products: map<string, Product>)
    ensures OthersSame(m.lines, MergeOne(m, u, guest, products).lines, u)
  {
    if guest.productId in products {
      var p := products[guest.productId];
      match LineAt(m.lines, u, guest.productId)
      case Some(i) => RewriteOthers(m.lines, i, MergedLine(m.lines[i], guest, p));
      case None => AppendOthers(m.lines, CopiedLine(guest, m.nextLine, u));
    }
  }

  lemma MergeOneOk(m: Merge, u: nat, guest: Line, carts: nat, products: map<string, Product>)
    requires LinesOk(m.lines, m.nextLine, carts, products) && u < carts
    ensures var r := MergeOne(m, u, guest, products); LinesOk(r.lines, r.nextLine, carts, products)
  {
  }

  /** The merge loop touches the user's lines only and keeps the table in order. */
  lemma {:induction false} MergeAllOk(start: Merge, u: nat, guests: seq<Line>, carts: nat,
                                      products: map<string, Product>)
    requires LinesOk(start.lines, start.nextLine, carts, products) && u < carts
    ensures var r := MergeAll(start, u, guests, products);
            LinesOk(r.lines, r.nextLine, carts, products) && OthersSame(start.lines, r.lines, u)
  {
    if guests != [] {
      var n := |guests| - 1;
      var before := MergeAll(start, u, guests[..n], products);
      MergeAllOk(start, u, guests[..n], carts, products);
      MergeOneOk(before, u, guests[n], carts, products);
      MergeOneOthers(before, u, guests[n], products);
      OthersSameTwice(start.lines, before.lines, MergeOne(before, u, guests[n], products).lines, u);
    }
  }
}
