/** The order of keys in a merge: what a list adds to another, in its own order. */
module Lists {

  /** The members of a that b lacks, in a's order. */
  ghost function Minus<T>(a: seq<T>, b: seq<T>): seq<T>
  {
    if a == [] then []
    else Minus(a[..|a| - 1], b) + if a[|a| - 1] in b then [] else [a[|a| - 1]]
  }

  lemma {:induction false} MinusMember<T>(a: seq<T>, b: seq<T>, k: T)
    ensures k in Minus(a, b) <==> k in a && k !in b
  {
    if a != [] { MinusMember(a[..|a| - 1], b, k); }
  }

  lemma MinusPrefix<T>(c: seq<T>, a: seq<T>)
    requires forall i, j :: 0 <= i < j < |c| ==> c[i] != c[j]
    ensures a + Minus(c, a) == c <==> a <= c
  {
    if a <= c {
      MinusOfExtension(c, a);
    }
  }

  lemma {:induction false} MinusOfExtension<T>(c: seq<T>, a: seq<T>)
    requires a <= c && forall i, j :: 0 <= i < j < |c| ==> c[i] != c[j]
    ensures a + Minus(c, a) == c
    decreases |c|
  {
    if a == c {
      MinusAll(c, a);
    } else {
      var n := |c| - 1;
      assert a <= c[..n];
      MinusOfExtension(c[..n], a);
      forall i | 0 <= i < |a| ensures a[i] != c[n] {
        assert a[i] == c[i];
      }
      var rest := Minus(c[..n], a);
      assert a + (rest + [c[n]]) == (a + rest) + [c[n]] == c;
    }
  }

  lemma {:induction false} MinusAll<T>(c: seq<T>, a: seq<T>)
    requires forall k <- c :: k in a
    ensures Minus(c, a) == []
    decreases |c|
  {
    if c != [] { MinusAll(c[..|c| - 1], a); }
  }

  lemma {:induction false} MinusTwice<T>(a: seq<T>, b: seq<T>, c: seq<T>)
    ensures Minus(c, a + Minus(b, a)) == Minus(Minus(c, b), a)
    decreases |c|
  {
    if c != [] {
      var n := |c| - 1;
      MinusTwice(a, b, c[..n]);
      MinusMember(b, a, c[n]);
      var rest := Minus(c[..n], b);
      if c[n] !in b {
        assert (rest + [c[n]])[..|rest|] == rest;
      } else {
        assert rest + [] == rest;
      }
    }
  }

  lemma {:induction false} MinusOfSum<T>(x: seq<T>, y: seq<T>, a: seq<T>)
    ensures Minus(x + y, a) == Minus(x, a) + Minus(y, a)
    decreases |y|
  {
    if y == [] {
      assert x + y == x;
    } else {
      var n := |y| - 1;
      assert (x + y)[..|x + y| - 1] == x + y[..n];
      MinusOfSum(x, y[..n], a);
    }
  }

  lemma Regroup<T>(x: seq<T>, y: seq<T>, z: seq<T>)
    ensures (x + y) + z == x + (y + z)
  {
  }

  lemma KeyOrder<T>(x: seq<T>, y: seq<T>, z: seq<T>)
    ensures (x + Minus(y, x)) + Minus(z, x + Minus(y, x)) == x + Minus(y + Minus(z, y), x)
  {
    MinusTwice(x, y, z);
    MinusOfSum(y, Minus(z, y), x);
    Regroup(x, Minus(y, x), Minus(Minus(z, y), x));
  }

  lemma NextKeys<T>(t: seq<T>, before: seq<T>, k: T)
    requires k !in before
    ensures var done := t + Minus(before, t); (if k in done then done else done + [k]) == t + Minus(before + [k], t)
  {
    var all := before + [k];
    assert all[..|all| - 1] == before && all[|all| - 1] == k;
    var kept := Minus(before, t);
    MinusMember(before, t, k);
    assert t + kept + [k] == t + (kept + [k]);
    assert kept + [] == kept;
  }
}
