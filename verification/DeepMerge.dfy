/** Deep merge of two objects, and the laws it keeps. */
module DeepMerge {
  import opened Prelude
  import opened Json
  import opened Lists

  /** What a key of the source becomes, given what the target held under it. */
  function Combined(old_: Option<Json>, v: Json): Json
    decreases v, 0, 0
  {
    if v.Obj? && old_.Some? && old_.value.Obj? then Obj(MergedUpTo(old_.value.fields, v.fields, |v.fields|)) else v
  }

  /** The result after the first n keys of the source. */
  function MergedUpTo(target: seq<Field>, source: seq<Field>, n: nat): seq<Field>
    requires n <= |source|
    decreases source, 1, n
  {
    if n == 0 then target
    else
      var result := MergedUpTo(target, source, n - 1);
      var f := source[n - 1];
      Put(result, f.key, Combined(Get(result, f.key), f.value))
  }

  function Merged(target: seq<Field>, source: seq<Field>): seq<Field>
  {
    MergedUpTo(target, source, |source|)
  }

  method DeepMerge(target: seq<Field>, source: seq<Field>) returns (result: seq<Field>)
    ensures result == Merged(target, source)
    decreases source
  {
    result := target;
    var i := 0;
    while i < |source|
      invariant 0 <= i <= |source|
      invariant result == MergedUpTo(target, source, i)
    {
      var key, sourceValue := source[i].key, source[i].value;
      var targetValue := Get(result, key);
      if sourceValue.Obj? && targetValue.Some? && targetValue.value.Obj? {
        var nested := DeepMerge(targetValue.value.fields, sourceValue.fields);
        result := Put(result, key, Obj(nested));
      } else {
        result := Put(result, key, sourceValue);
      }
      i := i + 1;
    }
  }

  // ---------------------------------------------------------------- the merge read key by key

  /** The value under a key of the merge, from the values under it in target and source. */
  function At(t: Option<Json>, s: Option<Json>): Option<Json>
  {
    match s case None => t case Some(v) => Some(Combined(t, v))
  }

  lemma {:induction false} MergedUpToFacts(t: seq<Field>, s: seq<Field>, n: nat)
    requires DistinctKeys(t) && DistinctKeys(s) && n <= |s|
    ensures DistinctKeys(MergedUpTo(t, s, n))
    ensures KeysOf(MergedUpTo(t, s, n)) == KeysOf(t) + Minus(KeysOf(s[..n]), KeysOf(t))
    ensures forall k :: Get(MergedUpTo(t, s, n), k) == At(Get(t, k), Get(s[..n], k))
    decreases n
  {
    if n == 0 {
      assert KeysOf(t) + [] == KeysOf(t);
    } else {
      MergedUpToFacts(t, s, n - 1);
      var r, f := MergedUpTo(t, s, n - 1), s[n - 1];
      PutFacts(r, f.key, Combined(Get(r, f.key), f.value));
      NextKey(s, n);
      NextKeys(KeysOf(t), KeysOf(s[..n - 1]), f.key);
    }
  }

  /** Taking one field more of the source, whose key is new there. */
  lemma NextKey(s: seq<Field>, n: nat)
    requires DistinctKeys(s) && 0 < n <= |s|
    ensures KeysOf(s[..n]) == KeysOf(s[..n - 1]) + [s[n - 1].key]
    ensures s[n - 1].key !in KeysOf(s[..n - 1])
    ensures Get(s[..n - 1], s[n - 1].key) == None
    ensures forall k :: Get(s[..n], k) == if k == s[n - 1].key then Some(s[n - 1].value) else Get(s[..n - 1], k)
  {
    var f := s[n - 1];
    assert s[..n] == s[..n - 1] + [f];
    GetFinds(s[..n - 1], f.key);
    forall k ensures Get(s[..n], k) == if k == f.key then Some(f.value) else Get(s[..n - 1], k) {
      GetAppend(s[..n - 1], f, k);
    }
  }

  lemma {:induction false} GetAppend(fs: seq<Field>, f: Field, k: string)
    ensures Get(fs + [f], k) == if Get(fs, k).Some? then Get(fs, k) else if f.key == k then Some(f.value) else None
  {
    if fs == [] {
      assert fs + [f] == [f] && [f][1..] == [];
    } else {
      assert (fs + [f])[1..] == fs[1..] + [f];
      GetAppend(fs[1..], f, k);
    }
  }

  lemma MergedFacts(t: seq<Field>, s: seq<Field>)
    requires DistinctKeys(t) && DistinctKeys(s)
    ensures DistinctKeys(Merged(t, s))
    ensures KeysOf(Merged(t, s)) == KeysOf(t) + Minus(KeysOf(s), KeysOf(t))
    ensures forall k :: Get(Merged(t, s), k) == At(Get(t, k), Get(s, k))
  {
    MergedUpToFacts(t, s, |s|);
    assert s[..|s|] == s;
  }

  lemma GetWellFormed(fs: seq<Field>, k: string)
    requires WellFormed(Obj(fs)) && Get(fs, k).Some?
    ensures WellFormed(Get(fs, k).value)
    ensures Get(fs, k).value < Obj(fs)
  {
    GetFinds(fs, k);
    var i :| 0 <= i < |fs| && fs[i] == Field(k, Get(fs, k).value);
    assert fs[i].value < Obj(fs);
  }

  lemma {:induction false} MergedWellFormed(t: seq<Field>, s: seq<Field>)
    requires WellFormed(Obj(t)) && WellFormed(Obj(s))
    ensures WellFormed(Obj(Merged(t, s)))
    decreases Obj(s)
  {
    MergedFacts(t, s);
    var m := Merged(t, s);
    forall i | 0 <= i < |m| ensures WellFormed(m[i].value) {
      GetAt(m, i);
      var k := m[i].key;
      if Get(t, k).Some? { GetWellFormed(t, k); }
      if Get(s, k).Some? {
        GetWellFormed(s, k);
        if Get(t, k).Some? && Get(t, k).value.Obj? && Get(s, k).value.Obj? {
          MergedWellFormed(Get(t, k).value.fields, Get(s, k).value.fields);
        }
      }
    }
  }

  // ---------------------------------------------------------------- when a merge changes nothing

  /** Every key of a opens c, in order, and so on downwards: merging a under c adds nothing. */
  predicate Covered(a: seq<Field>, c: seq<Field>)
    decreases a
  {
    && KeysOf(a) <= KeysOf(c)
    && forall i :: 0 <= i < |a| && i < |c| ==>
         (a[i].value.Obj? && c[i].value.Obj? ==> Covered(a[i].value.fields, c[i].value.fields))
  }

  /** Merging c onto a gives c back exactly when c covers a. */
  lemma {:induction false} MergeIsSourceExactly(a: seq<Field>, c: seq<Field>)
    requires WellFormed(Obj(a)) && WellFormed(Obj(c))
    ensures Merged(a, c) == c <==> Covered(a, c)
    decreases Obj(a)
  {
    MergedFacts(a, c);
    MinusPrefix(KeysOf(c), KeysOf(a));
    if KeysOf(a) <= KeysOf(c) {
      forall i | 0 <= i < |a|
        ensures a[i].key == c[i].key
        ensures a[i].value.Obj? && c[i].value.Obj? ==>
                  (Merged(a[i].value.fields, c[i].value.fields) == c[i].value.fields
                   <==> Covered(a[i].value.fields, c[i].value.fields))
        ensures Get(Merged(a, c), a[i].key) == Some(Combined(Some(a[i].value), c[i].value))
      {
        assert KeysOf(a)[i] == KeysOf(c)[i];
        GetAt(a, i);
        GetAt(c, i);
        if a[i].value.Obj? && c[i].value.Obj? {
          MergeIsSourceExactly(a[i].value.fields, c[i].value.fields);
        }
      }
      if Covered(a, c) {
        forall k | k in KeysOf(c) ensures Get(Merged(a, c), k) == Get(c, k) {
          var i :| 0 <= i < |c| && KeysOf(c)[i] == k;
          GetAt(c, i);
          GetFinds(a, k);
        }
        SameFields(Merged(a, c), c);
      }
      if Merged(a, c) == c {
        forall i | 0 <= i < |a| && a[i].value.Obj? && c[i].value.Obj?
          ensures Covered(a[i].value.fields, c[i].value.fields)
        {
          GetAt(c, i);
        }
      }
    }
  }

  lemma {:induction false} CoversItself(a: seq<Field>)
    ensures Covered(a, a)
    decreases Obj(a)
  {
    forall i | 0 <= i < |a| && a[i].value.Obj? ensures Covered(a[i].value.fields, a[i].value.fields) {
      CoversItself(a[i].value.fields);
    }
  }

  /** Merging an object with itself changes nothing. */
  lemma Idempotent(a: seq<Field>)
    requires WellFormed(Obj(a))
    ensures Merged(a, a) == a
  {
    CoversItself(a);
    MergeIsSourceExactly(a, a);
  }

  /** Merging the same source twice is merging it once. */
  lemma {:induction false} TwiceIsOnce(a: seq<Field>, s: seq<Field>)
    requires WellFormed(Obj(a)) && WellFormed(Obj(s))
    ensures Merged(Merged(a, s), s) == Merged(a, s)
    decreases Obj(s)
  {
    var m := Merged(a, s);
    MergedWellFormed(a, s);
    MergedFacts(a, s);
    MergedFacts(m, s);
    forall k | k in KeysOf(s) ensures k in KeysOf(m) {
      MinusMember(KeysOf(s), KeysOf(a), k);
    }
    MinusAll(KeysOf(s), KeysOf(m));
    assert KeysOf(Merged(m, s)) == KeysOf(m) + [] == KeysOf(m);
    forall k | k in KeysOf(m) ensures Get(Merged(m, s), k) == Get(m, k) {
      if Get(s, k).Some? {
        GetWellFormed(s, k);
        if Get(s, k).value.Obj? {
          var v := Get(s, k).value.fields;
          if Get(a, k).Some? && Get(a, k).value.Obj? {
            GetWellFormed(a, k);
            TwiceIsOnce(Get(a, k).value.fields, v);
          } else {
            Idempotent(v);
          }
        }
      }
    }
    SameFields(Merged(m, s), m);
  }

  // ---------------------------------------------------------------- what survives

  /** The value at a path of keys, through objects. */
  function AtPath(fs: seq<Field>, path: seq<string>): Option<Json>
    requires path != []
    decreases |path|
  {
    match Get(fs, path[0])
    case None => None
    case Some(v) =>
      if |path| == 1 then Some(v) else if v.Obj? then AtPath(v.fields, path[1..]) else None
  }

  /** A path of one key leads to its value, a longer one through the object under its first key. */
  lemma AtPathMeans(fs: seq<Field>, k: string, rest: seq<string>)
    ensures AtPath(fs, [k]) == Get(fs, k)
    ensures rest != [] ==>
              AtPath(fs, [k] + rest) == if Get(fs, k).Some? && Get(fs, k).value.Obj?
                                        then AtPath(Get(fs, k).value.fields, rest) else None
  {
    assert ([k] + rest)[1..] == rest;
  }

  /** The source leaves the path alone: both have objects on the way down to a key the source does not have. */
  predicate Untouched(t: seq<Field>, s: seq<Field>, path: seq<string>)
    requires path != []
    decreases |path|
  {
    match Get(s, path[0])
    case None => true
    case Some(v) =>
      |path| > 1 && v.Obj? &&
      match Get(t, path[0])
      case Some(u) => u.Obj? && Untouched(u.fields, v.fields, path[1..])
      case None => false
  }

  /**
   * Non-object values of the source are found at their paths, and paths the source leaves alone keep the
   * target's value.
   */
  lemma {:induction false} ValuesSurvive(t: seq<Field>, s: seq<Field>, path: seq<string>)
    requires WellFormed(Obj(t)) && WellFormed(Obj(s)) && path != []
    ensures var v := AtPath(s, path); v.Some? && !v.value.Obj? ==> AtPath(Merged(t, s), path) == v
    ensures Untouched(t, s, path) ==> AtPath(Merged(t, s), path) == AtPath(t, path)
    ensures Get(s, path[0]).None? ==> AtPath(Merged(t, s), path) == AtPath(t, path)
    decreases |path|
  {
    MergedFacts(t, s);
    var k := path[0];
    if Get(s, k).Some? && Get(s, k).value.Obj? && Get(t, k).Some? && Get(t, k).value.Obj? && |path| > 1 {
      GetWellFormed(t, k);
      GetWellFormed(s, k);
      ValuesSurvive(Get(t, k).value.fields, Get(s, k).value.fields, path[1..]);
    }
  }

  /** A merge holds nothing of its own: what stands at a path stood there before, and non-objects unchanged. */
  lemma {:induction false} NothingAdded(t: seq<Field>, s: seq<Field>, path: seq<string>)
    requires WellFormed(Obj(t)) && WellFormed(Obj(s)) && path != []
    ensures var r := AtPath(Merged(t, s), path);
            r.Some? ==>
              if r.value.Obj? then
                || (AtPath(t, path).Some? && AtPath(t, path).value.Obj?)
                || (AtPath(s, path).Some? && AtPath(s, path).value.Obj?)
              else r == AtPath(t, path) || r == AtPath(s, path)
    decreases |path|
  {
    MergedFacts(t, s);
    var k := path[0];
    if Get(s, k).Some? && Get(s, k).value.Obj? && Get(t, k).Some? && Get(t, k).value.Obj? && |path| > 1 {
      GetWellFormed(t, k);
      GetWellFormed(s, k);
      NothingAdded(Get(t, k).value.fields, Get(s, k).value.fields, path[1..]);
    }
  }

  // ---------------------------------------------------------------- associativity

  /**
   * No path has a non-object of b between objects of a and c, unless what c holds there already
   * covers what a holds.
   */
  predicate Compatible(a: seq<Field>, b: seq<Field>, c: seq<Field>)
    decreases a, 1
  {
    forall i :: 0 <= i < |a| ==> CompatibleAt(a, b, c, i)
  }

  predicate CompatibleAt(a: seq<Field>, b: seq<Field>, c: seq<Field>, i: nat)
    requires i < |a|
    decreases a, 0
  {
    var (x, y, z) := (a[i].value, Get(b, a[i].key), Get(c, a[i].key));
    x.Obj? && z.Some? && z.value.Obj? && y.Some? ==>
      if y.value.Obj? then Compatible(x.fields, y.value.fields, z.value.fields) else Covered(x.fields, z.value.fields)
  }

  /** How two ways of merging three objects agree under one key. */
  predicate AgreeAt(a: seq<Field>, b: seq<Field>, c: seq<Field>, k: string)
  {
    At(At(Get(a, k), Get(b, k)), Get(c, k)) == At(Get(a, k), At(Get(b, k), Get(c, k)))
  }

  /** The two groupings list the same keys in the same order. */
  lemma SameKeyOrder(a: seq<Field>, b: seq<Field>, c: seq<Field>)
    requires DistinctKeys(a) && DistinctKeys(b) && DistinctKeys(c)
    ensures KeysOf(Merged(Merged(a, b), c)) == KeysOf(Merged(a, Merged(b, c)))
  {
    var ab, bc := Merged(a, b), Merged(b, c);
    MergedFacts(a, b);
    MergedFacts(b, c);
    MergedFacts(ab, c);
    MergedFacts(a, bc);
    KeyOrder(KeysOf(a), KeysOf(b), KeysOf(c));
  }

  lemma {:induction false} AssociativeExactly(a: seq<Field>, b: seq<Field>, c: seq<Field>)
    requires WellFormed(Obj(a)) && WellFormed(Obj(b)) && WellFormed(Obj(c))
    ensures Merged(Merged(a, b), c) == Merged(a, Merged(b, c)) <==> Compatible(a, b, c)
    decreases Obj(a)
  {
    var left, right := Merged(Merged(a, b), c), Merged(a, Merged(b, c));
    SameKeyOrder(a, b, c);
    MergedFacts(a, b);
    MergedFacts(Merged(a, b), c);
    MergedFacts(b, c);
    MergedFacts(a, Merged(b, c));
    assert forall k :: Get(left, k) == Get(right, k) <==> AgreeAt(a, b, c, k);
    forall i | 0 <= i < |a|
      ensures AgreeAt(a, b, c, a[i].key) <==> CompatibleAt(a, b, c, i)
    {
      AgreesExactlyAt(a, b, c, i);
    }
    if Compatible(a, b, c) {
      forall k | k in KeysOf(left) ensures Get(left, k) == Get(right, k) {
        if k in KeysOf(a) {
          var i :| 0 <= i < |a| && KeysOf(a)[i] == k;
          assert CompatibleAt(a, b, c, i);
        } else {
          GetFinds(a, k);
        }
        assert AgreeAt(a, b, c, k);
      }
      SameFields(left, right);
    }
    if left == right {
      forall i | 0 <= i < |a| ensures CompatibleAt(a, b, c, i) {
        assert Get(left, a[i].key) == Get(right, a[i].key);
      }
    }
  }

  lemma {:induction false} AgreesExactlyAt(a: seq<Field>, b: seq<Field>, c: seq<Field>, i: nat)
    requires WellFormed(Obj(a)) && WellFormed(Obj(b)) && WellFormed(Obj(c)) && i < |a|
    ensures AgreeAt(a, b, c, a[i].key) <==> CompatibleAt(a, b, c, i)
    decreases Obj(a), 0
  {
    var k := a[i].key;
    GetAt(a, i);
    var (x, y, z) := (a[i].value, Get(b, k), Get(c, k));
    if x.Obj? && y.Some? && z.Some? && z.value.Obj? {
      GetWellFormed(b, k);
      GetWellFormed(c, k);
      if y.value.Obj? {
        AssociativeExactly(x.fields, y.value.fields, z.value.fields);
      } else {
        MergeIsSourceExactly(x.fields, z.value.fields);
      }
    }
  }

  /** No path has a non-object of b between objects of a and c. */
  predicate NothingBetween(a: seq<Field>, b: seq<Field>, c: seq<Field>)
    decreases a
  {
    forall i :: 0 <= i < |a| ==>
      var (x, y, z) := (a[i].value, Get(b, a[i].key), Get(c, a[i].key));
      x.Obj? && z.Some? && z.value.Obj? && y.Some? ==>
        y.value.Obj? && NothingBetween(x.fields, y.value.fields, z.value.fields)
  }

  lemma {:induction false} NothingBetweenIsCompatible(a: seq<Field>, b: seq<Field>, c: seq<Field>)
    requires NothingBetween(a, b, c)
    ensures Compatible(a, b, c)
    decreases a
  {
    forall i | 0 <= i < |a| ensures CompatibleAt(a, b, c, i) {
      var (x, y, z) := (a[i].value, Get(b, a[i].key), Get(c, a[i].key));
      if x.Obj? && z.Some? && z.value.Obj? && y.Some? {
        NothingBetweenIsCompatible(x.fields, y.value.fields, z.value.fields);
      }
    }
  }

  lemma AssociativeWithoutGaps(a: seq<Field>, b: seq<Field>, c: seq<Field>)
    requires WellFormed(Obj(a)) && WellFormed(Obj(b)) && WellFormed(Obj(c))
    requires NothingBetween(a, b, c)
    ensures Merged(Merged(a, b), c) == Merged(a, Merged(b, c))
  {
    NothingBetweenIsCompatible(a, b, c);
    AssociativeExactly(a, b, c);
  }

  function Single(key: string, v: Json): seq<Field> { [Field(key, v)] }

  /** A null between two objects breaks associativity: one grouping drops what the other keeps. */
  lemma AssociativityCanFail()
    ensures var a := Single("k", Obj(Single("x", Leaf(Null))));
            var b := Single("k", Leaf(Null));
            var c := Single("k", Obj(Single("y", Leaf(Null))));
            Merged(Merged(a, b), c) != Merged(a, Merged(b, c))
  {
    var x, y := Single("x", Leaf(Null)), Single("y", Leaf(Null));
    var a, b, c := Single("k", Obj(x)), Single("k", Leaf(Null)), Single("k", Obj(y));
    AssociativeExactly(a, b, c);
    assert KeysOf(x)[0] != KeysOf(y)[0];
    assert !Covered(x, y);
    assert !CompatibleAt(a, b, c, 0);
  }
}
