/**
 * Nested field selection on response objects. Objects live on the heap and the result shares
 * sub-objects with the source, so a later field may write through a shared reference.
 */
module FieldSelection {
  import opened Prelude

  type Path = seq<string>

  datatype Value = Prim(text: string) | Ref(o: JsObject)

  /** A JavaScript object; an array is one too, with its indexes and length as keys. */
  class JsObject {
    var props: map<string, Value>

    constructor ()
      ensures props == map[]
    {
      props := map[];
    }
  }

  // ---------------------------------------------------------------- paths and shapes

  /** A snapshot of some objects. */
  type Graph = map<JsObject, map<string, Value>>

  ghost function Snap(os: set<JsObject>): Graph
    reads os
  {
    map o | o in os :: o.props
  }

  function Last(p: Path): string
    requires p != []
  {
    p[|p| - 1]
  }

  function Front(p: Path): Path
    requires p != []
  {
    p[..|p| - 1]
  }

  /** The value found by walking a path, key by key, from a value. */
  ghost function Follow(g: Graph, v: Value, p: Path): Option<Value>
    decreases |p|
  {
    if p == [] then Some(v)
    else match Follow(g, v, Front(p))
         case Some(Ref(o)) => if o in g && Last(p) in g[o] then Some(g[o][Last(p)]) else None
         case _ => None
  }

  datatype Shape = Absent | AnObject | APrim(text: string)

  function ShapeOf(v: Option<Value>): Shape
  {
    match v case None => Absent case Some(Prim(t)) => APrim(t) case Some(Ref(_)) => AnObject
  }

  ghost function ShapeAt(g: Graph, o: JsObject, p: Path): Shape
  {
    ShapeOf(Follow(g, Ref(o), p))
  }

  ghost function Shapes(g: Graph, o: JsObject): Path -> Shape
  {
    (p: Path) => ShapeAt(g, o, p)
  }

  // ---------------------------------------------------------------- what a selection should be

  /** The path lies at or under a requested path that exists in the source. */
  ghost predicate Covered(src: Path -> Shape, paths: seq<Path>, p: Path)
  {
    exists f :: f in paths && f <= p && src(f) != Absent
  }

  /** The path leads to a requested path that exists in the source, or is the top of a dotted request. */
  ghost predicate OnTheWay(src: Path -> Shape, paths: seq<Path>, p: Path)
  {
    p == [] || exists f :: f in paths && p < f && (src(f) != Absent || |p| == 1)
  }

  /** The selection, path by path; the order of the requests plays no part in it. */
  ghost function Selected(src: Path -> Shape, paths: seq<Path>, p: Path): Shape
  {
    if Covered(src, paths, p) then src(p) else if OnTheWay(src, paths, p) then AnObject else Absent
  }

  /** Shapes of a value: an object at the root, and everything below hangs on an object. */
  ghost predicate IsTree(src: Path -> Shape)
  {
    && src([]) == AnObject
    && forall p: Path :: p != [] && src(p) != Absent ==> src(Front(p)) == AnObject
  }

  lemma {:induction false} AboveIsObject(src: Path -> Shape, p: Path, q: Path)
    requires IsTree(src) && p < q && src(q) != Absent
    ensures src(p) == AnObject
    decreases |q|
  {
    assert src(Front(q)) == AnObject;
    if p != Front(q) {
      assert p < Front(q);
      AboveIsObject(src, p, Front(q));
    }
  }

  lemma ShapesAreATree(g: Graph, o: JsObject)
    ensures IsTree(Shapes(g, o))
  {
  }

  /** Every value that is not an object has the same path and value in the source. */
  lemma NothingInvented(src: Path -> Shape, paths: seq<Path>, p: Path)
    requires Selected(src, paths, p).APrim?
    ensures src(p) == Selected(src, paths, p)
  {
  }

  /** Every requested path present in the source is there, with all below it; nothing else below the top level is. */
  lemma RequestedArePresent(src: Path -> Shape, paths: seq<Path>, f: Path, p: Path)
    requires IsTree(src) && f in paths && src(f) != Absent && f <= p
    ensures Selected(src, paths, p) == src(p)
  {
  }

  lemma NothingExtra(src: Path -> Shape, paths: seq<Path>, p: Path)
    requires IsTree(src) && |p| > 1 && Selected(src, paths, p) != Absent
    ensures src(p) == Selected(src, paths, p)
    ensures exists f :: f in paths && src(f) != Absent && (f <= p || p < f)
  {
    if !Covered(src, paths, p) {
      var f :| f in paths && p < f && src(f) != Absent;
      AboveIsObject(src, p, f);
    }
  }

  /** At the top level exactly the keys are there that a present or a dotted request begins with. */
  lemma TopLevelExactly(src: Path -> Shape, paths: seq<Path>, k: string)
    requires IsTree(src) && forall f <- paths :: f != []
    ensures Selected(src, paths, []) == AnObject
    ensures Selected(src, paths, [k]) != Absent <==>
              exists f :: f in paths && f[0] == k && (src(f) != Absent || |f| > 1)
  {
    if Selected(src, paths, [k]) != Absent {
      var f :| f in paths && (f <= [k] || [k] < f) && (src(f) != Absent || |f| > 1);
      assert f[0] == k;
    }
    if exists f :: f in paths && f[0] == k && (src(f) != Absent || |f| > 1) {
      var f :| f in paths && f[0] == k && (src(f) != Absent || |f| > 1);
      if |f| == 1 {
        assert f == [k] && Covered(src, paths, [k]);
      } else {
        assert [k] < f && OnTheWay(src, paths, [k]);
        if Covered(src, paths, [k]) {
          var x :| x in paths && x <= [k] && src(x) != Absent;
          assert x == [k];
        }
      }
    }
  }

  /** A request with dots opens its top, whether or not the source has anything to select there. */
  ghost predicate Opened(paths: seq<Path>, t: string)
  {
    exists f :: f in paths && |f| > 1 && f[0] == t
  }

  /**
   * Exactly where a selection shows something the source does not: at a top level key that is opened
   * although the source has no object there, unless the key itself is requested and present.
   */
  lemma InventedExactly(src: Path -> Shape, paths: seq<Path>, p: Path)
    requires IsTree(src) && forall f <- paths :: f != []
    ensures Selected(src, paths, p) != Absent && Selected(src, paths, p) != src(p) <==>
              |p| == 1 && src(p) != AnObject && Opened(paths, p[0]) && !(src(p) != Absent && p in paths)
  {
    if |p| == 1 {
      if Opened(paths, p[0]) {
        var f :| f in paths && |f| > 1 && f[0] == p[0];
        assert p < f;
      }
      if Covered(src, paths, p) {
        var f :| f in paths && f <= p && src(f) != Absent;
        assert f == p;
      }
      if OnTheWay(src, paths, p) {
        var f :| f in paths && p < f && (src(f) != Absent || |p| == 1);
        assert f[0] == p[0];
      }
    } else if Selected(src, paths, p) != Absent && p != [] {
      NothingExtra(src, paths, p);
    }
  }

  /** The shapes of an object whose only property is the price 5. */
  ghost function OnlyPrice(p: Path): Shape
  {
    if p == [] then AnObject else if p == ["price"] then APrim("5") else Absent
  }

  lemma OnlyPriceIsATree()
    ensures IsTree(OnlyPrice)
  {
  }

  /** Asking for user.name and price.x of it yields an empty user, and an empty object for the price. */
  lemma SelectionCanInvent(paths: seq<Path>)
    requires paths == [["user", "name"], ["price", "x"]]
    ensures IsTree(OnlyPrice)
    ensures OnlyPrice(["user"]) == Absent && Selected(OnlyPrice, paths, ["user"]) == AnObject
    ensures OnlyPrice(["price"]) == APrim("5") && Selected(OnlyPrice, paths, ["price"]) == AnObject
  {
    OnlyPriceIsATree();
    assert Opened(paths, "user") by { assert paths[0] in paths; }
    assert Opened(paths, "price") by { assert paths[1] in paths; }
    assert ["price"] !in paths;
    InventedExactly(OnlyPrice, paths, ["user"]);
    InventedExactly(OnlyPrice, paths, ["price"]);
  }

  /** The order and repetition of requests play no part. */
  lemma OrderIsIrrelevant(src: Path -> Shape, a: seq<Path>, b: seq<Path>, p: Path)
    requires forall f :: f in a <==> f in b
    ensures Selected(src, a, p) == Selected(src, b, p)
  {
  }

  /** Selecting the same paths again changes nothing. */
  lemma SelectingTwiceIsOnce(src: Path -> Shape, paths: seq<Path>, p: Path)
    requires IsTree(src) && forall f <- paths :: f != []
    ensures Selected((q: Path) => Selected(src, paths, q), paths, p) == Selected(src, paths, p)
  {
  }

  // ---------------------------------------------------------------- the object being built

  /** Objects closed under their references. */
  predicate ClosedIn(g: Graph, s: set<JsObject>)
  {
    forall o :: o in s ==> o in g && forall k :: k in g[o] && g[o][k].Ref? ==> g[o][k].o in s
  }

  /**
   * A half-built result: each new object has its place, and under each of its keys stands either
   * the source's own value for that place or the new object that has that place.
   */
  ghost predicate Built(g: Graph, source: set<JsObject>, root: JsObject, at: map<JsObject, Path>, result: JsObject)
  {
    && root in source && ClosedIn(g, source) && source !! at.Keys
    && result in at && at[result] == []
    && forall o :: o in at ==> o in g && forall k :: k in g[o] ==> Placed(g, root, at, at[o] + [k], g[o][k])
  }

  ghost predicate Placed(g: Graph, root: JsObject, at: map<JsObject, Path>, p: Path, v: Value)
  {
    Follow(g, Ref(root), p) == Some(v) || (v.Ref? && v.o in at && at[v.o] == p)
  }

  lemma {:induction false} SourceStaysInside(g: Graph, source: set<JsObject>, root: JsObject, p: Path)
    requires root in source && ClosedIn(g, source)
    ensures var v := Follow(g, Ref(root), p); v.Some? && v.value.Ref? ==> v.value.o in source
    decreases |p|
  {
    if p != [] { SourceStaysInside(g, source, root, Front(p)); }
  }

  /** What a walk through the result finds is the source's value or the new object of that place. */
  lemma {:induction false} WalkIsPlaced(g: Graph, source: set<JsObject>, root: JsObject, at: map<JsObject, Path>,
                                        result: JsObject, p: Path)
    requires Built(g, source, root, at, result)
    ensures var v := Follow(g, Ref(result), p); v.Some? ==> Placed(g, root, at, p, v.value)
    decreases |p|
  {
    if p != [] && Follow(g, Ref(result), p).Some? {
      WalkIsPlaced(g, source, root, at, result, Front(p));
      assert Front(p) + [Last(p)] == p;
    }
  }

  /** A new object is met only at its place. */
  lemma MetAtItsPlace(g: Graph, source: set<JsObject>, root: JsObject, at: map<JsObject, Path>, result: JsObject,
                      p: Path, o: JsObject)
    requires Built(g, source, root, at, result) && o in at
    requires Follow(g, Ref(result), p) == Some(Ref(o))
    ensures at[o] == p
  {
    WalkIsPlaced(g, source, root, at, result, p);
    SourceStaysInside(g, source, root, p);
  }

  lemma {:induction false} SameSource(g: Graph, h: Graph, source: set<JsObject>, root: JsObject, p: Path)
    requires root in source && ClosedIn(g, source)
    requires forall o :: o in source ==> o in h && h[o] == g[o]
    ensures Follow(h, Ref(root), p) == Follow(g, Ref(root), p)
    decreases |p|
  {
    if p != [] {
      SameSource(g, h, source, root, Front(p));
      SourceStaysInside(g, source, root, Front(p));
    }
  }

  /** The snapshot after one assignment to a key of a new object, and perhaps a new empty object. */
  ghost predicate Assigned(g: Graph, h: Graph, o: JsObject, k: string, v: Value)
  {
    && o in g && o in h && h[o] == g[o][k := v]
    && (forall x :: x in g && x != o ==> x in h && h[x] == g[x])
    && (forall x :: x in h && x !in g ==> v == Ref(x) && h[x] == map[])
  }

  lemma AssignedKeepsSource(g: Graph, h: Graph, source: set<JsObject>, root: JsObject, o: JsObject, k: string,
                            v: Value, p: Path)
    requires root in source && ClosedIn(g, source) && o !in source && Assigned(g, h, o, k, v)
    ensures Follow(h, Ref(root), p) == Follow(g, Ref(root), p)
  {
    SameSource(g, h, source, root, p);
  }

  lemma AssignedStaysBuilt(g: Graph, h: Graph, source: set<JsObject>, root: JsObject, at: map<JsObject, Path>,
                           next: map<JsObject, Path>, result: JsObject, o: JsObject, k: string, v: Value)
    requires Built(g, source, root, at, result) && o in at && Assigned(g, h, o, k, v)
    requires h.Keys == g.Keys + next.Keys && source !! next.Keys
    requires next == at || (v.Ref? && v.o !in g && next == at[v.o := at[o] + [k]])
    requires Placed(g, root, next, at[o] + [k], v)
    ensures Built(h, source, root, next, result)
  {
    forall x, j | x in next && j in h[x] ensures Placed(h, root, next, next[x] + [j], h[x][j]) {
      AssignedKeepsSource(g, h, source, root, o, k, v, next[x] + [j]);
      if x in at && !(x == o && j == k) {
        assert Placed(g, root, at, at[x] + [j], g[x][j]);
      }
    }
  }

  /** One key further down, away from the place written to, both snapshots agree. */
  lemma AssignedElsewhereStep(g: Graph, h: Graph, source: set<JsObject>, root: JsObject, at: map<JsObject, Path>,
                              result: JsObject, o: JsObject, k: string, v: Value, p: Path, x: JsObject)
    requires Built(g, source, root, at, result) && o in at && Assigned(g, h, o, k, v)
    requires p != [] && at[o] + [k] != p && Follow(g, Ref(result), Front(p)) == Some(Ref(x))
    ensures x in g && x in h && (Last(p) in h[x] <==> Last(p) in g[x])
            && (Last(p) in g[x] ==> h[x][Last(p)] == g[x][Last(p)])
  {
    WalkIsPlaced(g, source, root, at, result, Front(p));
    SourceStaysInside(g, source, root, Front(p));
    if x == o {
      MetAtItsPlace(g, source, root, at, result, Front(p), o);
      assert p == Front(p) + [Last(p)];
    }
  }

  /** The assignment shows only at and under the place it writes to. */
  lemma {:induction false} AssignedElsewhere(g: Graph, h: Graph, source: set<JsObject>, root: JsObject,
                                             at: map<JsObject, Path>, result: JsObject, o: JsObject, k: string,
                                             v: Value, p: Path)
    requires Built(g, source, root, at, result) && o in at && Assigned(g, h, o, k, v)
    requires !(at[o] + [k] <= p)
    ensures Follow(h, Ref(result), p) == Follow(g, Ref(result), p)
    decreases |p|
  {
    if p != [] {
      assert Front(p) <= p;
      AssignedElsewhere(g, h, source, root, at, result, o, k, v, Front(p));
      var w := Follow(g, Ref(result), Front(p));
      if w.Some? && w.value.Ref? {
        AssignedElsewhereStep(g, h, source, root, at, result, o, k, v, p, w.value.o);
      }
    }
  }

  /** Where result and source hold the same value, they look the same below. */
  lemma {:induction false} SameBelow(g: Graph, a: Value, b: Value, q: Path, p: Path)
    requires q <= p && Follow(g, a, q) == Follow(g, b, q)
    ensures Follow(g, a, p) == Follow(g, b, p)
    decreases |p|
  {
    if q != p {
      assert q <= Front(p);
      SameBelow(g, a, b, q, Front(p));
    }
  }

  lemma {:induction false} NothingBelow(g: Graph, a: Value, q: Path, p: Path)
    requires q <= p && (q < p || Follow(g, a, q) == None)
    requires match Follow(g, a, q)
             case None => true
             case Some(Prim(_)) => true
             case Some(Ref(o)) => o !in g || g[o] == map[]
    ensures Follow(g, a, p) == None
    decreases |p|
  {
    if q != p {
      assert q <= Front(p);
      if q != Front(p) { NothingBelow(g, a, q, Front(p)); }
    }
  }

  /** A new empty object under a free key shows as an object there, and nowhere else. */
  lemma CreateShows(g: Graph, h: Graph, source: set<JsObject>, root: JsObject, at: map<JsObject, Path>,
                    result: JsObject, o: JsObject, k: string, n: JsObject, p: Path)
    requires Built(g, source, root, at, result) && o in at && k !in g[o] && n !in g && n !in source && n in h
    requires Assigned(g, h, o, k, Ref(n)) && Follow(g, Ref(result), at[o]) == Some(Ref(o))
    ensures Follow(h, Ref(result), at[o] + [k]) == Some(Ref(n))
    ensures ShapeAt(h, result, p) == if p == at[o] + [k] then AnObject else ShapeAt(g, result, p)
  {
    var q := at[o] + [k];
    assert Front(q) == at[o] && Last(q) == k;
    AssignedElsewhere(g, h, source, root, at, result, o, k, Ref(n), at[o]);
    if q <= p {
      if p != q { NothingBelow(h, Ref(result), q, p); }
      NothingBelow(g, Ref(result), q, p);
    } else {
      AssignedElsewhere(g, h, source, root, at, result, o, k, Ref(n), p);
    }
  }

  /** The source's own value under a key shows there with all below it, and nowhere else. */
  lemma SetShows(g: Graph, h: Graph, source: set<JsObject>, root: JsObject, at: map<JsObject, Path>, result: JsObject,
                 o: JsObject, k: string, v: Value, p: Path)
    requires Built(g, source, root, at, result) && o in at && h.Keys == g.Keys
    requires Assigned(g, h, o, k, v) && Follow(g, Ref(result), at[o]) == Some(Ref(o))
    requires Follow(g, Ref(root), at[o] + [k]) == Some(v)
    ensures ShapeAt(h, result, p) == if at[o] + [k] <= p then ShapeAt(g, root, p) else ShapeAt(g, result, p)
  {
    var q := at[o] + [k];
    assert Front(q) == at[o] && Last(q) == k;
    AssignedElsewhere(g, h, source, root, at, result, o, k, v, at[o]);
    AssignedKeepsSource(g, h, source, root, o, k, v, q);
    AssignedKeepsSource(g, h, source, root, o, k, v, p);
    if q <= p {
      SameBelow(h, Ref(result), Ref(root), q, p);
    } else {
      AssignedElsewhere(g, h, source, root, at, result, o, k, v, p);
    }
  }

  lemma {:induction false} ObjectsAbove(g: Graph, v: Value, q: Path, p: Path)
    requires q <= p && Follow(g, v, p).Some?
    ensures Follow(g, v, q).Some? && (q < p ==> Follow(g, v, q).value.Ref?)
    decreases |p|
  {
    if q != p {
      assert q <= Front(p);
      assert Follow(g, v, Front(p)).Some? && Follow(g, v, Front(p)).value.Ref?;
      if q != Front(p) {
        assert q < Front(p);
        ObjectsAbove(g, v, q, Front(p));
      }
    }
  }

  // ---------------------------------------------------------------- spec steps

  /** Opening the top of a dotted request. */
  lemma SelectedWithInvalid(src: Path -> Shape, paths: seq<Path>, f: Path, p: Path)
    requires src(f) == Absent && f != [] && forall x <- paths :: x != []
    ensures Selected(src, paths + [f], p)
         == if p == [f[0]] && |f| > 1 && Selected(src, paths, p) == Absent then AnObject else Selected(src, paths, p)
  {
    assert Covered(src, paths + [f], p) <==> Covered(src, paths, p);
    if Covered(src, paths, p) && |p| == 1 {
      var x :| x in paths && x <= p && src(x) != Absent;
      assert x == p;
    }
    if |p| == 1 && p < f { assert p == [f[0]]; }
    if p == [f[0]] && |f| > 1 { assert f in paths + [f] && p < f; }
    if OnTheWay(src, paths, p) && p != [] {
      var x :| x in paths && p < x && (src(x) != Absent || |p| == 1);
      assert x in paths + [f];
    }
  }

  lemma SelectedWithValid(src: Path -> Shape, paths: seq<Path>, f: Path, p: Path)
    requires IsTree(src) && src(f) != Absent && f != []
    ensures Selected(src, paths + [f], p)
         == if f <= p then src(p) else if p < f then AnObject else Selected(src, paths, p)
  {
    assert f in paths + [f];
    if f <= p {
      assert Covered(src, paths + [f], p);
    } else if p < f {
      AboveIsObject(src, p, f);
      assert OnTheWay(src, paths + [f], p);
    } else {
      assert Covered(src, paths + [f], p) <==> Covered(src, paths, p);
      assert OnTheWay(src, paths + [f], p) <==> OnTheWay(src, paths, p);
    }
  }

  // ---------------------------------------------------------------- the code

  /** All that making a new object under a free key does. */
  lemma Created(g: Graph, h: Graph, source: set<JsObject>, root: JsObject, at: map<JsObject, Path>,
                next: map<JsObject, Path>, result: JsObject, o: JsObject, k: string, n: JsObject)
    requires Built(g, source, root, at, result) && o in at && k !in g[o] && n !in g && n !in source
    requires Assigned(g, h, o, k, Ref(n)) && Follow(g, Ref(result), at[o]) == Some(Ref(o))
    requires next == at[n := at[o] + [k]] && h.Keys == g.Keys + next.Keys && source !! next.Keys
    ensures Built(h, source, root, next, result)
    ensures Follow(h, Ref(result), at[o] + [k]) == Some(Ref(n))
    ensures forall p :: Follow(h, Ref(root), p) == Follow(g, Ref(root), p)
    ensures forall p :: ShapeAt(h, result, p) == if p == at[o] + [k] then AnObject else ShapeAt(g, result, p)
  {
    forall p ensures Follow(h, Ref(root), p) == Follow(g, Ref(root), p) {
      AssignedKeepsSource(g, h, source, root, o, k, Ref(n), p);
    }
    AssignedStaysBuilt(g, h, source, root, at, next, result, o, k, Ref(n));
    CreateShows(g, h, source, root, at, result, o, k, n, at[o] + [k]);
    forall p ensures ShapeAt(h, result, p) == if p == at[o] + [k] then AnObject else ShapeAt(g, result, p) {
      CreateShows(g, h, source, root, at, result, o, k, n, p);
    }
  }

  /** Where the walk goes on through an object that is there. */
  lemma Entered(g: Graph, source: set<JsObject>, root: JsObject, at: map<JsObject, Path>, result: JsObject,
                current: JsObject, path: Path, i: nat)
    requires i < |path| - 1 && Built(g, source, root, at, result) && Follow(g, Ref(root), path).Some?
    requires Follow(g, Ref(result), path[..i]) == Some(Ref(current))
    ensures current in g
    ensures path[i] in g[current] ==>
              g[current][path[i]].Ref? && Follow(g, Ref(result), path[..i + 1]) == Some(Ref(g[current][path[i]].o))
    ensures path[i] !in g[current] ==>
              current in at && at[current] == path[..i] && path[..i + 1] == at[current] + [path[i]]
  {
    var q := path[..i + 1];
    assert Front(q) == path[..i] && Last(q) == path[i];
    ObjectsAbove(g, Ref(root), q, path);
    WalkIsPlaced(g, source, root, at, result, path[..i]);
    SourceStaysInside(g, source, root, path[..i]);
    assert q == path[..i] + [path[i]];
    if path[i] in g[current] { WalkIsPlaced(g, source, root, at, result, q); }
  }

  /** One more place shows as an object; nothing else changed. */
  ghost predicate Opens(g: Graph, h: Graph, root: JsObject, result: JsObject, q: Path)
  {
    && (forall p :: Follow(h, Ref(root), p) == Follow(g, Ref(root), p))
    && (forall p :: ShapeAt(h, result, p) == if p == q then AnObject else ShapeAt(g, result, p))
  }

  /** A new empty object under a free key of an object of the result. */
  method Make(result: JsObject, o: JsObject, key: string, ghost source: set<JsObject>, ghost root: JsObject,
              ghost at: map<JsObject, Path>)
    returns (child: JsObject, ghost next: map<JsObject, Path>)
    requires Built(Snap(source + at.Keys), source, root, at, result)
    requires o in at && key !in o.props && Follow(Snap(source + at.Keys), Ref(result), at[o]) == Some(Ref(o))
    modifies o
    ensures fresh(child) && next == at[child := at[o] + [key]]
    ensures forall x <- source :: x.props == old(x.props)
    ensures Built(Snap(source + next.Keys), source, root, next, result)
    ensures Follow(Snap(source + next.Keys), Ref(result), at[o] + [key]) == Some(Ref(child))
    ensures Opens(old(Snap(source + at.Keys)), Snap(source + next.Keys), root, result, at[o] + [key])
  {
    ghost var g := Snap(source + at.Keys);
    child := new JsObject();
    o.props := o.props[key := Ref(child)];
    next := at[child := at[o] + [key]];
    ghost var h := Snap(source + next.Keys);
    assert Assigned(g, h, o, key, Ref(child));
    Created(g, h, source, root, at, next, result, o, key, child);
  }

  /** One step of the walk: the object under a key, made if it is not there. */
  method Enter(result: JsObject, current: JsObject, path: Path, i: nat, ghost source: set<JsObject>,
               ghost root: JsObject, ghost at: map<JsObject, Path>)
    returns (child: JsObject, ghost next: map<JsObject, Path>)
    requires i < |path| - 1 && Built(Snap(source + at.Keys), source, root, at, result)
    requires Follow(Snap(source + at.Keys), Ref(root), path).Some?
    requires Follow(Snap(source + at.Keys), Ref(result), path[..i]) == Some(Ref(current))
    modifies current
    ensures forall o <- source :: o.props == old(o.props)
    ensures at.Keys <= next.Keys && fresh(next.Keys - at.Keys)
    ensures Built(Snap(source + next.Keys), source, root, next, result)
    ensures Follow(Snap(source + next.Keys), Ref(result), path[..i + 1]) == Some(Ref(child))
    ensures Opens(old(Snap(source + at.Keys)), Snap(source + next.Keys), root, result, path[..i + 1])
  {
    ghost var g := Snap(source + at.Keys);
    var key := path[i];
    Entered(g, source, root, at, result, current, path, i);
    assert current in source + at.Keys && g[current] == current.props;
    if key !in current.props {
      child, next := Make(result, current, key, source, root, at);
    } else {
      ObjectsAlready(g, source, root, at, result, path, i);
      child := current.props[key].o;
      next := at;
    }
  }

  /** A place on the way to a present path that exists in the result shows as an object. */
  lemma ObjectsAlready(g: Graph, source: set<JsObject>, root: JsObject, at: map<JsObject, Path>, result: JsObject,
                       path: Path, i: nat)
    requires i < |path| - 1 && Follow(g, Ref(result), path[..i + 1]).Some?
             && Follow(g, Ref(result), path[..i + 1]).value.Ref?
    ensures Opens(g, g, root, result, path[..i + 1])
  {
  }

  /** After i steps of the walk the first i places on the path show as objects; nothing else changed. */
  ghost predicate Walked(g0: Graph, g: Graph, root: JsObject, result: JsObject, path: Path, i: nat)
  {
    && (forall p :: Follow(g, Ref(root), p) == Follow(g0, Ref(root), p))
    && (forall p :: ShapeAt(g, result, p) == if p <= path && |p| <= i then AnObject else ShapeAt(g0, result, p))
  }

  lemma WalkedOn(g0: Graph, g: Graph, h: Graph, root: JsObject, result: JsObject, path: Path, i: nat)
    requires i < |path| && Walked(g0, g, root, result, path, i) && Opens(g, h, root, result, path[..i + 1])
    ensures Walked(g0, h, root, result, path, i + 1)
  {
  }

  lemma WalkedEnds(g0: Graph, g: Graph, h: Graph, root: JsObject, result: JsObject, path: Path)
    requires path != [] && Walked(g0, g, root, result, path, |path| - 1)
    requires forall p :: Follow(h, Ref(root), p) == Follow(g, Ref(root), p)
    requires forall p :: ShapeAt(h, result, p) == if path <= p then ShapeAt(g, root, p) else ShapeAt(g, result, p)
    ensures forall p :: Follow(h, Ref(root), p) == Follow(g0, Ref(root), p)
    ensures forall p :: ShapeAt(h, result, p)
                     == if path <= p then ShapeAt(g0, root, p)
                        else if p < path then AnObject
                        else ShapeAt(g0, result, p)
  {
  }

  /** Walks to the parent of the path's end, making objects on the way, and writes the value. */
  method SetNestedValue(result: JsObject, path: Path, value: Value, ghost source: set<JsObject>, ghost root: JsObject,
                        ghost at: map<JsObject, Path>)
    returns (ghost next: map<JsObject, Path>)
    requires path != [] && Built(Snap(source + at.Keys), source, root, at, result)
    requires Follow(Snap(source + at.Keys), Ref(root), path) == Some(value)
    modifies source + at.Keys
    ensures forall o <- source :: o.props == old(o.props)
    ensures at.Keys <= next.Keys && fresh(next.Keys - at.Keys)
    ensures Built(Snap(source + next.Keys), source, root, next, result)
    ensures forall p :: Follow(Snap(source + next.Keys), Ref(root), p)
                     == old(Follow(Snap(source + at.Keys), Ref(root), p))
    ensures forall p :: ShapeAt(Snap(source + next.Keys), result, p)
                     == if path <= p then old(ShapeAt(Snap(source + at.Keys), root, p))
                        else if p < path then AnObject
                        else old(ShapeAt(Snap(source + at.Keys), result, p))
  {
    ghost var g0 := Snap(source + at.Keys);
    next := at;
    var current := result;
    var i := 0;
    while i < |path| - 1
      invariant 0 <= i <= |path| - 1
      invariant forall o <- source :: o.props == old(o.props)
      invariant at.Keys <= next.Keys && fresh(next.Keys - at.Keys)
      invariant Built(Snap(source + next.Keys), source, root, next, result)
      invariant Follow(Snap(source + next.Keys), Ref(result), path[..i]) == Some(Ref(current))
      invariant current in source + next.Keys
      invariant Walked(g0, Snap(source + next.Keys), root, result, path, i)
    {
      ghost var g := Snap(source + next.Keys);
      current, next := Enter(result, current, path, i, source, root, next);
      WalkIsPlaced(Snap(source + next.Keys), source, root, next, result, path[..i + 1]);
      SourceStaysInside(Snap(source + next.Keys), source, root, path[..i + 1]);
      WalkedOn(g0, g, Snap(source + next.Keys), root, result, path, i);
      i := i + 1;
    }
    ghost var g1 := Snap(source + next.Keys);
    WriteAt(result, current, path, value, source, root, next);
    WalkedEnds(g0, g1, Snap(source + next.Keys), root, result, path);
  }

  /** The final write of setNestedValue: through a new object or, harmlessly, through a shared one. */
  method WriteAt(result: JsObject, current: JsObject, path: Path, value: Value, ghost source: set<JsObject>,
                 ghost root: JsObject, ghost at: map<JsObject, Path>)
    requires path != [] && Built(Snap(source + at.Keys), source, root, at, result)
    requires Follow(Snap(source + at.Keys), Ref(root), path) == Some(value)
    requires Follow(Snap(source + at.Keys), Ref(result), Front(path)) == Some(Ref(current))
    modifies current
    ensures forall o <- source :: o.props == old(o.props)
    ensures Built(Snap(source + at.Keys), source, root, at, result)
    ensures forall p :: Follow(Snap(source + at.Keys), Ref(root), p)
                     == old(Follow(Snap(source + at.Keys), Ref(root), p))
    ensures forall p :: ShapeAt(Snap(source + at.Keys), result, p)
                     == if path <= p then old(ShapeAt(Snap(source + at.Keys), root, p))
                        else old(ShapeAt(Snap(source + at.Keys), result, p))
  {
    ghost var g := Snap(source + at.Keys);
    var lastKey := path[|path| - 1];
    assert Front(path) + [lastKey] == path;
    WalkIsPlaced(g, source, root, at, result, Front(path));
    SourceStaysInside(g, source, root, Front(path));
    current.props := current.props[lastKey := value];
    ghost var h := Snap(source + at.Keys);
    if current in at {
      MetAtItsPlace(g, source, root, at, result, Front(path), current);
      assert Assigned(g, h, current, lastKey, value);
      forall p ensures Follow(h, Ref(root), p) == Follow(g, Ref(root), p) {
        AssignedKeepsSource(g, h, source, root, current, lastKey, value, p);
      }
      AssignedStaysBuilt(g, h, source, root, at, at, result, current, lastKey, value);
      forall p ensures ShapeAt(h, result, p) == if path <= p then ShapeAt(g, root, p) else ShapeAt(g, result, p) {
        SetShows(g, h, source, root, at, result, current, lastKey, value, p);
      }
    } else {
      assert Follow(g, Ref(root), Front(path)) == Some(Ref(current));
      assert lastKey in g[current] && g[current][lastKey] == value;
      assert g[current][lastKey := value] == g[current];
      assert h.Keys == g.Keys && forall o :: o in g ==> h[o] == g[o];
      assert h == g;
      forall p | path <= p ensures ShapeAt(h, result, p) == ShapeAt(g, root, p) {
        SameBelow(g, Ref(result), Ref(root), path, p);
      }
    }
  }

  // ---------------------------------------------------------------- whole selections

  /** The parts of a field between its dots. */
  function Parts(field: string): (r: Path)
    ensures r != []
    ensures |r| > 1 <==> '.' in field
    ensures |r| == 1 ==> r[0] == field
  {
    if field == [] then [[]]
    else
      var rest := Parts(field[1..]);
      if field[0] == '.' then [[]] + rest else [[field[0]] + rest[0]] + rest[1..]
  }

  /** The parts joined with dots; a part put in front comes with a dot of its own. */
  function Dotted(parts: Path): string
    requires parts != []
  {
    if |parts| == 1 then parts[0] else parts[0] + ['.'] + Dotted(parts[1..])
  }

  /** The parts of a field are what its dots separate. */
  lemma {:induction false} PartsAreBetweenDots(field: string)
    ensures Dotted(Parts(field)) == field
    ensures forall part <- Parts(field) :: '.' !in part
  {
    if field != [] {
      var rest := Parts(field[1..]);
      PartsAreBetweenDots(field[1..]);
      assert field == [field[0]] + field[1..];
      if field[0] == '.' {
        assert Parts(field)[1..] == rest;
      } else {
        assert Parts(field)[1..] == rest[1..];
      }
    }
  }

  /** Each field is split, in the order of the request. */
  lemma {:induction false} AllPartsMean(fields: seq<string>)
    ensures |AllParts(fields)| == |fields|
    ensures forall i :: 0 <= i < |fields| ==> AllParts(fields)[i] != [] && Dotted(AllParts(fields)[i]) == fields[i]
    ensures forall i :: 0 <= i < |fields| ==> forall part <- AllParts(fields)[i] :: '.' !in part
  {
    if fields != [] {
      AllPartsMean(fields[..|fields| - 1]);
      PartsAreBetweenDots(fields[|fields| - 1]);
    }
  }

  function AllParts(fields: seq<string>): (r: seq<Path>)
    ensures forall x <- r :: x != []
  {
    if fields == [] then [] else AllParts(fields[..|fields| - 1]) + [Parts(fields[|fields| - 1])]
  }

  lemma OneMorePart(fields: seq<string>, i: nat)
    requires i < |fields|
    ensures AllParts(fields[..i + 1]) == AllParts(fields[..i]) + [Parts(fields[i])]
  {
    assert fields[..i + 1][..i] == fields[..i];
  }

  /** The loop that looks a path up in the source object. */
  method Lookup(obj: JsObject, parts: Path, ghost source: set<JsObject>, ghost g: Graph) returns (found: Option<Value>)
    requires obj in source && ClosedIn(g, source) && forall o <- source :: g[o] == o.props
    ensures found == Follow(g, Ref(obj), parts)
  {
    var current := Ref(obj);
    var i := 0;
    while i < |parts|
      invariant 0 <= i <= |parts|
      invariant Follow(g, Ref(obj), parts[..i]) == Some(current)
    {
      ghost var q := parts[..i + 1];
      assert Front(q) == parts[..i] && Last(q) == parts[i];
      SourceStaysInside(g, source, obj, parts[..i]);
      if current.Ref? && parts[i] in current.o.props {
        current := current.o.props[parts[i]];
      } else {
        if Follow(g, Ref(obj), parts).Some? {
          ObjectsAbove(g, Ref(obj), q, parts);
          assert false;
        }
        return None;
      }
      i := i + 1;
    }
    assert parts[..i] == parts;
    return Some(current);
  }

  /** Opens the top of a dotted request as an empty object if nothing is there yet. */
  method OpenTop(result: JsObject, top: string, ghost source: set<JsObject>, ghost root: JsObject,
                 ghost at: map<JsObject, Path>)
    returns (ghost next: map<JsObject, Path>)
    requires Built(Snap(source + at.Keys), source, root, at, result)
    modifies result
    ensures forall o <- source :: o.props == old(o.props)
    ensures at.Keys <= next.Keys && fresh(next.Keys - at.Keys)
    ensures Built(Snap(source + next.Keys), source, root, next, result)
    ensures forall p :: Follow(Snap(source + next.Keys), Ref(root), p)
                     == old(Follow(Snap(source + at.Keys), Ref(root), p))
    ensures forall p :: ShapeAt(Snap(source + next.Keys), result, p)
                     == if p == [top] && old(ShapeAt(Snap(source + at.Keys), result, p)) == Absent then AnObject
                        else old(ShapeAt(Snap(source + at.Keys), result, p))
  {
    ghost var g := Snap(source + at.Keys);
    assert Front([top]) == [] && Last([top]) == top && [] + [top] == [top];
    next := at;
    assert Follow(g, Ref(result), [top]).Some? <==> top in result.props;
    if top !in result.props {
      var _, made := Make(result, result, top, source, root, at);
      next := made;
    }
  }

  /** How one field changes the shapes of the result. */
  ghost function AfterField(src: Path -> Shape, before: Path -> Shape, f: Path, p: Path): Shape
    requires f != []
  {
    if src(f) != Absent then (if f <= p then src(p) else if p < f then AnObject else before(p))
    else if |f| > 1 && p == [f[0]] && before(p) == Absent then AnObject
    else before(p)
  }

  /** The source looks the same, and the result changes as one field should change it. */
  ghost predicate Changes(g: Graph, h: Graph, obj: JsObject, result: JsObject, f: Path)
    requires f != []
  {
    && (forall p :: Follow(h, Ref(obj), p) == Follow(g, Ref(obj), p))
    && (forall p :: ShapeAt(h, result, p) == AfterField(Shapes(g, obj), Shapes(g, result), f, p))
  }

  /** A field with dots: open its top, look it up, and write what was found. */
  method SelectDotted(obj: JsObject, result: JsObject, field: string, ghost source: set<JsObject>,
                      ghost at: map<JsObject, Path>)
    returns (ghost next: map<JsObject, Path>)
    requires '.' in field
    requires Built(Snap(source + at.Keys), source, obj, at, result)
    modifies source + at.Keys
    ensures forall o <- source :: o.props == old(o.props)
    ensures at.Keys <= next.Keys && fresh(next.Keys - at.Keys)
    ensures Built(Snap(source + next.Keys), source, obj, next, result)
    ensures Changes(old(Snap(source + at.Keys)), Snap(source + next.Keys), obj, result, Parts(field))
  {
    ghost var g := Snap(source + at.Keys);
    var parts := Parts(field);
    next := OpenTop(result, parts[0], source, obj, at);
    ghost var h := Snap(source + next.Keys);
    var found := Lookup(obj, parts, source, Snap(source + next.Keys));
    if found.Some? {
      next := SetNestedValue(result, parts, found.value, source, obj, next);
      OpenedThenWritten(g, h, Snap(source + next.Keys), obj, result, parts);
    }
  }

  lemma OpenedThenWritten(g: Graph, h: Graph, k: Graph, obj: JsObject, result: JsObject, f: Path)
    requires |f| > 1 && Follow(g, Ref(obj), f).Some?
    requires forall p :: Follow(h, Ref(obj), p) == Follow(g, Ref(obj), p)
    requires forall p :: ShapeAt(h, result, p)
                      == if p == [f[0]] && ShapeAt(g, result, p) == Absent then AnObject else ShapeAt(g, result, p)
    requires forall p :: Follow(k, Ref(obj), p) == Follow(h, Ref(obj), p)
    requires forall p :: ShapeAt(k, result, p)
                      == if f <= p then ShapeAt(h, obj, p) else if p < f then AnObject else ShapeAt(h, result, p)
    ensures Changes(g, k, obj, result, f)
  {
  }

  /** A field without dots: copy the property if the source has it. */
  method SelectPlain(obj: JsObject, result: JsObject, field: string, ghost source: set<JsObject>,
                     ghost at: map<JsObject, Path>)
    returns (ghost next: map<JsObject, Path>)
    requires '.' !in field
    requires Built(Snap(source + at.Keys), source, obj, at, result)
    modifies source + at.Keys
    ensures forall o <- source :: o.props == old(o.props)
    ensures at.Keys <= next.Keys && fresh(next.Keys - at.Keys)
    ensures Built(Snap(source + next.Keys), source, obj, next, result)
    ensures Changes(old(Snap(source + at.Keys)), Snap(source + next.Keys), obj, result, Parts(field))
  {
    next := at;
    ghost var g := Snap(source + at.Keys);
    ghost var parts := Parts(field);
    assert parts == [field] && Front(parts) == [] && Last(parts) == field;
    assert Follow(g, Ref(obj), parts).Some? <==> field in obj.props;
    assert ShapeAt(g, result, []) == AnObject;
    if field in obj.props {
      WriteAt(result, result, [field], obj.props[field], source, obj, at);
    }
  }

  lemma AfterFieldSelects(src: Path -> Shape, paths: seq<Path>, f: Path, before: Path -> Shape, p: Path)
    requires IsTree(src) && f != [] && forall x <- paths :: x != []
    requires forall q :: before(q) == Selected(src, paths, q)
    ensures AfterField(src, before, f, p) == Selected(src, paths + [f], p)
  {
    if src(f) != Absent {
      SelectedWithValid(src, paths, f, p);
    } else {
      SelectedWithInvalid(src, paths, f, p);
    }
  }

  ghost predicate SourceShows(g: Graph, o: JsObject, src: Path -> Shape)
  {
    forall p :: ShapeAt(g, o, p) == src(p)
  }

  ghost predicate ShowsSelection(g: Graph, result: JsObject, src: Path -> Shape, paths: seq<Path>)
  {
    forall p :: ShapeAt(g, result, p) == Selected(src, paths, p)
  }

  lemma SelectionGrows(g: Graph, h: Graph, obj: JsObject, result: JsObject, src: Path -> Shape, paths: seq<Path>,
                       f: Path)
    requires IsTree(src) && f != [] && forall x <- paths :: x != []
    requires SourceShows(g, obj, src) && ShowsSelection(g, result, src, paths)
    requires Changes(g, h, obj, result, f)
    ensures SourceShows(h, obj, src) && ShowsSelection(h, result, src, paths + [f])
  {
    forall p ensures ShapeAt(h, obj, p) == src(p) {
      assert ShapeAt(g, obj, p) == src(p);
    }
    forall p ensures ShapeAt(h, result, p) == Selected(src, paths + [f], p) {
      assert ShapeAt(g, obj, f) == src(f) && ShapeAt(g, obj, p) == src(p);
      AfterFieldSelects(src, paths, f, Shapes(g, result), p);
    }
  }

  lemma EmptySelection(g: Graph, h: Graph, source: set<JsObject>, obj: JsObject, result: JsObject)
    requires obj in source && ClosedIn(g, source) && g.Keys == source && result !in source
    requires h == g[result := map[]]
    ensures Built(h, source, obj, map[result := []], result)
    ensures SourceShows(h, obj, Shapes(g, obj)) && ShowsSelection(h, result, Shapes(g, obj), [])
  {
    forall p ensures ShapeAt(h, obj, p) == Shapes(g, obj)(p) {
      SameSource(g, h, source, obj, p);
    }
    forall p ensures ShapeAt(h, result, p) == Selected(Shapes(g, obj), [], p) {
      if p != [] { NothingBelow(h, Ref(result), [], p); }
    }
  }

  /** One round of the loop over the fields. */
  method SelectField(obj: JsObject, result: JsObject, field: string, ghost source: set<JsObject>,
                     ghost at: map<JsObject, Path>, ghost src: Path -> Shape, ghost paths: seq<Path>)
    returns (ghost next: map<JsObject, Path>)
    requires Built(Snap(source + at.Keys), source, obj, at, result)
    requires IsTree(src) && forall x <- paths :: x != []
    requires SourceShows(Snap(source + at.Keys), obj, src) && ShowsSelection(Snap(source + at.Keys), result, src, paths)
    modifies source + at.Keys
    ensures forall o <- source :: o.props == old(o.props)
    ensures at.Keys <= next.Keys && fresh(next.Keys - at.Keys)
    ensures Built(Snap(source + next.Keys), source, obj, next, result)
    ensures SourceShows(Snap(source + next.Keys), obj, src)
    ensures ShowsSelection(Snap(source + next.Keys), result, src, paths + [Parts(field)])
  {
    ghost var g := Snap(source + at.Keys);
    if '.' in field {
      next := SelectDotted(obj, result, field, source, at);
    } else {
      next := SelectPlain(obj, result, field, source, at);
    }
    SelectionGrows(g, Snap(source + next.Keys), obj, result, src, paths, Parts(field));
  }

  /**
   * The nested selection. The result's shape is the declarative selection of the source's, and the
   * source is left exactly as it was although the result shares objects with it.
   */
  method SelectNestedFields(obj: JsObject, fields: seq<string>, ghost source: set<JsObject>)
    returns (result: JsObject, ghost at: map<JsObject, Path>)
    requires obj in source && ClosedIn(Snap(source), source)
    modifies source
    ensures forall o <- source :: o.props == old(o.props)
    ensures result in at && fresh(at.Keys)
    ensures Built(Snap(source + at.Keys), source, obj, at, result)
    ensures ShowsSelection(Snap(source + at.Keys), result, old(Shapes(Snap(source), obj)), AllParts(fields))
  {
    ghost var g0 := Snap(source);
    ghost var src := Shapes(g0, obj);
    ShapesAreATree(g0, obj);
    result := new JsObject();
    at := map[result := []];
    assert Snap(source + at.Keys) == g0[result := map[]];
    EmptySelection(g0, Snap(source + at.Keys), source, obj, result);
    var i := 0;
    while i < |fields|
      invariant 0 <= i <= |fields|
      invariant forall o <- source :: o.props == old(o.props)
      invariant result in at && fresh(at.Keys)
      invariant Built(Snap(source + at.Keys), source, obj, at, result)
      invariant SourceShows(Snap(source + at.Keys), obj, src)
      invariant ShowsSelection(Snap(source + at.Keys), result, src, AllParts(fields[..i]))
    {
      OneMorePart(fields, i);
      at := SelectField(obj, result, fields[i], source, at, src, AllParts(fields[..i]));
      i := i + 1;
    }
    assert fields[..i] == fields;
  }

  // ---------------------------------------------------------------- plain selection and the field list

  /** Selection without nesting: the listed properties the object has, values shared. */
  method SelectTopLevel(obj: JsObject, fields: seq<string>) returns (result: JsObject)
    ensures fresh(result)
    ensures result.props == map f | f in fields && f in obj.props :: obj.props[f]
  {
    result := new JsObject();
    var i := 0;
    while i < |fields|
      invariant 0 <= i <= |fields|
      invariant result.props == map f | f in fields[..i] && f in obj.props :: obj.props[f]
      modifies result
    {
      var field := fields[i];
      assert fields[..i + 1] == fields[..i] + [field];
      if field in obj.props {
        result.props := result.props[field := obj.props[field]];
      }
      i := i + 1;
    }
    assert fields[..i] == fields;
  }

  function AllowedOnly(fields: seq<string>, allowed: seq<string>): seq<string>
  {
    if fields == [] then []
    else
      var last := fields[|fields| - 1];
      AllowedOnly(fields[..|fields| - 1], allowed) + if last in allowed then [last] else []
  }

  /** No allowed list means all are allowed; a maximum of 0 means no maximum. */
  function ValidateFields(requested: seq<string>, allowed: seq<string>, maxFields: nat): seq<string>
  {
    var valid := if allowed != [] then AllowedOnly(requested, allowed) else requested;
    if maxFields != 0 && |valid| > maxFields then valid[..maxFields] else valid
  }

  lemma {:induction false} AllowedInOrder(a: seq<string>, b: seq<string>, allowed: seq<string>)
    ensures AllowedOnly(a + b, allowed) == AllowedOnly(a, allowed) + AllowedOnly(b, allowed)
  {
    if b == [] {
      assert a + b == a;
    } else {
      var n := |b| - 1;
      AllowedInOrder(a, b[..n], allowed);
      assert (a + b)[..|a| + n] == a + b[..n];
    }
  }

  /** At the limit it is the first allowed fields that remain, in the order they were requested. */
  lemma FirstFieldsRemain(requested: seq<string>, allowed: seq<string>, maxFields: nat)
    returns (n: nat)
    ensures n <= |requested|
    ensures ValidateFields(requested, allowed, maxFields) == ValidateFields(requested[..n], allowed, 0)
    ensures n == |requested| || |ValidateFields(requested, allowed, maxFields)| == maxFields
  {
    n := |requested|;
    assert requested[..n] == requested;
    while maxFields != 0 && |ValidateFields(requested[..n], allowed, 0)| > maxFields
      invariant n <= |requested|
      invariant ValidateFields(requested[..n], allowed, 0) <= ValidateFields(requested, allowed, 0)
      invariant n == |requested| || |ValidateFields(requested[..n], allowed, 0)| >= maxFields > 0
      decreases n
    {
      assert requested[..n][..n - 1] == requested[..n - 1];
      n := n - 1;
    }
  }

  lemma {:induction false} AllowedOnlyFacts(fields: seq<string>, allowed: seq<string>, f: string)
    ensures f in AllowedOnly(fields, allowed) <==> f in fields && f in allowed
  {
    if fields != [] { AllowedOnlyFacts(fields[..|fields| - 1], allowed, f); }
  }

  /** Only requested and allowed fields pass, at most the maximum, and below the maximum none is lost. */
  lemma ValidFieldsAreRight(requested: seq<string>, allowed: seq<string>, maxFields: nat, f: string)
    ensures var r := ValidateFields(requested, allowed, maxFields);
            && (f in r ==> f in requested && (allowed == [] || f in allowed))
            && (maxFields != 0 ==> |r| <= maxFields)
            && (f in requested && (allowed == [] || f in allowed) && (maxFields == 0 || |r| < maxFields) ==> f in r)
  {
    AllowedOnlyFacts(requested, allowed, f);
  }
}
