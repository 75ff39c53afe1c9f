/** The category table, its parent relation, and the tree built from the active rows. */
module CategoryTree {
  import opened Prelude

  datatype Category = Category(
    id: string,
    parentId: Option<string>,
    name: string,
    slug: string,
    description: Option<string>,
    imageUrl: Option<string>,
    isActive: bool,
    sortOrder: int)

  datatype Node = Node(category: Category, children: seq<Node>)

  // ---------------------------------------------------------------- lookups

  function Find(cats: seq<Category>, id: string): (r: Option<Category>)
    ensures r.Some? ==> r.value in cats && r.value.id == id
    ensures r.None? ==> forall c <- cats :: c.id != id
  {
    if cats == [] then None
    else if cats[0].id == id then Some(cats[0])
    else Find(cats[1..], id)
  }

  predicate DistinctIds(cats: seq<Category>)
  {
    forall i, j :: 0 <= i < j < |cats| ==> cats[i].id != cats[j].id
  }

  lemma FindIsTheRow(cats: seq<Category>, c: Category)
    requires DistinctIds(cats) && c in cats
    ensures Find(cats, c.id) == Some(c)
  {
  }

  /** The rows directly under a parent, in list order. */
  function Level(cats: seq<Category>, parentId: Option<string>): (r: seq<Category>)
    ensures forall c :: c in r <==> c in cats && c.parentId == parentId
  {
    if cats == [] then []
    else if cats[0].parentId == parentId then [cats[0]] + Level(cats[1..], parentId)
    else Level(cats[1..], parentId)
  }

  lemma {:induction false} LevelIsDistinct(cats: seq<Category>, parentId: Option<string>)
    requires DistinctIds(cats)
    ensures DistinctIds(Level(cats, parentId))
  {
    if cats != [] {
      LevelIsDistinct(cats[1..], parentId);
      forall c | c in Level(cats[1..], parentId) ensures c.id != cats[0].id {
        assert c in cats[1..];
      }
    }
  }

  // ---------------------------------------------------------------- chains of listed ancestors

  /** chain lists the ancestors of a level from the top down; it ends at parentId, and starts at null. */
  predicate Chain(cats: seq<Category>, parentId: Option<string>, chain: seq<string>)
    decreases |chain|
  {
    if chain == [] then parentId == None
    else
      var last := chain[|chain| - 1];
      && parentId == Some(last)
      && Find(cats, last).Some?
      && Chain(cats, Find(cats, last).value.parentId, chain[..|chain| - 1])
  }

  lemma {:induction false} ChainIsUnique(cats: seq<Category>, parentId: Option<string>, a: seq<string>, b: seq<string>)
    requires Chain(cats, parentId, a) && Chain(cats, parentId, b)
    ensures a == b
    decreases |a|
  {
    if a != [] {
      ChainIsUnique(cats, Find(cats, a[|a| - 1]).value.parentId, a[..|a| - 1], b[..|b| - 1]);
      assert a == a[..|a| - 1] + [a[|a| - 1]];
      assert b == b[..|b| - 1] + [b[|b| - 1]];
    }
  }

  lemma {:induction false} ChainPrefix(cats: seq<Category>, parentId: Option<string>, chain: seq<string>, k: nat)
    requires Chain(cats, parentId, chain) && k < |chain|
    ensures Chain(cats, Some(chain[k]), chain[..k + 1])
    decreases |chain|
  {
    if k < |chain| - 1 {
      var shorter := chain[..|chain| - 1];
      ChainPrefix(cats, Find(cats, chain[|chain| - 1]).value.parentId, shorter, k);
      assert shorter[k] == chain[k] && shorter[..k + 1] == chain[..k + 1];
    } else {
      assert chain[..k + 1] == chain;
    }
  }

  lemma ChainIsDistinct(cats: seq<Category>, parentId: Option<string>, chain: seq<string>, i: nat, j: nat)
    requires Chain(cats, parentId, chain) && i < j < |chain|
    ensures chain[i] != chain[j]
  {
    if chain[i] == chain[j] {
      ChainPrefix(cats, parentId, chain, i);
      ChainPrefix(cats, parentId, chain, j);
      ChainIsUnique(cats, Some(chain[i]), chain[..i + 1], chain[..j + 1]);
      assert false;
    }
  }

  function Ids(cats: seq<Category>): set<string>
  {
    if cats == [] then {} else {cats[0].id} + Ids(cats[1..])
  }

  lemma {:induction false} IdsAreFound(cats: seq<Category>, id: string)
    ensures id in Ids(cats) <==> Find(cats, id).Some?
  {
    if cats != [] { IdsAreFound(cats[1..], id); }
  }

  lemma {:induction false} FewIds(cats: seq<Category>)
    ensures |Ids(cats)| <= |cats|
  {
    if cats != [] { FewIds(cats[1..]); }
  }

  /** Pigeonhole: distinct members of a finite set are no more than its size. */
  lemma {:induction false} DistinctFit(s: seq<string>, bound: set<string>)
    requires forall i, j :: 0 <= i < j < |s| ==> s[i] != s[j]
    requires forall x <- s :: x in bound
    ensures |s| <= |bound|
  {
    if s != [] {
      forall x | x in s[1..] ensures x in bound - {s[0]} { }
      DistinctFit(s[1..], bound - {s[0]});
    }
  }

  lemma ChainFits(cats: seq<Category>, parentId: Option<string>, chain: seq<string>)
    requires Chain(cats, parentId, chain)
    ensures |chain| <= |cats|
  {
    forall i, j | 0 <= i < j < |chain| ensures chain[i] != chain[j] {
      ChainIsDistinct(cats, parentId, chain, i, j);
    }
    forall x | x in chain ensures x in Ids(cats) {
      var k :| 0 <= k < |chain| && chain[k] == x;
      ChainPrefix(cats, parentId, chain, k);
      IdsAreFound(cats, x);
    }
    DistinctFit(chain, Ids(cats));
    FewIds(cats);
  }

  lemma ChildChain(cats: seq<Category>, parentId: Option<string>, chain: seq<string>, c: Category)
    requires DistinctIds(cats) && Chain(cats, parentId, chain) && c in Level(cats, parentId)
    ensures Chain(cats, Some(c.id), chain + [c.id])
    ensures |chain| < |cats|
  {
    FindIsTheRow(cats, c);
    var longer := chain + [c.id];
    assert longer[..|longer| - 1] == chain;
    ChainFits(cats, Some(c.id), longer);
  }

  // ---------------------------------------------------------------- the tree

  /** The reference reading of a forest: each level holds exactly the rows under its parent, in list order. */
  predicate Mirrors(cats: seq<Category>, forest: seq<Node>, parentId: Option<string>)
  {
    && |forest| == |Level(cats, parentId)|
    && forall i :: 0 <= i < |forest| ==>
         && forest[i].category == Level(cats, parentId)[i]
         && Mirrors(cats, forest[i].children, Some(forest[i].category.id))
  }

  /**
   * The recursion of the tree builder. It is entered at null and then only with the id of a row
   * just listed, so the ids above it form a chain; that chain bounds the depth, whatever the
   * parent column holds.
   */
  function BuildTree(cats: seq<Category>, parentId: Option<string>, ghost chain: seq<string>): (r: seq<Node>)
    requires DistinctIds(cats) && Chain(cats, parentId, chain)
    ensures Mirrors(cats, r, parentId)
    decreases |cats| - |chain|
  {
    var level := Level(cats, parentId);
    seq(|level|, i requires 0 <= i < |level| =>
      ChildChain(cats, parentId, chain, level[i]);
      Node(level[i], BuildTree(cats, Some(level[i].id), chain + [level[i].id])))
  }

  function Tree(cats: seq<Category>): seq<Node>
    requires DistinctIds(cats)
  {
    BuildTree(cats, None, [])
  }

  /** A category hangs in the tree when its chain of listed ancestors reaches null. */
  ghost predicate Rooted(cats: seq<Category>, id: string)
  {
    exists chain :: Chain(cats, Some(id), chain)
  }

  /** How often a category occurs anywhere in a forest. */
  function Occurrences(forest: seq<Node>, c: Category): nat
  {
    if forest == [] then 0
    else (if forest[0].category == c then 1 else 0) + Occurrences(forest[0].children, c) + Occurrences(forest[1..], c)
  }

  function OccurrencesIn(n: Node, c: Category): nat
  {
    (if n.category == c then 1 else 0) + Occurrences(n.children, c)
  }

  lemma {:induction false} OccurrencesInOnePlace(forest: seq<Node>, c: Category, m: int)
    requires forall i :: 0 <= i < |forest| ==> OccurrencesIn(forest[i], c) == if i == m then 1 else 0
    ensures Occurrences(forest, c) == if 0 <= m < |forest| then 1 else 0
  {
    if forest != [] {
      assert OccurrencesIn(forest[0], c) == if 0 == m then 1 else 0;
      forall i | 0 <= i < |forest[1..]|
        ensures OccurrencesIn(forest[1..][i], c) == if i == m - 1 then 1 else 0
      {
        assert forest[1..][i] == forest[i + 1];
      }
      OccurrencesInOnePlace(forest[1..], c, m - 1);
    }
  }

  /** up is the chain of ancestors of c, c included; the subtree under chain holds c iff up goes on beyond chain. */
  lemma {:induction false} OccurrencesOfRooted(cats: seq<Category>, parentId: Option<string>, chain: seq<string>,
                                               c: Category, up: seq<string>)
    requires DistinctIds(cats) && Chain(cats, parentId, chain)
    requires c in cats && Chain(cats, Some(c.id), up)
    ensures Occurrences(BuildTree(cats, parentId, chain), c) == if chain < up then 1 else 0
    decreases |cats| - |chain|
  {
    var level := Level(cats, parentId);
    var forest := BuildTree(cats, parentId, chain);
    forall i | 0 <= i < |forest|
      ensures OccurrencesIn(forest[i], c) == if chain < up && up[|chain|] == level[i].id then 1 else 0
    {
      var longer := chain + [level[i].id];
      ChildChain(cats, parentId, chain, level[i]);
      OccurrencesOfRooted(cats, Some(level[i].id), longer, c, up);
      HereOrBelow(cats, longer, level[i], c, up);
      PrefixStep(chain, level[i].id, up);
    }
    var m := OnlyRowOnTheWay(cats, parentId, chain, c, up);
    OccurrencesInOnePlace(forest, c, m);
  }

  lemma PrefixStep(chain: seq<string>, x: string, up: seq<string>)
    ensures chain + [x] <= up <==> chain < up && up[|chain|] == x
  {
  }

  /** At most one row of a level lies on the way to c. */
  lemma OnlyRowOnTheWay(cats: seq<Category>, parentId: Option<string>, chain: seq<string>, c: Category, up: seq<string>)
    returns (m: int)
    requires DistinctIds(cats) && Chain(cats, parentId, chain) && Chain(cats, Some(c.id), up)
    ensures chain < up <==> 0 <= m < |Level(cats, parentId)|
    ensures forall i :: 0 <= i < |Level(cats, parentId)| ==>
              (chain < up && up[|chain|] == Level(cats, parentId)[i].id <==> i == m)
  {
    m := -1;
    if chain < up {
      LevelIsDistinct(cats, parentId);
      NextOnTheWay(cats, parentId, chain, c, up);
      var next := Find(cats, up[|chain|]).value;
      IndexOfFinds(Level(cats, parentId), next);
      m := IndexOf(Level(cats, parentId), next.id);
    }
  }

  /** The chain of a category beyond a level goes on with a row of that level. */
  lemma NextOnTheWay(cats: seq<Category>, parentId: Option<string>, chain: seq<string>, c: Category, up: seq<string>)
    requires Chain(cats, parentId, chain) && Chain(cats, Some(c.id), up) && chain < up
    ensures Find(cats, up[|chain|]).Some? && Find(cats, up[|chain|]).value in Level(cats, parentId)
  {
    ChainPrefix(cats, Some(c.id), up, |chain|);
    var above := up[..|chain| + 1];
    assert above[..|above| - 1] == chain;
    ParentAtTheEnd(cats, Find(cats, up[|chain|]).value.parentId, parentId, chain);
  }

  lemma HereOrBelow(cats: seq<Category>, longer: seq<string>, child: Category, c: Category, up: seq<string>)
    requires DistinctIds(cats) && child in cats && c in cats
    requires Chain(cats, Some(child.id), longer) && Chain(cats, Some(c.id), up)
    ensures longer <= up <==> child == c || longer < up
    ensures !(child == c && longer < up)
  {
    FindIsTheRow(cats, child);
    FindIsTheRow(cats, c);
    if child == c {
      ChainIsUnique(cats, Some(c.id), longer, up);
    }
  }

  lemma ParentAtTheEnd(cats: seq<Category>, a: Option<string>, b: Option<string>, chain: seq<string>)
    requires Chain(cats, a, chain) && Chain(cats, b, chain)
    ensures a == b
  {
  }

  function IndexOf(level: seq<Category>, id: string): int
  {
    if level == [] then 0 else if level[0].id == id then 0 else 1 + IndexOf(level[1..], id)
  }

  lemma {:induction false} IndexOfFinds(level: seq<Category>, c: Category)
    requires c in level && DistinctIds(level)
    ensures 0 <= IndexOf(level, c.id) < |level| && level[IndexOf(level, c.id)] == c
    ensures forall i :: 0 <= i < |level| && level[i].id == c.id ==> i == IndexOf(level, c.id)
  {
    if level[0].id != c.id {
      IndexOfFinds(level[1..], c);
      forall i | 0 <= i < |level| && level[i].id == c.id ensures i == IndexOf(level, c.id) {
        assert level[1..][i - 1] == level[i];
      }
    }
  }

  lemma {:induction false} OccurrencesOfUnrooted(cats: seq<Category>, parentId: Option<string>, chain: seq<string>,
                                                 c: Category)
    requires DistinctIds(cats) && Chain(cats, parentId, chain)
    requires !(c in cats && Rooted(cats, c.id))
    ensures Occurrences(BuildTree(cats, parentId, chain), c) == 0
    decreases |cats| - |chain|
  {
    var level := Level(cats, parentId);
    var forest := BuildTree(cats, parentId, chain);
    forall i | 0 <= i < |forest| ensures OccurrencesIn(forest[i], c) == 0 {
      RowIsRooted(cats, parentId, chain, level[i]);
      OccurrencesOfUnrooted(cats, Some(level[i].id), chain + [level[i].id], c);
      assert forest[i] == Node(level[i], BuildTree(cats, Some(level[i].id), chain + [level[i].id]));
    }
    OccurrencesInOnePlace(forest, c, -1);
  }

  lemma RowIsRooted(cats: seq<Category>, parentId: Option<string>, chain: seq<string>, row: Category)
    requires DistinctIds(cats) && Chain(cats, parentId, chain) && row in Level(cats, parentId)
    ensures row in cats && Rooted(cats, row.id) && Chain(cats, Some(row.id), chain + [row.id]) && |chain| < |cats|
  {
    ChildChain(cats, parentId, chain, row);
  }

  /** Whatever the parent column holds: each rooted category occurs exactly once, nothing else occurs. */
  lemma EachRootedCategoryOnce(cats: seq<Category>, c: Category)
    requires DistinctIds(cats)
    ensures Occurrences(Tree(cats), c) == if c in cats && Rooted(cats, c.id) then 1 else 0
  {
    if c in cats && Rooted(cats, c.id) {
      var up :| Chain(cats, Some(c.id), up);
      OccurrencesOfRooted(cats, None, [], c, up);
      assert [] < up;
    } else {
      OccurrencesOfUnrooted(cats, None, [], c);
    }
  }

  lemma {:induction false} MirrorsIsUnique(cats: seq<Category>, f: seq<Node>, g: seq<Node>, parentId: Option<string>)
    requires Mirrors(cats, f, parentId) && Mirrors(cats, g, parentId)
    ensures f == g
  {
    forall i | 0 <= i < |f| ensures f[i] == g[i] {
      MirrorsIsUnique(cats, f[i].children, g[i].children, Some(f[i].category.id));
    }
  }

  /** The built tree is the one forest whose levels are the rows under each parent, in list order. */
  lemma TreeIsTheMirror(cats: seq<Category>, forest: seq<Node>)
    requires DistinctIds(cats)
    ensures Mirrors(cats, forest, None) <==> forest == Tree(cats)
  {
    if Mirrors(cats, forest, None) {
      MirrorsIsUnique(cats, forest, Tree(cats), None);
    }
  }

  // ---------------------------------------------------------------- the order of the active rows

  predicate StringLeq(a: string, b: string)
  {
    a == [] || (b != [] && (a[0] < b[0] || (a[0] == b[0] && StringLeq(a[1..], b[1..]))))
  }

  lemma {:induction false} StringLeqTransitive(a: string, b: string, c: string)
    requires StringLeq(a, b) && StringLeq(b, c)
    ensures StringLeq(a, c)
  {
    if a != [] && a[0] == b[0] == c[0] {
      StringLeqTransitive(a[1..], b[1..], c[1..]);
    }
  }

  lemma {:induction false} StringLeqTotal(a: string, b: string)
    ensures StringLeq(a, b) || StringLeq(b, a)
  {
    if a != [] && b != [] && a[0] == b[0] {
      StringLeqTotal(a[1..], b[1..]);
    }
  }

  /** orderBy sortOrder ascending, then name ascending. */
  predicate Leq(a: Category, b: Category)
  {
    a.sortOrder < b.sortOrder || (a.sortOrder == b.sortOrder && StringLeq(a.name, b.name))
  }

  lemma LeqTransitive(a: Category, b: Category, c: Category)
    requires Leq(a, b) && Leq(b, c)
    ensures Leq(a, c)
  {
    if a.sortOrder == c.sortOrder { StringLeqTransitive(a.name, b.name, c.name); }
  }

  lemma LeqTotal(a: Category, b: Category)
    ensures Leq(a, b) || Leq(b, a)
  {
    StringLeqTotal(a.name, b.name);
  }

  function Insert(c: Category, sorted: seq<Category>): (r: seq<Category>)
    ensures multiset(r) == multiset(sorted) + multiset{c}
  {
    if sorted == [] then [c]
    else if Leq(c, sorted[0]) then [c] + sorted
    else
      assert sorted == [sorted[0]] + sorted[1..];
      [sorted[0]] + Insert(c, sorted[1..])
  }

  /** The active rows in the order the query asks for; rows that tie keep their table order. */
  function ActiveRows(rows: seq<Category>): seq<Category>
  {
    if rows == [] then []
    else if rows[0].isActive then Insert(rows[0], ActiveRows(rows[1..]))
    else ActiveRows(rows[1..])
  }

  predicate Sorted(s: seq<Category>)
  {
    forall i, j :: 0 <= i < j < |s| ==> Leq(s[i], s[j])
  }

  lemma {:induction false} InsertSorts(c: Category, s: seq<Category>)
    requires Sorted(s)
    ensures Sorted(Insert(c, s))
  {
    if s != [] {
      if Leq(c, s[0]) {
        forall i | 0 <= i < |s| ensures Leq(c, s[i]) {
          if i > 0 { LeqTransitive(c, s[0], s[i]); }
        }
      } else {
        LeqTotal(c, s[0]);
        InsertSorts(c, s[1..]);
        var r := Insert(c, s[1..]);
        forall i | 0 <= i < |r| ensures Leq(s[0], r[i]) {
          assert r[i] in multiset(r);
          assert r[i] == c || r[i] in s[1..];
        }
      }
    }
  }

  lemma {:induction false} ActiveRowsAreRight(rows: seq<Category>)
    ensures Sorted(ActiveRows(rows))
    ensures forall c :: multiset(ActiveRows(rows))[c] == if c.isActive then multiset(rows)[c] else 0
  {
    if rows != [] {
      ActiveRowsAreRight(rows[1..]);
      assert rows == [rows[0]] + rows[1..];
      if rows[0].isActive { InsertSorts(rows[0], ActiveRows(rows[1..])); }
    }
  }

  lemma ActiveMembers(rows: seq<Category>, c: Category)
    ensures c in ActiveRows(rows) <==> c in rows && c.isActive
  {
    ActiveRowsAreRight(rows);
    assert c in ActiveRows(rows) <==> c in multiset(ActiveRows(rows));
    assert c in rows <==> c in multiset(rows);
  }

  lemma {:induction false} ActiveIsDistinct(rows: seq<Category>)
    requires DistinctIds(rows)
    ensures DistinctIds(ActiveRows(rows))
  {
    if rows != [] {
      ActiveIsDistinct(rows[1..]);
      if rows[0].isActive {
        var rest := ActiveRows(rows[1..]);
        forall c | c in rest ensures c.id != rows[0].id {
          ActiveMembers(rows[1..], c);
        }
        InsertIsDistinct(rows[0], rest);
      }
    }
  }

  lemma {:induction false} InsertIsDistinct(c: Category, s: seq<Category>)
    requires DistinctIds(s) && forall x <- s :: x.id != c.id
    ensures DistinctIds(Insert(c, s))
  {
    if s != [] && !Leq(c, s[0]) {
      InsertIsDistinct(c, s[1..]);
      var r := Insert(c, s[1..]);
      forall i | 0 <= i < |r| ensures r[i].id != s[0].id {
        assert r[i] in multiset(r);
        assert r[i] == c || r[i] in s[1..];
      }
    }
  }

  /** The tree of a table: what an uncached read returns. */
  function FreshTree(rows: seq<Category>): seq<Node>
    requires DistinctIds(rows)
  {
    ActiveIsDistinct(rows);
    Tree(ActiveRows(rows))
  }

  // ---------------------------------------------------------------- the parent relation of the whole table

  function ParentOf(rows: seq<Category>, id: string): Option<string>
  {
    match Find(rows, id)
    case Some(c) => c.parentId
    case None => None
  }

  /** The ancestor n steps up. */
  function Climb(rows: seq<Category>, id: string, n: nat): Option<string>
    decreases n
  {
    if n == 0 then Some(id)
    else match ParentOf(rows, id)
         case Some(p) => Climb(rows, p, n - 1)
         case None => None
  }

  ghost predicate Acyclic(rows: seq<Category>)
  {
    forall id: string, n: nat :: n >= 1 ==> Climb(rows, id, n) != Some(id)
  }

  ghost predicate InSubtree(rows: seq<Category>, id: string, top: string)
  {
    exists n: nat :: Climb(rows, id, n) == Some(top)
  }

  predicate ParentsExist(rows: seq<Category>)
  {
    forall c <- rows :: c.parentId.Some? ==> Find(rows, c.parentId.value).Some?
  }

  lemma {:induction false} ClimbOn(rows: seq<Category>, id: string, a: nat, b: nat)
    requires Climb(rows, id, a).Some?
    ensures Climb(rows, id, a + b) == Climb(rows, Climb(rows, id, a).value, b)
    decreases a
  {
    if a > 0 { ClimbOn(rows, ParentOf(rows, id).value, a - 1, b); }
  }

  lemma {:induction false} ClimbPart(rows: seq<Category>, id: string, a: nat, b: nat)
    requires Climb(rows, id, b).Some? && a <= b
    ensures Climb(rows, id, a).Some?
    decreases a
  {
    if a > 0 { ClimbPart(rows, ParentOf(rows, id).value, a - 1, b - 1); }
  }

  /** Two tables that agree on all parents but one climb alike until they meet it. */
  lemma {:induction false} ClimbAlike(a: seq<Category>, b: seq<Category>, moved: string, id: string, n: nat)
    requires forall x :: x != moved ==> ParentOf(a, x) == ParentOf(b, x)
    requires forall k: nat :: k < n ==> Climb(a, id, k) != Some(moved)
    ensures Climb(a, id, n) == Climb(b, id, n)
    decreases n
  {
    if n > 0 {
      assert Climb(a, id, 0) == Some(id);
      if ParentOf(a, id).Some? {
        forall k: nat | k < n - 1 ensures Climb(a, ParentOf(a, id).value, k) != Some(moved) {
          assert Climb(a, id, k + 1) != Some(moved);
        }
        ClimbAlike(a, b, moved, ParentOf(a, id).value, n - 1);
      }
    }
  }

  /** The first time a climb meets a category. */
  lemma FirstMeeting(rows: seq<Category>, id: string, top: string, n: nat) returns (m: nat)
    requires Climb(rows, id, n) == Some(top)
    ensures m <= n && Climb(rows, id, m) == Some(top)
    ensures forall k: nat :: k < m ==> Climb(rows, id, k) != Some(top)
  {
    m := 0;
    while Climb(rows, id, m) != Some(top)
      invariant m <= n
      invariant forall k: nat :: k < m ==> Climb(rows, id, k) != Some(top)
      decreases n - m
    {
      m := m + 1;
    }
  }

  /** Giving one category a new parent keeps the table acyclic exactly when the parent lies outside its subtree. */
  lemma ReparentKeepsAcyclic(rows: seq<Category>, next: seq<Category>, moved: string, parent: string)
    requires Acyclic(rows)
    requires forall x :: x != moved ==> ParentOf(rows, x) == ParentOf(next, x)
    requires ParentOf(next, moved) == Some(parent)
    ensures Acyclic(next) <==> !InSubtree(rows, parent, moved)
  {
    if InSubtree(rows, parent, moved) {
      var n: nat :| Climb(rows, parent, n) == Some(moved);
      var m := FirstMeeting(rows, parent, moved, n);
      ClimbAlike(rows, next, moved, parent, m);
      assert Climb(next, moved, m + 1) == Some(moved);
    } else {
      forall id: string, n: nat | n >= 1 ensures Climb(next, id, n) != Some(id) {
        if Climb(next, id, n) == Some(id) {
          LoopMustPass(rows, next, moved, id, n);
          var k: nat :| k < n && Climb(next, id, k) == Some(moved);
          // the loop can be entered at the moved category, hence at its new parent
          ClimbOn(next, id, n, k);
          ClimbOn(next, id, k, n);
          assert Climb(next, moved, n) == Some(moved);
          assert Climb(next, parent, n - 1) == Some(moved);
          var m := FirstMeeting(next, parent, moved, n - 1);
          ClimbAlike(next, rows, moved, parent, m);
          assert InSubtree(rows, parent, moved);
          assert false;
        }
      }
    }
  }

  lemma LoopMustPass(rows: seq<Category>, next: seq<Category>, moved: string, id: string, n: nat)
    requires Acyclic(rows) && n >= 1 && Climb(next, id, n) == Some(id)
    requires forall x :: x != moved ==> ParentOf(rows, x) == ParentOf(next, x)
    ensures exists k: nat :: k < n && Climb(next, id, k) == Some(moved)
  {
    if forall k: nat :: k < n ==> Climb(next, id, k) != Some(moved) {
      ClimbAlike(next, rows, moved, id, n);
      assert false;
    }
  }

  /** Taking a category to the top keeps the table acyclic. */
  lemma UprootKeepsAcyclic(rows: seq<Category>, next: seq<Category>, moved: string)
    requires Acyclic(rows)
    requires forall x :: x != moved ==> ParentOf(rows, x) == ParentOf(next, x)
    requires ParentOf(next, moved) == None
    ensures Acyclic(next)
  {
    forall id: string, n: nat | n >= 1 ensures Climb(next, id, n) != Some(id) {
      if Climb(next, id, n) == Some(id) {
        LoopMustPass(rows, next, moved, id, n);
        var k: nat :| k < n && Climb(next, id, k) == Some(moved);
        ClimbPart(next, id, k + 1, n);
        ClimbOn(next, id, k, 1);
        assert false;
      }
    }
  }

  /** In a table whose parents exist, acyclic means that every category's ancestors reach null. */
  lemma AcyclicMeansRooted(rows: seq<Category>)
    requires DistinctIds(rows) && ParentsExist(rows)
    ensures Acyclic(rows) <==> forall c <- rows :: Rooted(rows, c.id)
  {
    if Acyclic(rows) {
      forall c | c in rows ensures Rooted(rows, c.id) {
        FindIsTheRow(rows, c);
        ClimbEnds(rows, [c.id]);
      }
    } else {
      var id: string, n: nat :| n >= 1 && Climb(rows, id, n) == Some(id);
      assert Find(rows, id).Some?;
      if Rooted(rows, id) {
        var chain :| Chain(rows, Some(id), chain);
        ChainMatchesClimb(rows, id, chain, n);
        assert false;
      }
    }
  }

  /** Along a chain, climbing walks down the list and then stops. */
  lemma ChainMatchesClimb(rows: seq<Category>, id: string, chain: seq<string>, n: nat)
    requires Chain(rows, Some(id), chain) && n >= 1
    ensures Climb(rows, id, n) != Some(id)
  {
    if Climb(rows, id, n) == Some(id) {
      ClimbChain(rows, id, chain, n);
      var shorter :| Chain(rows, Some(id), shorter) && |shorter| + n == |chain|;
      ChainIsUnique(rows, Some(id), chain, shorter);
      assert false;
    }
  }

  lemma {:induction false} ClimbChain(rows: seq<Category>, id: string, chain: seq<string>, n: nat)
    requires Chain(rows, Some(id), chain) && Climb(rows, id, n).Some?
    ensures exists shorter :: Chain(rows, Climb(rows, id, n), shorter) && |shorter| + n == |chain|
    decreases n
  {
    if n == 0 {
      assert Chain(rows, Climb(rows, id, n), chain);
    } else {
      ClimbChain(rows, ParentOf(rows, id).value, chain[..|chain| - 1], n - 1);
    }
  }

  /** path climbs from its first category, one step at a time, through rows of the table. */
  predicate IsClimb(rows: seq<Category>, path: seq<string>)
  {
    && (forall k :: 0 <= k < |path| ==> Find(rows, path[k]).Some?)
    && (forall k :: 0 < k < |path| ==> ParentOf(rows, path[k - 1]) == Some(path[k]))
  }

  lemma {:induction false} ClimbAlong(rows: seq<Category>, path: seq<string>, i: nat, j: nat)
    requires IsClimb(rows, path) && i <= j < |path|
    ensures Climb(rows, path[i], j - i) == Some(path[j])
    decreases j - i
  {
    if i < j {
      assert ParentOf(rows, path[i + 1 - 1]) == Some(path[i + 1]);
      ClimbAlong(rows, path, i + 1, j);
    }
  }

  lemma ClimbIsShort(rows: seq<Category>, path: seq<string>)
    requires Acyclic(rows) && IsClimb(rows, path)
    ensures |path| <= |Ids(rows)|
  {
    forall i, j | 0 <= i < j < |path| ensures path[i] != path[j] {
      ClimbAlong(rows, path, i, j);
    }
    forall x | x in path ensures x in Ids(rows) {
      IdsAreFound(rows, x);
    }
    DistinctFit(path, Ids(rows));
  }

  lemma LongerClimb(rows: seq<Category>, path: seq<string>, p: string)
    requires path != [] && IsClimb(rows, path)
    requires ParentOf(rows, path[|path| - 1]) == Some(p) && Find(rows, p).Some?
    ensures IsClimb(rows, path + [p])
  {
  }

  /** Without a loop a climb must end, because there are only so many categories. */
  lemma {:induction false} ClimbEnds(rows: seq<Category>, path: seq<string>)
    requires Acyclic(rows) && ParentsExist(rows) && path != [] && IsClimb(rows, path)
    ensures Rooted(rows, path[0])
    decreases |Ids(rows)| - |path|
  {
    var last := path[|path| - 1];
    match ParentOf(rows, last) {
      case None => PathIsChain(rows, path);
      case Some(p) =>
        assert Find(rows, last).value in rows;
        LongerClimb(rows, path, p);
        ClimbIsShort(rows, path + [p]);
        ClimbEnds(rows, path + [p]);
    }
  }

  lemma {:induction false} PathIsChain(rows: seq<Category>, path: seq<string>)
    requires path != [] && IsClimb(rows, path)
    requires ParentOf(rows, path[|path| - 1]) == None
    ensures Rooted(rows, path[0])
  {
    if |path| == 1 {
      assert [path[0]][..0] == [];
      assert Chain(rows, Some(path[0]), [path[0]]);
    } else {
      assert ParentOf(rows, path[0]) == Some(path[1]);
      assert forall k :: 0 < k < |path[1..]| ==> path[1..][k - 1] == path[k] && path[1..][k] == path[k + 1];
      PathIsChain(rows, path[1..]);
      var chain :| Chain(rows, Some(path[1]), chain);
      var longer := chain + [path[0]];
      assert longer[..|longer| - 1] == chain;
      assert Chain(rows, Some(path[0]), longer);
    }
  }

  // ---------------------------------------------------------------- taking one leaf out

  function Without(cats: seq<Category>, id: string): (r: seq<Category>)
    ensures forall c :: c in r <==> c in cats && c.id != id
  {
    if cats == [] then []
    else (if cats[0].id == id then [] else [cats[0]]) + Without(cats[1..], id)
  }

  lemma WithoutFirst(c: Category, s: seq<Category>, id: string)
    ensures Without([c] + s, id) == if c.id == id then Without(s, id) else [c] + Without(s, id)
  {
  }

  function Pruned(forest: seq<Node>, id: string): seq<Node>
  {
    if forest == [] then []
    else (if forest[0].category.id == id then [] else [Node(forest[0].category, Pruned(forest[0].children, id))])
         + Pruned(forest[1..], id)
  }

  lemma {:induction false} LevelWithout(cats: seq<Category>, id: string, parentId: Option<string>)
    ensures Level(Without(cats, id), parentId) == Without(Level(cats, parentId), id)
  {
    if cats != [] {
      var rest := cats[1..];
      LevelWithout(rest, id, parentId);
      assert cats == [cats[0]] + rest;
      WithoutFirst(cats[0], rest, id);
      WithoutFirst(cats[0], Level(rest, parentId), id);
      assert ([cats[0]] + Without(rest, id))[1..] == Without(rest, id);
    }
  }

  /** A forest matched against the rows of its level. */
  predicate MatchesRows(cats: seq<Category>, forest: seq<Node>, level: seq<Category>)
  {
    && |forest| == |level|
    && forall i :: 0 <= i < |forest| ==>
         forest[i].category == level[i] && Mirrors(cats, forest[i].children, Some(level[i].id))
  }

  lemma MatchesOneMore(cats: seq<Category>, n: Node, forest: seq<Node>, level: seq<Category>)
    requires MatchesRows(cats, forest, level) && Mirrors(cats, n.children, Some(n.category.id))
    ensures MatchesRows(cats, [n] + forest, [n.category] + level)
  {
  }

  lemma WithoutHead(level: seq<Category>, id: string)
    requires level != []
    ensures Without(level, id)
         == if level[0].id == id then Without(level[1..], id) else [level[0]] + Without(level[1..], id)
  {
    assert [] + Without(level[1..], id) == Without(level[1..], id);
  }

  lemma PrunedHead(forest: seq<Node>, id: string)
    requires forest != []
    ensures var f, n := Pruned(forest[1..], id), forest[0];
            Pruned(forest, id) == if n.category.id == id then f else [Node(n.category, Pruned(n.children, id))] + f
  {
    assert [] + Pruned(forest[1..], id) == Pruned(forest[1..], id);
  }

  lemma {:induction false} PrunedMatches(cats: seq<Category>, forest: seq<Node>, level: seq<Category>, id: string)
    requires MatchesRows(cats, forest, level)
    requires forall c <- cats :: c.parentId != Some(id)
    ensures MatchesRows(Without(cats, id), Pruned(forest, id), Without(level, id))
  {
    if forest != [] {
      PrunedMatches(cats, forest[1..], level[1..], id);
      var kids, parent := forest[0].children, Some(level[0].id);
      PrunedMatches(cats, kids, Level(cats, parent), id);
      LevelWithout(cats, id, parent);
      assert Mirrors(Without(cats, id), Pruned(kids, id), parent);
      WithoutHead(level, id);
      PrunedHead(forest, id);
      if level[0].id != id {
        MatchesOneMore(Without(cats, id), Node(level[0], Pruned(kids, id)), Pruned(forest[1..], id),
                       Without(level[1..], id));
      }
    }
  }

  /** Without a leaf, the tree is the old tree with that one node taken out. */
  lemma TreeWithoutLeaf(cats: seq<Category>, id: string)
    requires DistinctIds(cats) && forall c <- cats :: c.parentId != Some(id)
    ensures DistinctIds(Without(cats, id))
    ensures Tree(Without(cats, id)) == Pruned(Tree(cats), id)
  {
    WithoutIsDistinct(cats, id);
    PrunedMatches(cats, Tree(cats), Level(cats, None), id);
    LevelWithout(cats, id, None);
    TreeIsTheMirror(Without(cats, id), Pruned(Tree(cats), id));
  }

  lemma {:induction false} WithoutIsDistinct(cats: seq<Category>, id: string)
    requires DistinctIds(cats)
    ensures DistinctIds(Without(cats, id))
  {
    if cats != [] {
      WithoutIsDistinct(cats[1..], id);
    }
  }

  /** Pruning a leaf lowers the count of that category to zero and leaves every other count as it was. */
  lemma {:induction false} PrunedOccurrences(forest: seq<Node>, id: string, c: Category)
    requires LeafIn(forest, id)
    ensures Occurrences(Pruned(forest, id), c) == if c.id == id then 0 else Occurrences(forest, c)
  {
    if forest != [] {
      var kids := forest[0].children;
      PrunedOccurrences(kids, id, c);
      PrunedOccurrences(forest[1..], id, c);
      var rest := Pruned(forest[1..], id);
      assert [] + rest == rest;
      assert ([Node(forest[0].category, Pruned(kids, id))] + rest)[1..] == rest;
    }
  }

  /** No node of the forest with this id has children. */
  predicate LeafIn(forest: seq<Node>, id: string)
  {
    forest == [] ||
    (&& (forest[0].category.id == id ==> forest[0].children == [])
     && LeafIn(forest[0].children, id) && LeafIn(forest[1..], id))
  }

  // ---------------------------------------------------------------- deactivating a row

  /** The table after an update of the row with this id; f keeps ids. */
  function Edited(rows: seq<Category>, id: string, f: Category -> Category): (r: seq<Category>)
    ensures |r| == |rows|
    ensures forall i :: 0 <= i < |rows| ==> r[i] == if rows[i].id == id then f(rows[i]) else rows[i]
  {
    if rows == [] then []
    else [if rows[0].id == id then f(rows[0]) else rows[0]] + Edited(rows[1..], id, f)
  }

  lemma {:induction false} FindEdited(rows: seq<Category>, id: string, f: Category -> Category, x: string)
    requires forall c :: f(c).id == c.id
    ensures Find(Edited(rows, id, f), x)
         == match Find(rows, x) case None => None case Some(c) => Some(if c.id == id then f(c) else c)
  {
    if rows != [] {
      FindEdited(rows[1..], id, f, x);
      assert Edited(rows, id, f)[1..] == Edited(rows[1..], id, f);
    }
  }

  function Deactivated(rows: seq<Category>, id: string): (r: seq<Category>)
    ensures |r| == |rows|
    ensures forall i :: 0 <= i < |rows| ==> r[i] == if rows[i].id == id then rows[i].(isActive := false) else rows[i]
  {
    Edited(rows, id, (c: Category) => c.(isActive := false))
  }

  /** A row that goes before all of a list goes before all that is left of it. */
  lemma InsertFirst(c: Category, s: seq<Category>, id: string)
    requires Sorted(s) && (s != [] ==> Leq(c, s[0]))
    ensures Insert(c, Without(s, id)) == [c] + Without(s, id)
  {
    var w := Without(s, id);
    if w != [] {
      assert w[0] in s;
      var i :| 0 <= i < |s| && s[i] == w[0];
      if i > 0 { LeqTransitive(c, s[0], s[i]); }
    }
  }

  lemma {:induction false} InsertWithout(c: Category, s: seq<Category>, id: string)
    requires Sorted(s)
    ensures Without(Insert(c, s), id) == if c.id == id then Without(s, id) else Insert(c, Without(s, id))
  {
    if s == [] || Leq(c, s[0]) {
      assert Insert(c, s) == [c] + s;
      WithoutFirst(c, s, id);
      InsertFirst(c, s, id);
    } else {
      var rest := s[1..];
      assert s == [s[0]] + rest;
      InsertWithout(c, rest, id);
      WithoutFirst(s[0], Insert(c, rest), id);
      WithoutFirst(s[0], rest, id);
      if s[0].id != id {
        assert ([s[0]] + Without(rest, id))[1..] == Without(rest, id);
      }
    }
  }

  lemma {:induction false} ActiveDeactivated(rows: seq<Category>, id: string)
    ensures ActiveRows(Deactivated(rows, id)) == Without(ActiveRows(rows), id)
  {
    if rows != [] {
      assert Deactivated(rows, id)[1..] == Deactivated(rows[1..], id);
      ActiveDeactivated(rows[1..], id);
      ActiveRowsAreRight(rows[1..]);
      if rows[0].isActive {
        InsertWithout(rows[0], ActiveRows(rows[1..]), id);
      }
    }
  }

  /** Deactivating a category nobody names as parent takes exactly its node out of the tree. */
  lemma DeactivationPrunes(rows: seq<Category>, id: string)
    requires DistinctIds(rows) && forall c <- rows :: c.parentId != Some(id)
    ensures DistinctIds(Deactivated(rows, id))
    ensures FreshTree(Deactivated(rows, id)) == Pruned(FreshTree(rows), id)
  {
    ActiveIsDistinct(rows);
    ActiveDeactivated(rows, id);
    forall c | c in ActiveRows(rows) ensures c.parentId != Some(id) {
      ActiveMembers(rows, c);
    }
    TreeWithoutLeaf(ActiveRows(rows), id);
  }

  lemma {:induction false} MirrorsLeaf(cats: seq<Category>, forest: seq<Node>, level: seq<Category>, id: string)
    requires MatchesRows(cats, forest, level)
    requires forall c <- cats :: c.parentId != Some(id)
    ensures LeafIn(forest, id)
  {
    if forest != [] {
      MirrorsLeaf(cats, forest[1..], level[1..], id);
      MirrorsLeaf(cats, forest[0].children, Level(cats, Some(level[0].id)), id);
    }
  }

  /** Deactivation takes this one category out of the tree and moves no other in or out. */
  lemma DeactivationTakesOne(rows: seq<Category>, id: string, c: Category)
    requires DistinctIds(rows) && forall x <- rows :: x.parentId != Some(id)
    ensures DistinctIds(Deactivated(rows, id))
    ensures Occurrences(FreshTree(Deactivated(rows, id)), c)
         == if c.id == id then 0 else Occurrences(FreshTree(rows), c)
  {
    DeactivationPrunes(rows, id);
    var cats := ActiveRows(rows);
    ActiveIsDistinct(rows);
    forall x | x in cats ensures x.parentId != Some(id) {
      ActiveMembers(rows, x);
    }
    MirrorsLeaf(cats, Tree(cats), Level(cats, None), id);
    PrunedOccurrences(Tree(cats), id, c);
  }
}
