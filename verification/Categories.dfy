/**
 * The category service: the table behind the tagged cache. Reads go through the cache,
 * writes check, store and invalidate.
 */
module Categories {
  import opened Prelude
  import opened CategoryTree
  import Cache = TaggedCache

  const TREE_KEY := "categories:tree"
  const CATEGORY_PREFIX := "category:"
  const CATEGORY_TTL := 600
  const SHARED_TAG := "categories"
  const LIST_TAG := "categories:list"
  const TREE_TAG := "categories:tree"

  datatype Error = BadRequest | NotFound | Database

  datatype Outcome<+T> = Ok(value: T) | Err(error: Error)

  /** A field of a partial update: absent, null, or a value. */
  datatype Change<T> = Keep | Clear | To(value: T)

  datatype CreateDto = CreateDto(
    name: string, slug: string, description: Option<string>, imageUrl: Option<string>,
    parentId: Option<string>, isActive: Option<bool>)

  datatype UpdateDto = UpdateDto(
    name: Option<string>, slug: Option<string>, description: Change<string>, imageUrl: Change<string>,
    parentId: Change<string>, isActive: Option<bool>)

  datatype Ref = Ref(id: string, name: string, slug: string)

  datatype ChildRef = ChildRef(id: string, name: string, slug: string, imageUrl: Option<string>)

  /** One category with its parent and children joined in. */
  datatype View = View(category: Category, parent: Option<Ref>, children: seq<ChildRef>)

  datatype Payload = TreePayload(forest: seq<Node>) | OnePayload(view: View)

  // ---------------------------------------------------------------- fresh reads

  function RefTo(c: Category): Ref { Ref(c.id, c.name, c.slug) }

  function ChildRefTo(c: Category): ChildRef { ChildRef(c.id, c.name, c.slug, c.imageUrl) }

  function ChildRefs(level: seq<Category>): seq<ChildRef>
  {
    seq(|level|, i requires 0 <= i < |level| => ChildRefTo(level[i]))
  }

  function FreshOne(rows: seq<Category>, id: string): Option<View>
  {
    match Find(rows, id)
    case None => None
    case Some(c) =>
      var parent := match c.parentId
                    case None => None
                    case Some(p) => (match Find(rows, p) case None => None case Some(pc) => Some(RefTo(pc)));
      Some(View(c, parent, ChildRefs(Level(rows, Some(id)))))
  }

  // ---------------------------------------------------------------- writes on the table

  function FindSlug(rows: seq<Category>, slug: string): (r: Option<Category>)
    ensures r.None? <==> forall c <- rows :: c.slug != slug
  {
    if rows == [] then None else if rows[0].slug == slug then Some(rows[0]) else FindSlug(rows[1..], slug)
  }

  function NewRow(dto: CreateDto, id: string): Category
  {
    Category(id, dto.parentId, dto.name, dto.slug, dto.description, dto.imageUrl,
             if dto.isActive.Some? then dto.isActive.value else true, 0)
  }

  /** The table after a create; the last two refusals are the database's own constraints. */
  function Created(rows: seq<Category>, dto: CreateDto, id: string): Outcome<seq<Category>>
  {
    if FindSlug(rows, dto.slug).Some? then Err(BadRequest)
    else if dto.parentId.Some? && dto.parentId.value != "" && Find(rows, dto.parentId.value).None? then Err(NotFound)
    else if dto.parentId.Some? && Find(rows, dto.parentId.value).None? then Err(Database)
    else if Find(rows, id).Some? then Err(Database)
    else Ok(rows + [NewRow(dto, id)])
  }

  function Changed<T>(old_: Option<T>, c: Change<T>): Option<T>
  {
    match c case Keep => old_ case Clear => None case To(v) => Some(v)
  }

  function Patched(c: Category, dto: UpdateDto): (r: Category)
    ensures r.id == c.id
  {
    Category(c.id, Changed(c.parentId, dto.parentId),
             if dto.name.Some? then dto.name.value else c.name,
             if dto.slug.Some? then dto.slug.value else c.slug,
             Changed(c.description, dto.description), Changed(c.imageUrl, dto.imageUrl),
             if dto.isActive.Some? then dto.isActive.value else c.isActive, c.sortOrder)
  }

  /** Why an update is refused, if it is. */
  function UpdateRefusal(rows: seq<Category>, id: string, dto: UpdateDto): Option<Error>
  {
    match Find(rows, id)
    case None => Some(NotFound)
    case Some(c) =>
      if dto.slug.Some? && dto.slug.value != "" && dto.slug.value != c.slug && FindSlug(rows, dto.slug.value).Some? then
        Some(BadRequest)
      else if dto.parentId.To? && dto.parentId.value != "" && dto.parentId.value == id then Some(BadRequest)
      else if dto.parentId.To? && dto.parentId.value != "" && Find(rows, dto.parentId.value).None? then Some(NotFound)
      else if dto.parentId.To? && Find(rows, dto.parentId.value).None? then Some(Database)
      else if dto.slug.Some? && dto.slug.value != c.slug && FindSlug(rows, dto.slug.value).Some? then Some(Database)
      else None
  }

  function Updated(rows: seq<Category>, id: string, dto: UpdateDto): Outcome<seq<Category>>
  {
    match UpdateRefusal(rows, id, dto)
    case Some(e) => Err(e)
    case None => Ok(Edited(rows, id, (c: Category) => Patched(c, dto)))
  }

  function Removed(rows: seq<Category>, id: string): Outcome<seq<Category>>
  {
    if Find(rows, id).None? then Err(NotFound)
    else if Level(rows, Some(id)) != [] then Err(BadRequest)
    else Ok(Deactivated(rows, id))
  }

  // ---------------------------------------------------------------- the cache behind the reads

  function TreeTags(): seq<string> { [SHARED_TAG, TREE_TAG] }

  function OneTags(id: string): seq<string> { [SHARED_TAG, CATEGORY_PREFIX + id] }

  function CreateTags(): seq<string> { [SHARED_TAG, LIST_TAG] }

  function WriteTags(id: string): seq<string> { [SHARED_TAG, LIST_TAG, TREE_TAG, CATEGORY_PREFIX + id] }

  type Store = Cache.Store<Payload>

  function TreeReply(rows: seq<Category>, store: Store, now: int): Payload
    requires DistinctIds(rows)
  {
    match Cache.Looked(store, Cache.BuildKey(TREE_KEY, None), now)
    case Some(p) => p
    case None => TreePayload(FreshTree(rows))
  }

  function AfterTreeRead(rows: seq<Category>, store: Store, now: int): Store
    requires DistinctIds(rows)
  {
    match Cache.Looked(store, Cache.BuildKey(TREE_KEY, None), now)
    case Some(_) => store
    case None => Cache.AfterSet(store, TREE_KEY, TreePayload(FreshTree(rows)), Some(CATEGORY_TTL), TreeTags(), now)
  }

  function OneKey(id: string): string { CATEGORY_PREFIX + id }

  function OneReply(rows: seq<Category>, store: Store, id: string, now: int): Outcome<Payload>
  {
    match Cache.Looked(store, Cache.BuildKey(OneKey(id), None), now)
    case Some(p) => Ok(p)
    case None => match FreshOne(rows, id) case Some(v) => Ok(OnePayload(v)) case None => Err(NotFound)
  }

  function AfterOneRead(rows: seq<Category>, store: Store, id: string, now: int): Store
  {
    match Cache.Looked(store, Cache.BuildKey(OneKey(id), None), now)
    case Some(_) => store
    case None =>
      match FreshOne(rows, id)
      case None => store
      case Some(v) => Cache.AfterSet(store, OneKey(id), OnePayload(v), Some(CATEGORY_TTL), OneTags(id), now)
  }

  class CategoriesService {
    var rows: seq<Category>
    const cache: Cache.CacheService<Payload>

    ghost predicate Valid()
      reads this, cache
    {
      DistinctIds(rows) && cache.Valid() && cache.available
    }

    constructor (cache: Cache.CacheService<Payload>)
      requires cache.Valid() && cache.available
      ensures Valid() && this.cache == cache && rows == []
    {
      this.cache := cache;
      rows := [];
    }

    method Create(dto: CreateDto, newId: string, now: int) returns (r: Outcome<Category>)
      requires Valid()
      modifies this, cache`store
      ensures Valid()
      ensures match Created(old(rows), dto, newId)
              case Err(e) => r == Err(e) && rows == old(rows) && cache.store == old(cache.store)
              case Ok(next) => r == Ok(NewRow(dto, newId)) && rows == next
                               && cache.store == Cache.Invalidated(old(cache.store), CreateTags(), now)
    {
      var existingCategory := FindSlug(rows, dto.slug);
      if existingCategory.Some? {
        return Err(BadRequest);
      }
      if dto.parentId.Some? && dto.parentId.value != "" {
        if Find(rows, dto.parentId.value).None? {
          return Err(NotFound);
        }
      }
      if dto.parentId.Some? && Find(rows, dto.parentId.value).None? {
        return Err(Database);
      }
      if Find(rows, newId).Some? {
        return Err(Database);
      }
      rows := rows + [NewRow(dto, newId)];
      var _ := cache.InvalidateByTags(CreateTags(), now);
      return Ok(NewRow(dto, newId));
    }

    method GetCategoryTree(now: int) returns (tree: Payload)
      requires Valid()
      modifies cache
      ensures Valid()
      ensures tree == TreeReply(rows, old(cache.store), now)
      ensures cache.store == AfterTreeRead(rows, old(cache.store), now)
    {
      var cached := cache.Get(TREE_KEY, None, now);
      if cached.Some? {
        return cached.value;
      }
      tree := TreePayload(FreshTree(rows));
      var _ := cache.Set(TREE_KEY, tree, Some(CATEGORY_TTL), TreeTags(), now);
    }

    method FindOne(id: string, now: int) returns (r: Outcome<Payload>)
      requires Valid()
      modifies cache
      ensures Valid()
      ensures r == OneReply(rows, old(cache.store), id, now)
      ensures cache.store == AfterOneRead(rows, old(cache.store), id, now)
    {
      var cached := cache.Get(OneKey(id), None, now);
      if cached.Some? {
        return Ok(cached.value);
      }
      var category := FreshOne(rows, id);
      if category.None? {
        return Err(NotFound);
      }
      var _ := cache.Set(OneKey(id), OnePayload(category.value), Some(CATEGORY_TTL), OneTags(id), now);
      return Ok(OnePayload(category.value));
    }

    method Update(id: string, dto: UpdateDto, now: int) returns (r: Outcome<Category>)
      requires Valid()
      modifies this, cache`store
      ensures Valid()
      ensures match Updated(old(rows), id, dto)
              case Err(e) => r == Err(e) && rows == old(rows) && cache.store == old(cache.store)
              case Ok(next) =>
                Find(old(rows), id).Some? && r == Ok(Patched(Find(old(rows), id).value, dto)) && rows == next
                               && cache.store == Cache.Invalidated(old(cache.store), WriteTags(id), now)
    {
      var category := Find(rows, id);
      if category.None? {
        return Err(NotFound);
      }
      if dto.slug.Some? && dto.slug.value != "" && dto.slug.value != category.value.slug {
        if FindSlug(rows, dto.slug.value).Some? {
          return Err(BadRequest);
        }
      }
      if dto.parentId.To? && dto.parentId.value != "" {
        if dto.parentId.value == id {
          return Err(BadRequest);
        }
        if Find(rows, dto.parentId.value).None? {
          return Err(NotFound);
        }
      }
      if dto.parentId.To? && Find(rows, dto.parentId.value).None? {
        return Err(Database);
      }
      if dto.slug.Some? && dto.slug.value != category.value.slug && FindSlug(rows, dto.slug.value).Some? {
        return Err(Database);
      }
      assert UpdateRefusal(rows, id, dto) == None;
      rows := Edited(rows, id, (c: Category) => Patched(c, dto));
      var _ := cache.InvalidateByTags(WriteTags(id), now);
      return Ok(Patched(category.value, dto));
    }

    method Remove(id: string, now: int) returns (r: Outcome<Category>)
      requires Valid()
      modifies this, cache`store
      ensures Valid()
      ensures match Removed(old(rows), id)
              case Err(e) => r == Err(e) && rows == old(rows) && cache.store == old(cache.store)
              case Ok(next) =>
                Find(old(rows), id).Some? && r == Ok(Find(old(rows), id).value.(isActive := false)) && rows == next
                               && cache.store == Cache.Invalidated(old(cache.store), WriteTags(id), now)
    {
      var category := Find(rows, id);
      if category.None? {
        return Err(NotFound);
      }
      var children := Level(rows, Some(id));
      if |children| > 0 {
        return Err(BadRequest);
      }
      rows := Deactivated(rows, id);
      var _ := cache.InvalidateByTags(WriteTags(id), now);
      return Ok(category.value.(isActive := false));
    }
  }

  // ---------------------------------------------------------------- what writes keep about the table

  lemma {:induction false} FindAppended(rows: seq<Category>, c: Category, x: string)
    ensures Find(rows + [c], x) == if Find(rows, x).Some? then Find(rows, x) else if c.id == x then Some(c) else None
  {
    if rows == [] {
      assert rows + [c] == [c] && [c][1..] == [];
    } else {
      assert (rows + [c])[1..] == rows[1..] + [c];
      FindAppended(rows[1..], c, x);
    }
  }

  predicate DistinctSlugs(rows: seq<Category>)
  {
    forall i, j :: 0 <= i < j < |rows| ==> rows[i].slug != rows[j].slug
  }

  /** What the table promises: ids and slugs are unique and every parent exists. */
  predicate Sound(rows: seq<Category>)
  {
    DistinctIds(rows) && DistinctSlugs(rows) && ParentsExist(rows)
  }

  lemma CreateKeepsSound(rows: seq<Category>, dto: CreateDto, id: string)
    requires Sound(rows) && Created(rows, dto, id).Ok?
    ensures Sound(Created(rows, dto, id).value)
  {
  }

  /** Every parent in an edited table exists, if each parent was there before or is newly checked. */
  lemma EditedParentsExist(rows: seq<Category>, id: string, f: Category -> Category)
    requires ParentsExist(rows) && forall c :: f(c).id == c.id
    requires forall c <- rows :: c.id == id && f(c).parentId.Some? ==> Find(rows, f(c).parentId.value).Some?
    ensures ParentsExist(Edited(rows, id, f))
  {
  }

  lemma EditedIdsDistinct(rows: seq<Category>, id: string, f: Category -> Category)
    requires DistinctIds(rows) && forall c :: f(c).id == c.id
    ensures DistinctIds(Edited(rows, id, f))
  {
  }

  /** Slugs stay distinct if the edited row keeps its own or takes a free one. */
  lemma EditedSlugsDistinct(rows: seq<Category>, id: string, f: Category -> Category)
    requires DistinctIds(rows) && DistinctSlugs(rows)
    requires forall c, d :: c in rows && d in rows && c.id == id && d.id != id ==> d.slug != f(c).slug
    ensures DistinctSlugs(Edited(rows, id, f))
  {
    var next := Edited(rows, id, f);
    forall i, j | 0 <= i < j < |next| ensures next[i].slug != next[j].slug {
      assert rows[i] in rows && rows[j] in rows && rows[i].id != rows[j].id;
    }
  }

  lemma UpdateKeepsSound(rows: seq<Category>, id: string, dto: UpdateDto)
    requires Sound(rows) && Updated(rows, id, dto).Ok?
    ensures Sound(Updated(rows, id, dto).value)
  {
    var f := (c: Category) => Patched(c, dto);
    EditedIdsDistinct(rows, id, f);
    EditedParentsExist(rows, id, f);
    forall c, d | c in rows && d in rows && c.id == id && d.id != id ensures d.slug != f(c).slug {
      FindIsTheRow(rows, c);
      SlugIsFree(rows, c, d, dto);
    }
    EditedSlugsDistinct(rows, id, f);
  }

  lemma SlugIsFree(rows: seq<Category>, c: Category, d: Category, dto: UpdateDto)
    requires DistinctSlugs(rows) && c in rows && d in rows && c.id != d.id
    requires Find(rows, c.id) == Some(c) && UpdateRefusal(rows, c.id, dto).None?
    ensures d.slug != Patched(c, dto).slug
  {
  }

  lemma RemoveKeepsSound(rows: seq<Category>, id: string)
    requires Sound(rows) && Removed(rows, id).Ok?
    ensures Sound(Removed(rows, id).value)
  {
    var f := (c: Category) => c.(isActive := false);
    EditedIdsDistinct(rows, id, f);
    EditedParentsExist(rows, id, f);
    forall c, d | c in rows && d in rows && c.id == id && d.id != id ensures d.slug != f(c).slug {
      var i :| 0 <= i < |rows| && rows[i] == c;
      var j :| 0 <= j < |rows| && rows[j] == d;
    }
    EditedSlugsDistinct(rows, id, f);
  }

  /** A created category is a leaf, so it closes no loop. */
  lemma CreateKeepsAcyclic(rows: seq<Category>, dto: CreateDto, id: string)
    requires Sound(rows) && Acyclic(rows) && Created(rows, dto, id).Ok?
    ensures Acyclic(Created(rows, dto, id).value)
  {
    var next := Created(rows, dto, id).value;
    forall x ensures x != id ==> ParentOf(next, x) == ParentOf(rows, x) {
      FindAppended(rows, NewRow(dto, id), x);
    }
    FindAppended(rows, NewRow(dto, id), id);
    if dto.parentId.None? {
      UprootKeepsAcyclic(rows, next, id);
    } else {
      var p := dto.parentId.value;
      if InSubtree(rows, p, id) {
        var n: nat :| Climb(rows, p, n) == Some(id);
        NobodyClimbsTo(rows, p, id, n);
        assert false;
      }
      ReparentKeepsAcyclic(rows, next, id, p);
    }
  }

  /** Climbing from a row never arrives at an id that is not in the table. */
  lemma {:induction false} NobodyClimbsTo(rows: seq<Category>, x: string, id: string, n: nat)
    requires ParentsExist(rows) && Find(rows, x).Some? && Find(rows, id).None?
    ensures Climb(rows, x, n) != Some(id)
    decreases n
  {
    if n > 0 && ParentOf(rows, x).Some? {
      assert Find(rows, x).value in rows;
      NobodyClimbsTo(rows, ParentOf(rows, x).value, id, n - 1);
    }
  }

  /**
   * An accepted update keeps the table acyclic exactly when it does not move the category below
   * itself. The service only refuses the category itself as parent, not its descendants.
   */
  lemma UpdateKeepsAcyclicExactly(rows: seq<Category>, id: string, dto: UpdateDto)
    requires Sound(rows) && Acyclic(rows) && Updated(rows, id, dto).Ok?
    ensures Acyclic(Updated(rows, id, dto).value) <==> (dto.parentId.To? ==> !InSubtree(rows, dto.parentId.value, id))
  {
    var f := (c: Category) => Patched(c, dto);
    var next := Edited(rows, id, f);
    forall x ensures x != id ==> ParentOf(next, x) == ParentOf(rows, x) {
      FindEdited(rows, id, f, x);
    }
    FindEdited(rows, id, f, id);
    match dto.parentId {
      case Keep => SameParentsSameLoops(rows, next);
      case Clear => UprootKeepsAcyclic(rows, next, id);
      case To(p) => ReparentKeepsAcyclic(rows, next, id, p);
    }
  }

  lemma SameParentsSameLoops(rows: seq<Category>, next: seq<Category>)
    requires Acyclic(rows) && forall x :: ParentOf(next, x) == ParentOf(rows, x)
    ensures Acyclic(next)
  {
    forall id: string, n: nat | n >= 1 ensures Climb(next, id, n) != Some(id) {
      SameParentsSameClimb(rows, next, id, n);
    }
  }

  lemma {:induction false} SameParentsSameClimb(rows: seq<Category>, next: seq<Category>, id: string, n: nat)
    requires forall x :: ParentOf(next, x) == ParentOf(rows, x)
    ensures Climb(next, id, n) == Climb(rows, id, n)
    decreases n
  {
    if n > 0 && ParentOf(rows, id).Some? { SameParentsSameClimb(rows, next, ParentOf(rows, id).value, n - 1); }
  }

  lemma RemoveKeepsAcyclic(rows: seq<Category>, id: string)
    requires Acyclic(rows) && Removed(rows, id).Ok?
    ensures Acyclic(Removed(rows, id).value)
  {
    var next := Deactivated(rows, id);
    forall x ensures ParentOf(next, x) == ParentOf(rows, x) {
      FindEdited(rows, id, (c: Category) => c.(isActive := false), x);
    }
    SameParentsSameLoops(rows, next);
  }

  /** Removing a category takes exactly its own node out of the tree. */
  lemma RemoveTakesOneNode(rows: seq<Category>, id: string, c: Category)
    requires DistinctIds(rows) && Removed(rows, id).Ok?
    ensures var next := Removed(rows, id).value;
            && DistinctIds(next)
            && FreshTree(next) == Pruned(FreshTree(rows), id)
            && Occurrences(FreshTree(next), c) == if c.id == id then 0 else Occurrences(FreshTree(rows), c)
  {
    forall x | x in rows ensures x.parentId != Some(id) {
      assert x in Level(rows, Some(id)) <==> x.parentId == Some(id);
    }
    DeactivationPrunes(rows, id);
    DeactivationTakesOne(rows, id, c);
  }

  /** Once no active row sits at the top, the tree is empty however many rows there are. */
  lemma NoTopNoTree(rows: seq<Category>)
    requires DistinctIds(rows) && forall c <- rows :: c.parentId.Some?
    ensures FreshTree(rows) == []
  {
    ActiveIsDistinct(rows);
    var level := Level(ActiveRows(rows), None);
    if level != [] {
      assert level[0] in level;
      ActiveMembers(rows, level[0]);
      assert false;
    }
  }

  const LOOP_A := Category("a", None, "A", "a", None, None, true, 0)
  const LOOP_B := Category("b", Some("a"), "B", "b", None, None, true, 0)
  const MOVE_UNDER_B := UpdateDto(None, None, Keep, Keep, To("b"), None)

  /** A parent below its own child is accepted; both categories then vanish from the tree. */
  lemma UpdateCanCloseALoop()
    ensures Sound([LOOP_A, LOOP_B]) && Updated([LOOP_A, LOOP_B], "a", MOVE_UNDER_B).Ok?
    ensures var next := Updated([LOOP_A, LOOP_B], "a", MOVE_UNDER_B).value;
            !Acyclic(next) && DistinctIds(next) && FreshTree(next) == []
  {
    var rows := [LOOP_A, LOOP_B];
    assert rows[1..] == [LOOP_B];
    assert Find(rows, "b") == Some(LOOP_B) && Find(rows, "a") == Some(LOOP_A);
    UpdateKeepsSound(rows, "a", MOVE_UNDER_B);
    var f := (c: Category) => Patched(c, MOVE_UNDER_B);
    var next := Edited(rows, "a", f);
    FindEdited(rows, "a", f, "a");
    FindEdited(rows, "a", f, "b");
    assert Climb(next, "a", 1) == Climb(next, "b", 0) == Some("b");
    assert Climb(next, "b", 1) == Climb(next, "a", 0) == Some("a");
    ClimbOn(next, "a", 1, 1);
    NoTopNoTree(next);
  }

  // ---------------------------------------------------------------- runs

  datatype Event =
    | CreateEvent(dto: CreateDto, newId: string, at: int)
    | UpdateEvent(id: string, change: UpdateDto, at: int)
    | RemoveEvent(id: string, at: int)
    | TreeEvent(at: int)
    | OneEvent(id: string, at: int)
    | OtherEvent(other: Cache.Event<Payload>, at: int)

  datatype State = State(rows: seq<Category>, store: Store)

  function Written(s: State, next: Outcome<seq<Category>>, tags: seq<string>, at: int): State
  {
    if next.Ok? then State(next.value, Cache.Invalidated(s.store, tags, at)) else s
  }

  function Step(s: State, e: Event): State
    requires DistinctIds(s.rows)
  {
    match e
    case CreateEvent(dto, id, at) => Written(s, Created(s.rows, dto, id), CreateTags(), at)
    case UpdateEvent(id, dto, at) => Written(s, Updated(s.rows, id, dto), WriteTags(id), at)
    case RemoveEvent(id, at) => Written(s, Removed(s.rows, id), WriteTags(id), at)
    case TreeEvent(at) => s.(store := AfterTreeRead(s.rows, s.store, at))
    case OneEvent(id, at) => s.(store := AfterOneRead(s.rows, s.store, id, at))
    case OtherEvent(other, _) => s.(store := Cache.Step(s.store, other))
  }

  predicate IsCategoryKey(key: string)
  {
    key == TREE_KEY || CATEGORY_PREFIX <= key
  }

  /** Another user of the cache: other keys, and no ttl on the shared tag that cuts a category entry's index short. */
  predicate Neighbourly(e: Event)
  {
    e.OtherEvent? ==>
      && e.other.at == e.at
      && (e.other.SetEvent? ==>
            && !IsCategoryKey(e.other.key)
            && (SHARED_TAG in e.other.tags && Cache.EffectiveTtl(e.other.ttl) > 0 ==>
                  Cache.EffectiveTtl(e.other.ttl) >= CATEGORY_TTL - Cache.TAG_SLACK))
  }

  /** What a category entry must hold: the answer of a fresh read. */
  predicate IsFresh(rows: seq<Category>, key: string, cell: Cache.Cell<Payload>)
    requires DistinctIds(rows)
  {
    if key == TREE_KEY then cell == Cache.Value(TreePayload(FreshTree(rows)))
    else
      && CATEGORY_PREFIX <= key
      && FreshOne(rows, key[|CATEGORY_PREFIX|..]).Some?
      && cell == Cache.Value(OnePayload(FreshOne(rows, key[|CATEGORY_PREFIX|..]).value))
  }

  /** The entry of one category key is fresh, tracked by the shared tag and not too long-lived. */
  ghost predicate EntryOk(s: State, key: string, now: int)
    requires DistinctIds(s.rows)
  {
    var k := Cache.BuildKey(key, None);
    Cache.Live(s.store, k, now) ==>
      && IsFresh(s.rows, key, s.store[k].cell)
      && Cache.Backed(s.store, k, SHARED_TAG, now)
      && s.store[k].expiresAt <= now + 1000 * CATEGORY_TTL
  }

  ghost predicate Coherent(s: State, now: int)
  {
    && DistinctIds(s.rows) && Cache.Clean(s.store)
    && forall key :: IsCategoryKey(key) ==> EntryOk(s, key, now)
  }

  lemma WriteStaysCoherent(s: State, next: seq<Category>, tags: seq<string>, now: int)
    requires Coherent(s, now) && DistinctIds(next) && SHARED_TAG in tags
    ensures Coherent(State(next, Cache.Invalidated(s.store, tags, now)), now)
  {
    var t := State(next, Cache.Invalidated(s.store, tags, now));
    Cache.InvalidatedIsClean(s.store, tags, now);
    forall key | IsCategoryKey(key) ensures EntryOk(t, key, now) {
      assert EntryOk(s, key, now);
      Cache.BuildKeyIsCacheKey(key, None);
      Cache.InvalidatedRemoves(s.store, tags, now, Cache.BuildKey(key, None), SHARED_TAG);
    }
  }

  lemma FillStaysCoherent(s: State, key: string, p: Payload, tags: seq<string>, now: int)
    requires Coherent(s, now) && IsCategoryKey(key) && SHARED_TAG in tags
    requires IsFresh(s.rows, key, Cache.Value(p))
    ensures Coherent(s.(store := Cache.AfterSet(s.store, key, p, Some(CATEGORY_TTL), tags, now)), now)
  {
    var t := s.(store := Cache.AfterSet(s.store, key, p, Some(CATEGORY_TTL), tags, now));
    Cache.SetBacks(s.store, key, p, Some(CATEGORY_TTL), tags, now);
    forall other | IsCategoryKey(other) ensures EntryOk(t, other, now) {
      if other != key {
        assert EntryOk(s, other, now);
        Cache.BuildKeyIsCacheKey(other, None);
        Cache.KeysAreInjective(other, key);
        Cache.SetKeepsOthers(s.store, key, p, Some(CATEGORY_TTL), tags, now, Cache.BuildKey(other, None), SHARED_TAG);
      }
    }
  }

  lemma OtherStaysCoherent(s: State, e: Event)
    requires Coherent(s, e.at) && e.OtherEvent? && Neighbourly(e)
    ensures Coherent(Step(s, e), e.at)
  {
    var t := Step(s, e);
    Cache.StepIsClean(s.store, e.other);
    forall key | IsCategoryKey(key) ensures EntryOk(t, key, e.at) {
      assert EntryOk(s, key, e.at);
      var k := Cache.BuildKey(key, None);
      Cache.BuildKeyIsCacheKey(key, None);
      match e.other
      case SetEvent(other, v, ttl, tags, at) =>
        Cache.KeysAreInjective(other, key);
        if Cache.EffectiveTtl(ttl) > 0 {
          Cache.SetKeepsOthers(s.store, other, v, ttl, tags, at, k, SHARED_TAG);
        }
      case DeleteEvent(other, ns, at) =>
        Cache.BuildKeyIsCacheKey(other, ns);
        Cache.KeysAreApart(Cache.BuildKey(other, ns));
        assert Cache.IsTagKey(Cache.BuildTagKey(SHARED_TAG));
      case InvalidateEvent(tags, at) => Cache.InvalidatedRemoves(s.store, tags, at, k, SHARED_TAG);
      case ClearEvent(at) => Cache.ClearedKeeps(s.store);
    }
  }

  lemma LaterStaysCoherent(s: State, now: int, later: int)
    requires Coherent(s, now) && now <= later
    ensures Coherent(s, later)
  {
  }

  lemma CreatedKeepsIds(rows: seq<Category>, dto: CreateDto, id: string)
    requires DistinctIds(rows) && Created(rows, dto, id).Ok?
    ensures DistinctIds(Created(rows, dto, id).value)
  {
  }

  lemma StepStaysCoherent(s: State, e: Event)
    requires Coherent(s, e.at) && Neighbourly(e)
    ensures Coherent(Step(s, e), e.at)
  {
    match e
    case CreateEvent(dto, id, at) =>
      if Created(s.rows, dto, id).Ok? {
        CreatedKeepsIds(s.rows, dto, id);
        WriteStaysCoherent(s, Created(s.rows, dto, id).value, CreateTags(), at);
      }
    case UpdateEvent(id, dto, at) =>
      if Updated(s.rows, id, dto).Ok? {
        EditedIdsDistinct(s.rows, id, (c: Category) => Patched(c, dto));
        WriteStaysCoherent(s, Updated(s.rows, id, dto).value, WriteTags(id), at);
      }
    case RemoveEvent(id, at) =>
      if Removed(s.rows, id).Ok? {
        WriteStaysCoherent(s, Removed(s.rows, id).value, WriteTags(id), at);
      }
    case TreeEvent(at) =>
      if Cache.Looked(s.store, Cache.BuildKey(TREE_KEY, None), at).None? {
        FillStaysCoherent(s, TREE_KEY, TreePayload(FreshTree(s.rows)), TreeTags(), at);
      }
    case OneEvent(id, at) =>
      OneKeyParts(id);
      if Cache.Looked(s.store, Cache.BuildKey(OneKey(id), None), at).None? && FreshOne(s.rows, id).Some? {
        FillStaysCoherent(s, OneKey(id), OnePayload(FreshOne(s.rows, id).value), OneTags(id), at);
      }
    case OtherEvent(_, _) => OtherStaysCoherent(s, e);
  }

  lemma OneKeyParts(id: string)
    ensures IsCategoryKey(OneKey(id)) && OneKey(id) != TREE_KEY && OneKey(id)[|CATEGORY_PREFIX|..] == id
  {
    assert OneKey(id)[7] == CATEGORY_PREFIX[7] == 'y';
    assert TREE_KEY[7] == 'i';
  }

  predicate Chronological(es: seq<Event>, now: int)
  {
    es == [] || (now <= es[0].at && Chronological(es[1..], es[0].at))
  }

  /** A reply to a read equals the fresh answer, the joined row or its absence included. */
  predicate RepliesFresh(s: State, e: Event)
    requires DistinctIds(s.rows)
  {
    match e
    case TreeEvent(at) => TreeReply(s.rows, s.store, at) == TreePayload(FreshTree(s.rows))
    case OneEvent(id, at) =>
      OneReply(s.rows, s.store, id, at)
      == (match FreshOne(s.rows, id) case Some(v) => Ok(OnePayload(v)) case None => Err(NotFound))
    case _ => true
  }

  ghost predicate AllRepliesFresh(s: State, es: seq<Event>)
    decreases |es|
  {
    es == [] ||
    (&& DistinctIds(s.rows) && RepliesFresh(s, es[0])
     && AllRepliesFresh(Step(s, es[0]), es[1..]))
  }

  lemma CoherentRepliesFresh(s: State, e: Event)
    requires Coherent(s, e.at)
    ensures RepliesFresh(s, e)
  {
    if e.TreeEvent? {
      assert EntryOk(s, TREE_KEY, e.at);
    } else if e.OneEvent? {
      OneKeyParts(e.id);
      assert EntryOk(s, OneKey(e.id), e.at);
    }
  }

  lemma {:induction false} RunRepliesFresh(s: State, es: seq<Event>, now: int)
    requires Coherent(s, now) && Chronological(es, now)
    requires forall e <- es :: Neighbourly(e)
    ensures AllRepliesFresh(s, es)
    decreases |es|
  {
    if es != [] {
      LaterStaysCoherent(s, now, es[0].at);
      CoherentRepliesFresh(s, es[0]);
      assert es[0] in es;
      StepStaysCoherent(s, es[0]);
      RunRepliesFresh(Step(s, es[0]), es[1..], es[0].at);
    }
  }

  /**
   * From any table with an empty cache, over any run of creates, updates, removes, reads and other
   * users' cache traffic, every cached read answers what a fresh read of the table would.
   */
  lemma CachedReadsAreFresh(rows: seq<Category>, es: seq<Event>, start: int)
    requires DistinctIds(rows) && Chronological(es, start)
    requires forall e <- es :: Neighbourly(e)
    ensures AllRepliesFresh(State(rows, map[]), es)
  {
    RunRepliesFresh(State(rows, map[]), es, start);
  }
}
