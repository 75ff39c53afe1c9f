/** What the category operations answer and store, field by field. */
module CategoryMeanings {
  import opened Prelude
  import opened CategoryTree
  import opened Categories
  import Cache = TaggedCache

  // ---------------------------------------------------------------- the rows under a parent

  /** The places of the rows under a parent, in table order. */
  function Places(rows: seq<Category>, parentId: Option<string>): (at: seq<nat>)
    ensures forall k :: 0 <= k < |at| ==> at[k] < |rows| && rows[at[k]].parentId == parentId
    ensures forall j, k :: 0 <= j < k < |at| ==> at[j] < at[k]
    ensures forall i :: 0 <= i < |rows| && rows[i].parentId == parentId ==> i in at
  {
    if rows == [] then []
    else
      var n := |rows| - 1;
      Places(rows[..n], parentId) + if rows[n].parentId == parentId then [n] else []
  }

  lemma {:induction false} LevelAppended(rows: seq<Category>, c: Category, parentId: Option<string>)
    ensures Level(rows + [c], parentId) == Level(rows, parentId) + if c.parentId == parentId then [c] else []
  {
    if rows == [] {
      assert rows + [c] == [c];
    } else {
      LevelAppended(rows[1..], c, parentId);
      assert (rows + [c])[1..] == rows[1..] + [c];
    }
  }

  /** A level is the rows at those places: each row under the parent once, in table order. */
  lemma {:induction false} LevelIsInOrder(rows: seq<Category>, parentId: Option<string>)
    ensures |Level(rows, parentId)| == |Places(rows, parentId)|
    ensures forall k :: 0 <= k < |Places(rows, parentId)| ==>
              Level(rows, parentId)[k] == rows[Places(rows, parentId)[k]]
  {
    if rows != [] {
      var n := |rows| - 1;
      LevelIsInOrder(rows[..n], parentId);
      LevelAppended(rows[..n], rows[n], parentId);
      assert rows[..n] + [rows[n]] == rows;
    }
  }

  // ---------------------------------------------------------------- reading one category

  /** The parent as the id, name and slug of the row the parent column names. */
  predicate IsParentOf(rows: seq<Category>, c: Category, parent: Option<Ref>)
  {
    match parent
    case None => c.parentId.None? || forall r <- rows :: r.id != c.parentId.value
    case Some(p) =>
      exists r <- rows :: c.parentId == Some(r.id) && p.id == r.id && p.name == r.name && p.slug == r.slug
  }

  /** The rows under an id, each once and in table order, with id, name, slug and image. */
  predicate AreChildrenOf(rows: seq<Category>, id: string, children: seq<ChildRef>)
  {
    var at := Places(rows, Some(id));
    && |children| == |at|
    && forall k :: 0 <= k < |at| ==>
         && children[k].id == rows[at[k]].id && children[k].name == rows[at[k]].name
         && children[k].slug == rows[at[k]].slug && children[k].imageUrl == rows[at[k]].imageUrl
  }

  /** A live entry under a full key. */
  predicate Entry(store: Store, fullKey: string, now: int)
  {
    fullKey in store && now < store[fullKey].expiresAt && store[fullKey].cell.Value?
  }

  const ONE := "mash:cache:category:"
  const TREE := "mash:cache:categories:tree"

  lemma FullKeys(id: string)
    ensures Cache.BuildKey(OneKey(id), None) == ONE + id && Cache.BuildKey(TREE_KEY, None) == TREE
  {
    assert Cache.KEY_PREFIX + (CATEGORY_PREFIX + id) == (Cache.KEY_PREFIX + CATEGORY_PREFIX) + id;
  }

  /**
   * An uncached read of one category: NotFound exactly when no row has the id, otherwise that row
   * with its parent and its children.
   */
  lemma FreshReadMeans(rows: seq<Category>, store: Store, id: string, now: int)
    requires !Entry(store, ONE + id, now)
    ensures var r := OneReply(rows, store, id, now);
            && (r.Err? ==> r == Err(NotFound))
            && (r.Err? <==> forall c <- rows :: c.id != id)
            && (r.Ok? ==>
                  && r.value.OnePayload? && r.value.view.category in rows && r.value.view.category.id == id
                  && IsParentOf(rows, r.value.view.category, r.value.view.parent)
                  && AreChildrenOf(rows, id, r.value.view.children))
  {
    FullKeys(id);
    LevelIsInOrder(rows, Some(id));
    match Find(rows, id)
    case None =>
    case Some(c) => assert OneReply(rows, store, id, now).value.view.children == ChildRefs(Level(rows, Some(id)));
  }

  /** A cached read answers the entry and leaves the cache alone. */
  lemma CachedReadMeans(rows: seq<Category>, store: Store, id: string, now: int)
    requires DistinctIds(rows)
    ensures Entry(store, ONE + id, now) ==>
              && OneReply(rows, store, id, now) == Ok(store[ONE + id].cell.v)
              && AfterOneRead(rows, store, id, now) == store
    ensures Entry(store, TREE, now) ==>
              TreeReply(rows, store, now) == store[TREE].cell.v && AfterTreeRead(rows, store, now) == store
  {
    FullKeys(id);
  }

  /** An uncached read is cached for ten minutes, listed under the tags it is invalidated by. */
  lemma ReadIsCached(rows: seq<Category>, store: Store, id: string, now: int)
    requires DistinctIds(rows) && Cache.Clean(store)
    ensures !Entry(store, TREE, now) ==>
              var next, reply := AfterTreeRead(rows, store, now), TreeReply(rows, store, now);
              && TREE in next && next[TREE] == Cache.Stored(Cache.Value(reply), now + 600000)
              && TREE in Cache.Tagged(next, "categories", now) && TREE in Cache.Tagged(next, "categories:tree", now)
    ensures !Entry(store, ONE + id, now) && (exists c <- rows :: c.id == id) ==>
              var next, reply := AfterOneRead(rows, store, id, now), OneReply(rows, store, id, now);
              && ONE + id in next && reply.Ok? && next[ONE + id] == Cache.Stored(Cache.Value(reply.value), now + 600000)
              && ONE + id in Cache.Tagged(next, "categories", now)
              && ONE + id in Cache.Tagged(next, "category:" + id, now)
  {
    FullKeys(id);
    if !Entry(store, TREE, now) { TreeIsCached(rows, store, now); }
    if !Entry(store, ONE + id, now) && exists c <- rows :: c.id == id { OneIsCached(rows, store, id, now); }
  }

  lemma TreeIsCached(rows: seq<Category>, store: Store, now: int)
    requires DistinctIds(rows) && Cache.Clean(store) && !Entry(store, TREE, now)
    ensures var next, reply := AfterTreeRead(rows, store, now), TreeReply(rows, store, now);
            && TREE in next && next[TREE] == Cache.Stored(Cache.Value(reply), now + 600000)
            && TREE in Cache.Tagged(next, "categories", now) && TREE in Cache.Tagged(next, "categories:tree", now)
  {
    FullKeys("");
    var tags := ["categories", "categories:tree"];
    Cache.SetBacks(store, TREE_KEY, TreePayload(FreshTree(rows)), Some(600), tags, now);
    assert tags[0] in tags && tags[1] in tags;
    var next := AfterTreeRead(rows, store, now);
    assert Cache.Backed(next, TREE, "categories", now) && Cache.Backed(next, TREE, "categories:tree", now);
  }

  lemma OneIsCached(rows: seq<Category>, store: Store, id: string, now: int)
    requires DistinctIds(rows) && Cache.Clean(store) && !Entry(store, ONE + id, now) && exists c <- rows :: c.id == id
    ensures var next, reply := AfterOneRead(rows, store, id, now), OneReply(rows, store, id, now);
            && ONE + id in next && reply.Ok? && next[ONE + id] == Cache.Stored(Cache.Value(reply.value), now + 600000)
            && ONE + id in Cache.Tagged(next, "categories", now)
            && ONE + id in Cache.Tagged(next, "category:" + id, now)
  {
    FullKeys(id);
    var tags := ["categories", "category:" + id];
    var view := FreshOne(rows, id).value;
    Cache.SetBacks(store, OneKey(id), OnePayload(view), Some(600), tags, now);
    assert tags[0] in tags && tags[1] in tags;
    var next := AfterOneRead(rows, store, id, now);
    assert Cache.Backed(next, ONE + id, "categories", now) && Cache.Backed(next, ONE + id, "category:" + id, now);
  }

  // ---------------------------------------------------------------- writing

  predicate Has(rows: seq<Category>, id: string)
  {
    exists c <- rows :: c.id == id
  }

  predicate HasSlug(rows: seq<Category>, slug: string)
  {
    exists c <- rows :: c.slug == slug
  }

  /** A create goes through exactly when slug and id are free and the parent, if any, is there; the row is the dto's. */
  lemma CreateMeans(rows: seq<Category>, dto: CreateDto, id: string)
    ensures var r := Created(rows, dto, id);
            && (r == Err(BadRequest) <==> HasSlug(rows, dto.slug))
            && (r == Err(NotFound) <==> !HasSlug(rows, dto.slug) && dto.parentId.Some? && dto.parentId.value != ""
                                        && !Has(rows, dto.parentId.value))
            && (r.Ok? <==>
                  !HasSlug(rows, dto.slug) && (dto.parentId.Some? ==> Has(rows, dto.parentId.value)) && !Has(rows, id))
            && (r.Ok? ==>
                  && |r.value| == |rows| + 1 && r.value[..|rows|] == rows
                  && var c := r.value[|rows|];
                     && c.id == id && c.parentId == dto.parentId && c.name == dto.name && c.slug == dto.slug
                     && c.description == dto.description && c.imageUrl == dto.imageUrl
                     && (c.isActive <==> dto.isActive != Some(false)) && c.sortOrder == 0)
  {
  }

  /** A column after a partial update: as it was, emptied, or set. */
  predicate IsChanged(before: Option<string>, change: Change<string>, after: Option<string>)
  {
    && (change.Keep? ==> after == before)
    && (change.Clear? ==> after.None?)
    && (change.To? ==> after == Some(change.value))
  }

  lemma {:induction false} EditedAt(rows: seq<Category>, i: nat, f: Category -> Category)
    requires DistinctIds(rows) && i < |rows|
    ensures Edited(rows, rows[i].id, f) == rows[i := f(rows[i])]
  {
  }

  /** The row after an accepted update, and no other row changed. */
  lemma UpdateMeans(rows: seq<Category>, i: nat, dto: UpdateDto)
    requires DistinctIds(rows) && i < |rows| && Updated(rows, rows[i].id, dto).Ok?
    ensures var before, next := rows[i], Updated(rows, rows[i].id, dto).value;
            && |next| == |rows| && (forall j :: 0 <= j < |rows| && j != i ==> next[j] == rows[j])
            && next[i].id == before.id && next[i].sortOrder == before.sortOrder
            && next[i].name == (if dto.name.Some? then dto.name.value else before.name)
            && next[i].slug == (if dto.slug.Some? then dto.slug.value else before.slug)
            && next[i].isActive == (if dto.isActive.Some? then dto.isActive.value else before.isActive)
            && IsChanged(before.parentId, dto.parentId, next[i].parentId)
            && IsChanged(before.description, dto.description, next[i].description)
            && IsChanged(before.imageUrl, dto.imageUrl, next[i].imageUrl)
  {
    EditedAt(rows, i, (c: Category) => Patched(c, dto));
  }

  /** An update is refused for a row, a slug, itself as parent, or a parent that is not there, in this order. */
  lemma UpdateRefusedExactly(rows: seq<Category>, id: string, dto: UpdateDto, c: Category,
                             slugTaken: bool, orphan: bool)
    requires DistinctIds(rows)
    requires slugTaken == (dto.slug.Some? && dto.slug.value != c.slug && HasSlug(rows, dto.slug.value))
    requires orphan == (dto.parentId.To? && !Has(rows, dto.parentId.value))
    ensures !Has(rows, id) ==> Updated(rows, id, dto) == Err(NotFound)
    ensures c in rows && c.id == id ==>
              var r := Updated(rows, id, dto);
              && (r.Ok? <==> !slugTaken && !orphan && !(dto.parentId == To(id) && id != ""))
              && (r == Err(BadRequest) <==> (slugTaken && dto.slug.value != "") || (dto.parentId == To(id) && id != ""))
              && (r == Err(NotFound) <==> !(slugTaken && dto.slug.value != "") && dto.parentId != To(id)
                                          && orphan && dto.parentId.value != "")
  {
    if c in rows && c.id == id {
      FindIsTheRow(rows, c);
      assert Find(rows, id) == Some(c);
    }
  }

  /** A remove goes through exactly for a row nobody has as parent; it clears its active flag and nothing else. */
  lemma RemoveMeans(rows: seq<Category>, id: string)
    requires DistinctIds(rows)
    ensures var r := Removed(rows, id);
            && (r == Err(NotFound) <==> !Has(rows, id))
            && (r == Err(BadRequest) <==> Has(rows, id) && exists c <- rows :: c.parentId == Some(id))
            && (r.Ok? <==> Has(rows, id) && forall c <- rows :: c.parentId != Some(id))
            && (r.Ok? ==>
                  && |r.value| == |rows|
                  && forall i :: 0 <= i < |rows| ==>
                       r.value[i] == if rows[i].id == id then rows[i].(isActive := false) else rows[i])
  {
    if Has(rows, id) {
      var c :| c in rows && c.id == id;
      FindIsTheRow(rows, c);
    }
    assert (exists c <- rows :: c.parentId == Some(id)) <==> Level(rows, Some(id)) != [] by {
      if Level(rows, Some(id)) != [] { assert Level(rows, Some(id))[0] in Level(rows, Some(id)); }
    }
    DeactivatedAt(rows, id);
  }

  lemma {:induction false} DeactivatedAt(rows: seq<Category>, id: string)
    ensures |Deactivated(rows, id)| == |rows|
    ensures forall i :: 0 <= i < |rows| ==>
              Deactivated(rows, id)[i] == if rows[i].id == id then rows[i].(isActive := false) else rows[i]
  {
  }

  /** What a write takes out of the cache: exactly the entries a live index of its tags lists. */
  lemma WriteInvalidates(s: State, e: Event, k: string)
    requires DistinctIds(s.rows) && Cache.Clean(s.store) && Cache.IsCacheKey(k) && k in s.store
    requires e.CreateEvent? || e.UpdateEvent? || e.RemoveEvent?
    ensures var ok := if e.CreateEvent? then Created(s.rows, e.dto, e.newId).Ok?
                      else if e.UpdateEvent? then Updated(s.rows, e.id, e.change).Ok?
                      else Removed(s.rows, e.id).Ok?;
            k !in Step(s, e).store <==>
              && ok
              && (|| k in Cache.Tagged(s.store, "categories", e.at)
                  || k in Cache.Tagged(s.store, "categories:list", e.at)
                  || (!e.CreateEvent? && (|| k in Cache.Tagged(s.store, "categories:tree", e.at)
                                          || k in Cache.Tagged(s.store, "category:" + e.id, e.at))))
  {
    var tags := if e.CreateEvent? then CreateTags() else WriteTags(e.id);
    Cache.InvalidatedExactly(s.store, tags, e.at, k);
    assert "categories" in tags && "categories:list" in tags by { assert tags[0] in tags && tags[1] in tags; }
    if !e.CreateEvent? { assert tags[2] in tags && tags[3] in tags; }
  }
}
