/** The tag operations of the API layer (panoptic_api/core/__init__.py): `create_tag`, `update_tag`,
    `delete_tag` and `delete_tag_parent`, on top of the table queries of the Catalog module.
    Deleting a tag cascades: every child loses one parent reference per occurrence, and a child left
    without parents is deleted in turn; the deleted tag's id is then removed from the property values
    that list it. */
module TagService {
  import opened Results
  import opened Seqs
  import opened Catalog
  import opened Ancestry

  /** The two tables a tag deletion touches. */
  datatype Db = Db(tags: seq<Tag>, values: seq<ValueRow>)

  /** What a deletion leaves behind, and the ids it reports as deleted (`modified_tags`). */
  datatype Deleted = Deleted(db: Db, ids: seq<int>)

  // ---------------------------------------------------------------- create_tag

  /** `create_tag(property_id, value, parent_id)`. A tag with this property and value already present gets
      `parent_id` added to its parents (`list({*parents, parent_id})`), unless that would make it an ancestor of
      itself (HTTP 400); otherwise a new tag with parents `[parent_id]` is inserted. The result is the row read
      back by id. The API layer inserts no color. */
  function CreateTag(tags: seq<Tag>, propertyId: int, value: string, parentId: int, fuel: nat)
    : (r: Result<(seq<Tag>, Tag)>)
    ensures r.Ok? ==> GetTagById(r.value.0, r.value.1.id) == Some(r.value.1) && parentId in r.value.1.parents
  {
    match GetTag(tags, propertyId, value)
    case Some(existing) =>
      var inAncestors :- TagInAncestors(tags, existing.id, parentId, fuel);
      if inAncestors then Err(AncestorOfItself)
      else
        var parents := Dedup(existing.parents + [parentId]);
        var updated := UpdateTag(tags, existing.(parents := parents));
        assert existing.id in Ids(tags);
        Ok((updated, GetTagById(updated, existing.id).value))
    case None =>
      var added := AddTag(tags, propertyId, value, [parentId], None);
      Ok((added.0, GetTagById(added.0, added.1).value))
  }

  /** A new property value becomes a new row, appended with a fresh id, parents `[parent_id]` and no color. */
  lemma {:induction false} CreateTagInserts(tags: seq<Tag>, propertyId: int, value: string, parentId: int, fuel: nat)
    requires GetTag(tags, propertyId, value).None?
    ensures var r := CreateTag(tags, propertyId, value, parentId, fuel);
            && r.Ok?
            && r.value.1.id !in Ids(tags) && r.value.1.id > 0
            && r.value.1 == Tag(r.value.1.id, propertyId, value, [parentId], None)
            && r.value.0 == tags + [r.value.1]
  {
    var added := AddTag(tags, propertyId, value, [parentId], None);
    var t := Tag(added.1, propertyId, value, [parentId], None);
    assert added.0 == tags + [t];
    if UniqueIds(tags) {
      GetTagByIdOfRow(added.0, t);
    } else {
      LookupAppended(tags, t);
    }
  }

  /** A freshly appended id is found at the appended row. */
  lemma {:induction false} LookupAppended(tags: seq<Tag>, t: Tag)
    requires t.id !in Ids(tags)
    ensures GetTagById(tags + [t], t.id) == Some(t)
  {
    if |tags| > 0 {
      assert (tags + [t])[1..] == tags[1..] + [t];
      LookupAppended(tags[1..], t);
    }
  }

  /** An existing tag is refused exactly when it is an ancestor of the new parent; otherwise the new parent joins
      its parents, which keep every old parent, hold no repeats, and only that row changes. */
  lemma {:induction false} CreateTagExisting(tags: seq<Tag>, propertyId: int, value: string, parentId: int, fuel: nat)
    requires UniqueIds(tags)
    requires GetTag(tags, propertyId, value).Some?
    ensures var existing := GetTag(tags, propertyId, value).value;
            var r := CreateTag(tags, propertyId, value, parentId, fuel);
            && (TagInAncestors(tags, existing.id, parentId, fuel) == Ok(true) <==> r == Err(AncestorOfItself))
            && (TagInAncestors(tags, existing.id, parentId, fuel).Err? ==> r == Err(TagInAncestors(tags, existing.id, parentId, fuel).error))
            && (TagInAncestors(tags, existing.id, parentId, fuel) == Ok(false) ==>
                  && r.Ok?
                  && r.value.1 == existing.(parents := r.value.1.parents)
                  && Elems(r.value.1.parents) == Elems(existing.parents) + {parentId}
                  && NoDuplicates(r.value.1.parents)
                  && |r.value.0| == |tags|
                  && forall id :: id != existing.id ==> GetTagById(r.value.0, id) == GetTagById(tags, id))
  {
    var existing := GetTag(tags, propertyId, value).value;
    GetTagByIdOfRow(tags, existing);
    var parents := Dedup(existing.parents + [parentId]);
    assert Elems(parents) == Elems(existing.parents) + {parentId};
  }

  // ---------------------------------------------------------------- update_tag

  /** The fields of an update payload that are set; `id` names the tag to change. */
  datatype TagUpdate = TagUpdate(id: int, value: Option<string>, color: Option<string>, parentId: Option<int>)

  /** The parent id `tag_in_ancestors` is asked about: the payload's, or a falsy 0 when it is unset. */
  function CheckedParent(payload: TagUpdate): int
  {
    if payload.parentId.Some? then payload.parentId.value else 0
  }

  /** `update_tag(payload)`: a missing tag is refused (HTTP 400), then the ancestor check against the payload's
      parent (an unset parent is falsy and passes); the set fields overwrite the row. `parent_id` is not a column of
      the tag, so the copy carries it along and the parents never change. */
  function UpdateTagApi(tags: seq<Tag>, payload: TagUpdate, fuel: nat): (r: Result<(seq<Tag>, Tag)>)
    ensures r.Ok? ==> payload.id in Ids(tags) && r.value.1.id == payload.id
  {
    match GetTagById(tags, payload.id)
    case None => Err(TagToUpdateMissing)
    case Some(existing) =>
      var inAncestors :- TagInAncestors(tags, existing.id, CheckedParent(payload), fuel);
      if inAncestors then Err(AncestorOfItself)
      else
        var newTag := existing.(value := match payload.value case Some(v) => v case None => existing.value,
                                color := match payload.color case Some(c) => Some(c) case None => existing.color);
        Ok((UpdateTag(tags, newTag), newTag))
  }

  /** An update refuses a missing tag; it refuses a tag that is an ancestor of the payload's parent and passes on a
      failure of the ancestor walk; otherwise it succeeds, overwrites only the fields the payload sets, keeps the
      parents, and leaves every other tag as it was. */
  lemma {:induction false} UpdateTagApiEffect(tags: seq<Tag>, payload: TagUpdate, fuel: nat)
    ensures payload.id !in Ids(tags) ==> UpdateTagApi(tags, payload, fuel) == Err(TagToUpdateMissing)
    ensures payload.parentId.None? && payload.id in Ids(tags) ==> UpdateTagApi(tags, payload, fuel).Ok?
    ensures payload.id in Ids(tags) ==>
              var check := TagInAncestors(tags, payload.id, CheckedParent(payload), fuel);
              && (check == Ok(true) <==> UpdateTagApi(tags, payload, fuel) == Err(AncestorOfItself))
              && (check == Ok(false) <==> UpdateTagApi(tags, payload, fuel).Ok?)
              && (check.Err? ==> UpdateTagApi(tags, payload, fuel) == Err(check.error))
    ensures var r := UpdateTagApi(tags, payload, fuel);
            r.Ok? ==>
              var row := GetTagById(tags, payload.id).value;
              && r.value.1.parents == row.parents
              && r.value.1.propertyId == row.propertyId
              && r.value.1.value == (if payload.value.Some? then payload.value.value else row.value)
              && r.value.1.color == (if payload.color.Some? then payload.color else row.color)
              && GetTagById(r.value.0, payload.id) == Some(r.value.1)
              && Ids(r.value.0) == Ids(tags)
              && forall id :: id != payload.id ==> GetTagById(r.value.0, id) == GetTagById(tags, id)
  {
  }

  // ---------------------------------------------------------------- what a deletion preserves

  /** The parents of tag `id`, empty when there is no such tag. */
  function ParentsOf(tags: seq<Tag>, id: int): seq<int>
  {
    match GetTagById(tags, id)
    case Some(t) => t.parents
    case None => []
  }

  /** Row `t` is row `o` with some references to the ids in `gone` removed from its parents; a row that had
      parents still has some. */
  ghost predicate Trimmed(o: Tag, t: Tag, gone: set<int>)
  {
    && t == o.(parents := t.parents)
    && multiset(t.parents) <= multiset(o.parents)
    && (forall z :: z !in gone ==> Count(z, t.parents) == Count(z, o.parents))
    && (|o.parents| > 0 ==> |t.parents| > 0)
  }

  /** `after` is `before` without the tags in `gone`, the survivors trimmed of references to `gone`. */
  ghost predicate Evolved(before: seq<Tag>, after: seq<Tag>, gone: set<int>)
  {
    && Ids(after) == Ids(before) - gone
    && forall id :: id in Ids(after) ==>
         Trimmed(GetTagById(before, id).value, GetTagById(after, id).value, gone)
  }

  /** No tag of `tags` lists an id of `gone` among its parents. */
  ghost predicate Clean(tags: seq<Tag>, gone: set<int>)
  {
    forall id, z :: id in Ids(tags) && z in gone ==> z !in ParentsOf(tags, id)
  }

  /** Every deleted tag other than `root` existed and had only deleted parents (or `root`). */
  ghost predicate DeletedOrphans(before: seq<Tag>, gone: set<int>, root: int)
  {
    forall d :: d in gone && d != root ==> d in Ids(before) && Elems(ParentsOf(before, d)) <= gone + {root}
  }

  /** Value `w` is `v` with some occurrences of ids in `gone` removed from it when it is a list of ids. */
  ghost predicate ValueTrimmed(v: Value, w: Value, gone: set<int>)
  {
    if v.IdList? then
      && w.IdList?
      && multiset(w.ids) <= multiset(v.ids)
      && forall z :: z !in gone ==> Count(z, w.ids) == Count(z, v.ids)
    else w == v
  }

  /** Same rows, same keys; only tag lists lost references to ids in `gone`. */
  ghost predicate ValuesEvolved(before: seq<ValueRow>, after: seq<ValueRow>, gone: set<int>)
  {
    && |after| == |before|
    && forall i :: 0 <= i < |before| ==>
         after[i] == before[i].(value := after[i].value) && ValueTrimmed(before[i].value, after[i].value, gone)
  }

  /** For each present tag, `cs` lists it once per occurrence of `x` among its parents. */
  ghost predicate ChildCounts(tags: seq<Tag>, cs: seq<int>, x: int)
  {
    forall id :: id in Ids(tags) ==> Count(id, cs) == Count(x, ParentsOf(tags, id))
  }

  /** What `delete_tag(y)` guarantees when it completes: `y` is reported first, each deleted id once; the
      deleted tags are gone, the survivors keep every field and lose only references to deleted tags, none of them
      references a deleted tag any more, nothing was deleted that still had a surviving parent, and tag-list values
      lost only references to deleted tags. */
  ghost predicate Deletion(db: Db, y: int, out: Deleted)
  {
    && |out.ids| > 0 && out.ids[0] == y
    && NoDuplicates(out.ids)
    && UniqueIds(out.db.tags)
    && Evolved(db.tags, out.db.tags, Elems(out.ids))
    && Clean(out.db.tags, Elems(out.ids))
    && DeletedOrphans(db.tags, Elems(out.ids), y)
    && ValuesEvolved(db.values, out.db.values, Elems(out.ids))
  }

  lemma {:induction false} TrimmedCompose(a: Tag, b: Tag, c: Tag, g1: set<int>, g2: set<int>)
    requires Trimmed(a, b, g1) && Trimmed(b, c, g2)
    ensures Trimmed(a, c, g1 + g2)
  {
  }

  lemma {:induction false} EvolvedCompose(a: seq<Tag>, b: seq<Tag>, c: seq<Tag>, g1: set<int>, g2: set<int>)
    requires Evolved(a, b, g1) && Evolved(b, c, g2)
    ensures Evolved(a, c, g1 + g2)
  {
    forall id | id in Ids(c)
      ensures Trimmed(GetTagById(a, id).value, GetTagById(c, id).value, g1 + g2)
    {
      TrimmedCompose(GetTagById(a, id).value, GetTagById(b, id).value, GetTagById(c, id).value, g1, g2);
    }
  }

  /** Widening `gone` by an id that is not a tag keeps the relation. */
  lemma {:induction false} EvolvedWiden(a: seq<Tag>, b: seq<Tag>, g: set<int>, x: int)
    requires Evolved(a, b, g) && x !in Ids(a)
    ensures Evolved(a, b, g + {x})
  {
    forall id | id in Ids(b)
      ensures Trimmed(GetTagById(a, id).value, GetTagById(b, id).value, g + {x})
    {
      assert Trimmed(GetTagById(a, id).value, GetTagById(b, id).value, g);
    }
  }

  lemma {:induction false} EvolvedRefl(a: seq<Tag>, x: int)
    requires x !in Ids(a)
    ensures Evolved(a, a, {x})
  {
    forall id | id in Ids(a) ensures Trimmed(GetTagById(a, id).value, GetTagById(a, id).value, {x}) {
    }
  }

  /** Survivors only lose parents, so a table free of references to `gone` stays free of them. */
  lemma {:induction false} CleanPreserved(b: seq<Tag>, c: seq<Tag>, g: set<int>, gone: set<int>)
    requires Clean(b, gone) && Evolved(b, c, g)
    ensures Clean(c, gone)
  {
    forall id, z | id in Ids(c) && z in gone ensures z !in ParentsOf(c, id) {
      var o := GetTagById(b, id).value;
      var t := GetTagById(c, id).value;
      assert Trimmed(o, t, g);
      assert z !in ParentsOf(b, id);
      assert multiset(t.parents)[z] <= multiset(o.parents)[z];
    }
  }

  /** The parents a survivor lost are all in `g`. */
  lemma {:induction false} TrimmedElems(o: Tag, t: Tag, g: set<int>)
    requires Trimmed(o, t, g)
    ensures Elems(o.parents) <= Elems(t.parents) + g
  {
    forall z | z in Elems(o.parents) && z !in g ensures z in Elems(t.parents) {
      assert Count(z, t.parents) == Count(z, o.parents) > 0;
    }
  }

  lemma {:induction false} ValuesCompose(a: seq<ValueRow>, b: seq<ValueRow>, c: seq<ValueRow>, g1: set<int>, g2: set<int>)
    requires ValuesEvolved(a, b, g1) && ValuesEvolved(b, c, g2)
    ensures ValuesEvolved(a, c, g1 + g2)
  {
    forall i | 0 <= i < |a| ensures c[i] == a[i].(value := c[i].value) && ValueTrimmed(a[i].value, c[i].value, g1 + g2) {
      assert ValueTrimmed(a[i].value, b[i].value, g1);
      assert ValueTrimmed(b[i].value, c[i].value, g2);
    }
  }

  lemma {:induction false} ValuesRefl(a: seq<ValueRow>)
    ensures ValuesEvolved(a, a, {})
  {
  }

  // ---------------------------------------------------------------- removing a deleted tag from property values

  /** The row with one occurrence of `y` removed from its tag list, when the list holds `y`. */
  function StripRow(row: ValueRow, y: int): ValueRow
  {
    if row.value.IdList? && y in row.value.ids then
      row.(value := IdList(RemoveFirst(row.value.ids, y).value))
    else row
  }

  /** The value clean-up of `delete_tag`, selecting exactly the tag lists that hold `y`: each loses one
      occurrence of `y`, written back to its own row. */
  function StripTag(rows: seq<ValueRow>, y: int): (r: seq<ValueRow>)
    ensures ValuesEvolved(rows, r, {y})
    ensures forall i :: 0 <= i < |rows| && rows[i].value.IdList? ==>
              Count(y, r[i].value.ids) == if y in rows[i].value.ids then Count(y, rows[i].value.ids) - 1 else 0
  {
    var r := seq(|rows|, i requires 0 <= i < |rows| => StripRow(rows[i], y));
    StripRows(rows, y, r);
    r
  }

  lemma {:induction false} StripRows(rows: seq<ValueRow>, y: int, r: seq<ValueRow>)
    requires |r| == |rows| && forall i :: 0 <= i < |rows| ==> r[i] == StripRow(rows[i], y)
    ensures ValuesEvolved(rows, r, {y})
    ensures forall i :: 0 <= i < |rows| && rows[i].value.IdList? ==>
              Count(y, r[i].value.ids) == if y in rows[i].value.ids then Count(y, rows[i].value.ids) - 1 else 0
  {
    forall i | 0 <= i < |rows|
      ensures r[i] == rows[i].(value := r[i].value) && ValueTrimmed(rows[i].value, r[i].value, {y})
      ensures rows[i].value.IdList? ==>
              Count(y, r[i].value.ids) == if y in rows[i].value.ids then Count(y, rows[i].value.ids) - 1 else 0
    {
      StripRowTrims(rows[i], y);
    }
  }

  lemma {:induction false} StripRowTrims(row: ValueRow, y: int)
    ensures StripRow(row, y) == row.(value := StripRow(row, y).value)
    ensures ValueTrimmed(row.value, StripRow(row, y).value, {y})
    ensures row.value.IdList? ==>
              Count(y, StripRow(row, y).value.ids) == if y in row.value.ids then Count(y, row.value.ids) - 1 else 0
  {
  }

  /** With repeat-free tag lists, the clean-up leaves no reference to `y` behind. */
  lemma {:induction false} StripTagRemovesAll(rows: seq<ValueRow>, y: int)
    requires forall i :: 0 <= i < |rows| && rows[i].value.IdList? ==> Count(y, rows[i].value.ids) <= 1
    ensures forall i :: 0 <= i < |rows| && rows[i].value.IdList? ==> y !in StripTag(rows, y)[i].value.ids
  {
  }

  // ---------------------------------------------------------------- delete_tag and delete_tag_parent

  /** `delete_tag(y)`, passing the child's id to `delete_tag_parent`: delete the row, detach every child once per
      reference (deleting the children left without parents), then remove `y` from the tag lists holding it. */
  function DeleteTag(db: Db, y: int): (r: Result<Deleted>)
    requires UniqueIds(db.tags)
    ensures r.Ok? ==> Deletion(db, y, r.value)
    ensures r.Ok? ==> |r.value.db.tags| <= |db.tags|
    decreases |db.tags| - (if y in Ids(db.tags) then 1 else 0), 2, 0
  {
    var tags1 := DeleteTagById(db.tags, y);
    var cs := ChildIds(tags1, y);
    var rest :- DeleteChildren(Db(tags1, db.values), cs, y);
    var out := Deleted(rest.db.(values := StripTag(rest.db.values, y)), [y] + rest.ids);
    DeletionClosed(db, y, tags1, cs, rest, out);
    Ok(out)
  }

  /** `[modified_tags.extend(delete_tag_parent(c, x)) for c in children]`. */
  function DeleteChildren(db: Db, cs: seq<int>, x: int): (r: Result<Deleted>)
    requires UniqueIds(db.tags) && x !in Ids(db.tags) && ChildCounts(db.tags, cs, x)
    ensures r.Ok? ==> ChildrenDetached(db, x, r.value)
    ensures r.Ok? ==> Clean(r.value.db.tags, {x})
    ensures r.Ok? ==> |r.value.db.tags| <= |db.tags|
    decreases |db.tags|, 1, |cs|
  {
    if |cs| == 0 then
      NoChildrenLeft(db, cs, x);
      Ok(Deleted(db, []))
    else
      var first :- DeleteTagParent(db, cs[0], x);
      ChildCountsStep(db, cs, x, first);
      var rest :- DeleteChildren(first.db, cs[1..], x);
      var out := Deleted(rest.db, first.ids + rest.ids);
      ChildrenCompose(db, x, first, rest, out);
      Ok(out)
  }

  /** `delete_tag_parent(c, x)`: remove one `x` from the parents of `c`; a tag left without parents is deleted,
      otherwise the row is updated. A missing tag fails on `None.parents`, a parent not listed on `list.remove`. */
  function DeleteTagParent(db: Db, c: int, x: int): (r: Result<Deleted>)
    requires UniqueIds(db.tags) && x !in Ids(db.tags)
    ensures r.Ok? ==> ChildrenDetached(db, x, r.value) && c in Ids(db.tags)
    ensures r.Ok? ==> OneReferenceLess(db.tags, r.value.db.tags, c, x)
    ensures r.Ok? ==> |r.value.db.tags| <= |db.tags|
    decreases |db.tags|, 0, 0
  {
    match GetTagById(db.tags, c)
    case None => Err(TagMissing)
    case Some(t) =>
      var parents :- RemoveFirst(t.parents, x);
      if |parents| == 0 then
        var out :- DeleteTag(db, c);
        OrphanDeleted(db, c, x, t, out);
        Ok(out)
      else
        var out := Deleted(db.(tags := UpdateTag(db.tags, t.(parents := parents))), []);
        ParentDetached(db, c, x, t, parents, out);
        Ok(out)
  }

  /** The loop over the children's guarantee: only deleted tags and `x` were removed from survivors, every
      deleted tag had only deleted parents or `x`, and values lost only references to deleted tags. */
  ghost predicate ChildrenDetached(db: Db, x: int, out: Deleted)
  {
    && x !in Elems(out.ids)
    && NoDuplicates(out.ids)
    && Elems(out.ids) <= Ids(db.tags)
    && UniqueIds(out.db.tags)
    && Evolved(db.tags, out.db.tags, Elems(out.ids) + {x})
    && Clean(out.db.tags, Elems(out.ids))
    && DeletedOrphans(db.tags, Elems(out.ids), x)
    && ValuesEvolved(db.values, out.db.values, Elems(out.ids))
  }

  /** Every surviving tag lists `x` as often as before, except `c`, which lists it once less. */
  ghost predicate OneReferenceLess(before: seq<Tag>, after: seq<Tag>, c: int, x: int)
  {
    forall id :: id in Ids(after) ==>
      Count(x, ParentsOf(after, id)) + (if id == c then 1 else 0) == Count(x, ParentsOf(before, id))
  }

  lemma {:induction false} NoChildrenLeft(db: Db, cs: seq<int>, x: int)
    requires UniqueIds(db.tags) && x !in Ids(db.tags) && ChildCounts(db.tags, cs, x) && |cs| == 0
    ensures ChildrenDetached(db, x, Deleted(db, []))
    ensures Clean(db.tags, {x})
  {
    EvolvedRefl(db.tags, x);
    ValuesRefl(db.values);
    assert Elems([]) == {};
    forall id, z | id in Ids(db.tags) && z in {x} ensures z !in ParentsOf(db.tags, id) {
      assert Count(id, cs) == 0;
    }
  }

  lemma {:induction false} ChildCountsStep(db: Db, cs: seq<int>, x: int, first: Deleted)
    requires |cs| > 0 && ChildCounts(db.tags, cs, x)
    requires Ids(first.db.tags) <= Ids(db.tags)
    requires OneReferenceLess(db.tags, first.db.tags, cs[0], x)
    ensures ChildCounts(first.db.tags, cs[1..], x)
  {
    assert multiset(cs) == multiset{cs[0]} + multiset(cs[1..]) by {
      assert cs == [cs[0]] + cs[1..];
    }
  }

  /** Deleting the row of `y` is an evolution that removes `y`. */
  lemma {:induction false} EvolvedByDelete(tags: seq<Tag>, y: int)
    ensures Evolved(tags, DeleteTagById(tags, y), {y})
  {
    var after := DeleteTagById(tags, y);
    forall id | id in Ids(after) ensures Trimmed(GetTagById(tags, id).value, GetTagById(after, id).value, {y}) {
      assert GetTagById(after, id) == GetTagById(tags, id);
    }
  }

  /** The tags the children's loop deleted had only deleted parents or `y`, in the table before `y`'s row went. */
  lemma {:induction false} OrphansBeforeDelete(tags: seq<Tag>, y: int, gone: set<int>)
    requires DeletedOrphans(DeleteTagById(tags, y), gone, y)
    ensures DeletedOrphans(tags, gone + {y}, y)
  {
    var tags1 := DeleteTagById(tags, y);
    forall d | d in gone + {y} && d != y ensures d in Ids(tags) && Elems(ParentsOf(tags, d)) <= gone + {y} + {y} {
      assert ParentsOf(tags1, d) == ParentsOf(tags, d);
    }
  }

  lemma {:induction false} NoDuplicatesCons(y: int, s: seq<int>)
    requires NoDuplicates(s) && y !in s
    ensures NoDuplicates([y] + s)
  {
    forall i, j | 0 <= i < j < |[y] + s| ensures ([y] + s)[i] != ([y] + s)[j] {
      assert ([y] + s)[j] == s[j - 1];
      if i > 0 {
        assert ([y] + s)[i] == s[i - 1];
      }
    }
  }

  lemma {:induction false} NoDuplicatesDisjoint(a: seq<int>, b: seq<int>)
    requires NoDuplicates(a) && NoDuplicates(b) && Elems(a) !! Elems(b)
    ensures NoDuplicates(a + b)
  {
    forall i, j | 0 <= i < j < |a + b| ensures (a + b)[i] != (a + b)[j] {
      if j < |a| {
      } else if i >= |a| {
        assert (a + b)[i] == b[i - |a|] && (a + b)[j] == b[j - |a|];
      } else {
        assert (a + b)[i] in Elems(a) && (a + b)[j] == b[j - |a|] && (a + b)[j] in Elems(b);
      }
    }
  }

  lemma {:induction false} DeletionClosed(db: Db, y: int, tags1: seq<Tag>, cs: seq<int>, rest: Deleted, out: Deleted)
    requires UniqueIds(db.tags)
    requires tags1 == DeleteTagById(db.tags, y)
    requires ChildrenDetached(Db(tags1, db.values), y, rest) && Clean(rest.db.tags, {y})
    requires out == Deleted(rest.db.(values := StripTag(rest.db.values, y)), [y] + rest.ids)
    ensures Deletion(db, y, out)
  {
    var g := Elems(rest.ids);
    assert Elems(out.ids) == g + {y};
    EvolvedByDelete(db.tags, y);
    EvolvedCompose(db.tags, tags1, rest.db.tags, {y}, g + {y});
    assert {y} + (g + {y}) == g + {y};
    ValuesCompose(db.values, rest.db.values, out.db.values, g, {y});
    OrphansBeforeDelete(db.tags, y, g);
    assert y !in rest.ids;
    NoDuplicatesCons(y, rest.ids);
  }

  lemma {:induction false} ChildrenCompose(db: Db, x: int, first: Deleted, rest: Deleted, out: Deleted)
    requires UniqueIds(db.tags) && x !in Ids(db.tags)
    requires ChildrenDetached(db, x, first) && ChildrenDetached(first.db, x, rest)
    requires out == Deleted(rest.db, first.ids + rest.ids)
    ensures ChildrenDetached(db, x, out)
  {
    var g1 := Elems(first.ids);
    var g2 := Elems(rest.ids);
    assert Elems(out.ids) == g1 + g2;
    EvolvedCompose(db.tags, first.db.tags, rest.db.tags, g1 + {x}, g2 + {x});
    assert (g1 + {x}) + (g2 + {x}) == (g1 + g2) + {x};
    CleanPreserved(first.db.tags, rest.db.tags, g2 + {x}, g1);
    ValuesCompose(db.values, first.db.values, rest.db.values, g1, g2);
    forall d | d in g2 ensures d in Ids(db.tags) && Elems(ParentsOf(db.tags, d)) <= g1 + g2 + {x} {
      TrimmedElems(GetTagById(db.tags, d).value, GetTagById(first.db.tags, d).value, g1 + {x});
    }
    NoDuplicatesDisjoint(first.ids, rest.ids);
  }

  /** A row whose parents `list.remove(x)` empties had exactly `[x]`. */
  lemma {:induction false} EmptiedParents(parents: seq<int>, x: int)
    requires RemoveFirst(parents, x) == Ok([])
    ensures parents == [x]
  {
  }

  lemma {:induction false} OrphanDeleted(db: Db, c: int, x: int, t: Tag, out: Deleted)
    requires UniqueIds(db.tags) && x !in Ids(db.tags)
    requires GetTagById(db.tags, c) == Some(t)
    requires RemoveFirst(t.parents, x) == Ok([])
    requires Deletion(db, c, out)
    ensures ChildrenDetached(db, x, out)
    ensures OneReferenceLess(db.tags, out.db.tags, c, x)
  {
    var gone := Elems(out.ids);
    EmptiedParents(t.parents, x);
    assert gone <= Ids(db.tags) by {
      forall d | d in gone ensures d in Ids(db.tags) {
        if d != c {
          assert DeletedOrphans(db.tags, gone, c);
        }
      }
    }
    assert x !in gone;
    EvolvedWiden(db.tags, out.db.tags, gone, x);
    forall id | id in Ids(out.db.tags)
      ensures Count(x, ParentsOf(out.db.tags, id)) + (if id == c then 1 else 0) == Count(x, ParentsOf(db.tags, id))
    {
      assert Trimmed(GetTagById(db.tags, id).value, GetTagById(out.db.tags, id).value, gone);
    }
  }

  /** Removing `x` from the parents of `c` alone is an evolution that removes `x`. */
  lemma {:induction false} EvolvedByUpdate(tags: seq<Tag>, t: Tag, parents: seq<int>, x: int)
    requires x !in Ids(tags) && GetTagById(tags, t.id) == Some(t)
    requires RemoveFirst(t.parents, x) == Ok(parents) && |parents| > 0
    ensures Evolved(tags, UpdateTag(tags, t.(parents := parents)), {x})
  {
    var u := t.(parents := parents);
    var after := UpdateTag(tags, u);
    TrimmedByRemove(t, parents, x);
    assert Written(t, u) == u;
    assert Ids(after) == Ids(tags) - {x};
    forall id | id in Ids(after)
      ensures Trimmed(GetTagById(tags, id).value, GetTagById(after, id).value, {x})
    {
      if id != t.id {
        TrimmedRefl(GetTagById(tags, id).value, {x});
      }
    }
  }

  lemma {:induction false} TrimmedRefl(o: Tag, g: set<int>)
    ensures Trimmed(o, o, g)
  {
  }

  /** Dropping one occurrence of `x` from a non-empty result trims the row by `x`. */
  lemma {:induction false} TrimmedByRemove(t: Tag, parents: seq<int>, x: int)
    requires RemoveFirst(t.parents, x) == Ok(parents) && |parents| > 0
    ensures Trimmed(t, t.(parents := parents), {x})
  {
    assert multiset(parents) == multiset(t.parents) - multiset{x};
  }

  /** ... and the updated row is the only one that lost a reference to `x`, exactly one. */
  lemma {:induction false} OneLessByUpdate(tags: seq<Tag>, t: Tag, parents: seq<int>, x: int)
    requires GetTagById(tags, t.id) == Some(t)
    requires RemoveFirst(t.parents, x) == Ok(parents)
    ensures OneReferenceLess(tags, UpdateTag(tags, t.(parents := parents)), t.id, x)
  {
    var after := UpdateTag(tags, t.(parents := parents));
    forall id | id in Ids(after)
      ensures Count(x, ParentsOf(after, id)) + (if id == t.id then 1 else 0) == Count(x, ParentsOf(tags, id))
    {
      if id != t.id {
        assert GetTagById(after, id) == GetTagById(tags, id);
      }
    }
  }

  lemma {:induction false} ParentDetached(db: Db, c: int, x: int, t: Tag, parents: seq<int>, out: Deleted)
    requires UniqueIds(db.tags) && x !in Ids(db.tags)
    requires GetTagById(db.tags, c) == Some(t)
    requires RemoveFirst(t.parents, x) == Ok(parents) && |parents| > 0
    requires out == Deleted(db.(tags := UpdateTag(db.tags, t.(parents := parents))), [])
    ensures ChildrenDetached(db, x, out)
    ensures OneReferenceLess(db.tags, out.db.tags, c, x)
  {
    EvolvedByUpdate(db.tags, t, parents, x);
    OneLessByUpdate(db.tags, t, parents, x);
    NothingDeleted(db, out.db.tags, x);
  }

  /** A step that deleted nothing and only dropped references to `x`. */
  lemma {:induction false} NothingDeleted(db: Db, after: seq<Tag>, x: int)
    requires UniqueIds(after) && Evolved(db.tags, after, {x})
    ensures ChildrenDetached(db, x, Deleted(db.(tags := after), []))
  {
    assert Elems([]) == {};
    assert {} + {x} == {x};
    ValuesRefl(db.values);
  }

  /** A tag no other tag lists as a parent is deleted on its own, and the deletion always completes. */
  lemma {:induction false} DeleteLeaf(db: Db, y: int)
    requires UniqueIds(db.tags)
    requires forall id :: id in Ids(db.tags) && id != y ==> y !in ParentsOf(db.tags, id)
    ensures DeleteTag(db, y) == Ok(Deleted(Db(DeleteTagById(db.tags, y), StripTag(db.values, y)), [y]))
  {
    var tags1 := DeleteTagById(db.tags, y);
    NoChildIds(db.tags, y);
    assert DeleteChildren(Db(tags1, db.values), [], y) == Ok(Deleted(Db(tags1, db.values), []));
    assert [y] + [] == [y];
  }

  /** Once the row of `y` is gone, no tag lists `y` unless some other tag had it as a parent. */
  lemma {:induction false} NoChildIds(tags: seq<Tag>, y: int)
    requires UniqueIds(tags)
    requires forall id :: id in Ids(tags) && id != y ==> y !in ParentsOf(tags, id)
    ensures ChildIds(DeleteTagById(tags, y), y) == []
  {
    var tags1 := DeleteTagById(tags, y);
    var cs := ChildIds(tags1, y);
    assert multiset(cs) == multiset{} by {
      forall id ensures multiset(cs)[id] == 0 {
        if id in Ids(tags1) {
          assert ParentsOf(tags1, id) == ParentsOf(tags, id);
        }
      }
    }
  }

  // ---------------------------------------------------------------- the stored JSON text and SQL LIKE

  function DigitChar(d: int): char
    requires 0 <= d < 10
  {
    (48 + d) as char
  }

  /** `str(n)` for a natural number. */
  function NatDecimal(n: nat): (r: string)
    ensures |r| > 0 && '0' <= r[0] <= '9'
    decreases n
  {
    if n < 10 then [DigitChar(n)] else NatDecimal(n / 10) + [DigitChar(n % 10)]
  }

  /** `str(n)`: decimal digits, with a leading minus sign for a negative number. */
  function Decimal(n: int): (r: string)
    ensures |r| > 0 && (r[0] == '-' || '0' <= r[0] <= '9')
  {
    if n < 0 then "-" + NatDecimal(-n) else NatDecimal(n)
  }

  /** `", ".join(str(i) for i in ids)`. */
  function JoinIds(ids: seq<int>): string
  {
    if |ids| == 0 then ""
    else if |ids| == 1 then Decimal(ids[0])
    else Decimal(ids[0]) + ", " + JoinIds(ids[1..])
  }

  /** `json.dumps(value)`, the text the `value` column stores (string escapes are not modelled). */
  function Render(v: Value): string
  {
    match v
    case Text(s) => "\"" + s + "\""
    case Number(n) => Decimal(n)
    case Flag(b) => if b then "true" else "false"
    case IdList(ids) => "[" + JoinIds(ids) + "]"
  }

  /** `x` is a substring of `s`. */
  predicate Occurs(x: string, s: string)
    decreases |s|
  {
    if |x| > |s| then false
    else if s[..|x|] == x then true
    else |s| > 0 && Occurs(x, s[1..])
  }

  /** `s LIKE '[%' || x || '%]'`: `s` starts with `[`, ends with `]`, and `x` occurs between them. */
  predicate LikeBracketed(s: string, x: string)
  {
    |s| >= 2 && s[0] == '[' && s[|s| - 1] == ']' && Occurs(x, s[1..|s| - 1])
  }

  /** Only a list renders with a leading bracket, so only list values can match the pattern. */
  lemma {:induction false} OnlyListsMatch(v: Value, x: string)
    requires LikeBracketed(Render(v), x)
    ensures v.IdList?
  {
  }

  lemma {:induction false} OccursAfter(x: string, p: string, s: string)
    requires Occurs(x, s)
    ensures Occurs(x, p + s)
    decreases |p|
  {
    if |p| > 0 {
      OccursAfter(x, p[1..], s);
      assert (p + s)[1..] == p[1..] + s;
      if (p + s)[..|x|] != x {
        assert |x| <= |p + s|;
      }
    } else {
      assert p + s == s;
    }
  }

  lemma {:induction false} OccursAtStart(x: string, s: string)
    ensures Occurs(x, x + s)
  {
    assert (x + s)[..|x|] == x;
  }

  /** Every listed id occurs in the joined text. */
  lemma {:induction false} ListedIdOccurs(ids: seq<int>, y: int)
    requires y in ids
    ensures Occurs(Decimal(y), JoinIds(ids))
  {
    if |ids| == 1 {
      OccursAtStart(Decimal(y), "");
      assert Decimal(y) + "" == Decimal(y);
    } else if ids[0] == y {
      OccursAtStart(Decimal(y), ", " + JoinIds(ids[1..]));
      assert Decimal(ids[0]) + ", " + JoinIds(ids[1..]) == Decimal(y) + (", " + JoinIds(ids[1..]));
    } else {
      ListedIdOccurs(ids[1..], y);
      OccursAfter(Decimal(y), Decimal(ids[0]) + ", ", JoinIds(ids[1..]));
    }
  }

  /** The pattern never misses a list that holds the id. */
  lemma {:induction false} ListedIdMatches(ids: seq<int>, y: int)
    requires y in ids
    ensures LikeBracketed(Render(IdList(ids)), Decimal(y))
  {
    var s := Render(IdList(ids));
    ListedIdOccurs(ids, y);
    assert s[1..|s| - 1] == JoinIds(ids);
  }

  lemma {:induction false} ListedValueMatches(v: Value, y: int)
    ensures v.IdList? && y in v.ids ==> LikeBracketed(Render(v), Decimal(y))
  {
    if v.IdList? && y in v.ids {
      ListedIdMatches(v.ids, y);
    }
  }

  // ---------------------------------------------------------------- delete_tag as written

  /** One row of the clean-up as written: a row the pattern selects is a list (OnlyListsMatch), and
      `value.remove(tag_id)` fails when the list does not hold the id. */
  function StripRowAsWritten(row: ValueRow, y: int): (r: Result<ValueRow>)
    ensures r.Ok? <==> !FalseMatch(row, y)
    ensures r.Ok? ==> r.value == StripRow(row, y)
    ensures r.Err? ==> r.error == ValueNotInList
  {
    if row.value.IdList? && LikeBracketed(Render(row.value), Decimal(y)) then
      var ids :- RemoveFirst(row.value.ids, y);
      Ok(row.(value := IdList(ids)))
    else
      ListedValueMatches(row.value, y);
      Ok(row)
  }

  /** A row the pattern selects although its list does not hold the id. */
  predicate FalseMatch(row: ValueRow, y: int)
  {
    row.value.IdList? && LikeBracketed(Render(row.value), Decimal(y)) && y !in row.value.ids
  }

  /** The clean-up as written: `get_property_values_with_tag(tag_id)` selects rows by the pattern
      `[%tag_id%]`, which also matches lists holding a longer id with the same digits. */
  function StripTagAsWritten(rows: seq<ValueRow>, y: int): (r: Result<seq<ValueRow>>)
    ensures r.Ok? <==> forall i :: 0 <= i < |rows| ==> !FalseMatch(rows[i], y)
    ensures r.Ok? ==> r.value == StripTag(rows, y)
    ensures r.Err? ==> r.error == ValueNotInList
  {
    if |rows| == 0 then Ok([])
    else
      assert forall i :: 1 <= i < |rows| ==> rows[i] == rows[1..][i - 1];
      var head :- StripRowAsWritten(rows[0], y);
      var tail :- StripTagAsWritten(rows[1..], y);
      StripTagCons(rows, y);
      Ok([head] + tail)
  }

  lemma {:induction false} StripTagCons(rows: seq<ValueRow>, y: int)
    requires |rows| > 0
    ensures StripTag(rows, y) == [StripRow(rows[0], y)] + StripTag(rows[1..], y)
  {
    var a := StripTag(rows, y);
    var b := [StripRow(rows[0], y)] + StripTag(rows[1..], y);
    forall i | 0 <= i < |rows| ensures a[i] == b[i] {
      StripTagAt(rows, y, i);
      if i > 0 {
        StripTagAt(rows[1..], y, i - 1);
      }
    }
  }

  lemma {:induction false} StripTagAt(rows: seq<ValueRow>, y: int, i: nat)
    requires i < |rows|
    ensures |StripTag(rows, y)| == |rows| && StripTag(rows, y)[i] == StripRow(rows[i], y)
  {
  }

  /** `delete_tag(y)` as written: `delete_tag_parent(c, tag_id)` receives the child row `c` itself, which
      `get_tag_by_id` cannot bind as a query parameter, so any child makes the deletion fail. */
  function DeleteTagAsWritten(db: Db, y: int): (r: Result<Deleted>)
    ensures r.Ok? ==> r.value.ids == [y] && r.value.db.tags == DeleteTagById(db.tags, y)
  {
    var tags1 := DeleteTagById(db.tags, y);
    if |GetTagsByParentId(tags1, y)| > 0 then Err(UnsupportedBinding)
    else
      var values :- StripTagAsWritten(db.values, y);
      Ok(Deleted(Db(tags1, values), [y]))
  }

  /** As written, deleting a tag that has a child always fails. */
  lemma {:induction false} AsWrittenFailsOnChildren(db: Db, y: int, c: int)
    requires c in Ids(db.tags) && c != y && y in ParentsOf(db.tags, c)
    ensures DeleteTagAsWritten(db, y) == Err(UnsupportedBinding)
  {
    var tags1 := DeleteTagById(db.tags, y);
    var child := GetTagById(tags1, c).value;
    assert child in tags1;
    var i :| 0 <= i < |tags1| && tags1[i] == child;
  }

  /** Without children and without false pattern matches, the code as written does what the corrected one does. */
  lemma {:induction false} AsWrittenAgrees(db: Db, y: int)
    requires UniqueIds(db.tags)
    requires forall id :: id in Ids(db.tags) && id != y ==> y !in ParentsOf(db.tags, id)
    requires forall i :: 0 <= i < |db.values| ==> !FalseMatch(db.values[i], y)
    ensures DeleteTagAsWritten(db, y) == DeleteTag(db, y)
  {
    var leaf := Ok(Deleted(Db(DeleteTagById(db.tags, y), StripTag(db.values, y)), [y]));
    assert DeleteTag(db, y) == leaf by {
      DeleteLeaf(db, y);
    }
    assert DeleteTagAsWritten(db, y) == leaf by {
      AsWrittenLeaf(db, y);
    }
  }

  /** The code as written on a tag without children and without false pattern matches. */
  lemma {:induction false} AsWrittenLeaf(db: Db, y: int)
    requires UniqueIds(db.tags)
    requires forall id :: id in Ids(db.tags) && id != y ==> y !in ParentsOf(db.tags, id)
    requires forall i :: 0 <= i < |db.values| ==> !FalseMatch(db.values[i], y)
    ensures DeleteTagAsWritten(db, y) == Ok(Deleted(Db(DeleteTagById(db.tags, y), StripTag(db.values, y)), [y]))
  {
    var tags1 := DeleteTagById(db.tags, y);
    assert |GetTagsByParentId(tags1, y)| == 0 by {
      forall i | 0 <= i < |tags1| ensures y !in tags1[i].parents {
        GetTagByIdOfRow(tags1, tags1[i]);
        assert ParentsOf(tags1, tags1[i].id) == ParentsOf(db.tags, tags1[i].id);
      }
    }
  }

  /** Deleting a root tag with one child: the code as written fails; the corrected cascade deletes both. */
  lemma {:induction false} ChildBindingCounterexample()
    ensures var db := Db([Tag(1, 5, "animal", [0], None), Tag(2, 5, "cat", [1], None)], []);
            && DeleteTagAsWritten(db, 1) == Err(UnsupportedBinding)
            && DeleteTag(db, 1) == Ok(Deleted(Db([], []), [1, 2]))
  {
    var db := Db([Tag(1, 5, "animal", [0], None), Tag(2, 5, "cat", [1], None)], []);
    AsWrittenFailsOnChildren(db, 1, 2);
    var tags1 := DeleteTagById(db.tags, 1);
    assert tags1 == [Tag(2, 5, "cat", [1], None)];
    assert ChildIds(tags1, 1) == [2];
    var cat := Db(tags1, []);
    assert DeleteTagParent(cat, 2, 1) == DeleteTag(cat, 2);
    assert DeleteTagById(tags1, 2) == [];
    assert ChildIds([], 2) == [];
    assert DeleteChildren(Db([], []), [], 2) == Ok(Deleted(Db([], []), []));
    assert StripTag([], 2) == [];
    assert [2] + [] == [2];
    assert DeleteTag(cat, 2) == Ok(Deleted(Db([], []), [2]));
    assert [2][1..] == [];
    assert DeleteChildren(Db([], []), [], 1) == Ok(Deleted(Db([], []), []));
    assert DeleteChildren(cat, [2], 1) == Ok(Deleted(Db([], []), [2]));
    assert StripTag([], 1) == [];
    assert [1] + [2] == [1, 2];
  }

  /** Deleting tag 1 while an image holds the tag list `[11]`: the pattern `[%1%]` selects that row and
      `list.remove` fails; the corrected clean-up leaves the row alone. */
  lemma {:induction false} LikePatternCounterexample()
    ensures var db := Db([Tag(1, 5, "animal", [0], None)], [ValueRow(5, 7, "", IdList([11]))]);
            && DeleteTagAsWritten(db, 1) == Err(ValueNotInList)
            && DeleteTag(db, 1) == Ok(Deleted(Db([], db.values), [1]))
  {
    var db := Db([Tag(1, 5, "animal", [0], None)], [ValueRow(5, 7, "", IdList([11]))]);
    assert NatDecimal(11) == "11";
    assert Render(IdList([11])) == "[11]";
    assert Occurs("1", "11");
    assert FalseMatch(db.values[0], 1);
    DeleteLeaf(db, 1);
    assert StripTag(db.values, 1) == db.values;
  }
}
