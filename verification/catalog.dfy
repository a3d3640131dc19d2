/** The catalog database of panoptic_back/panoptic/core/db.py, held in memory.
    Each SQL table is a sequence of rows in storage (rowid) order; each query is a pure function of
    the tables. Falsy Python filter arguments (`None` and `[]`) are both the empty sequence here. */
module Catalog {
  import opened Results
  import opened Seqs

  // ---------------------------------------------------------------- values

  /** A JSON property value as stored by `json.dumps`; tag properties hold a list of tag ids. */
  datatype Value = Text(text: string) | Number(number: int) | Flag(flag: bool) | IdList(ids: seq<int>)

  // ---------------------------------------------------------------- generic filtering

  /** The rows of `s` that satisfy `keep`, in their original order (a SQL WHERE clause over one table). */
  function Filter<T(!new)>(s: seq<T>, keep: T -> bool): (r: seq<T>)
    ensures |r| <= |s|
    ensures forall x :: x in r <==> x in s && keep(x)
    ensures (forall i :: 0 <= i < |s| ==> keep(s[i])) ==> r == s
  {
    if |s| == 0 then []
    else if keep(s[0]) then [s[0]] + Filter(s[1..], keep)
    else Filter(s[1..], keep)
  }

  // ---------------------------------------------------------------- images

  /** A row of the `images` table. */
  datatype Image = Image(id: int, folderId: int, name: string, extension: string,
                         sha1: string, url: string, width: int, height: int)

  predicate SameFile(img: Image, folderId: int, name: string, extension: string)
  {
    img.folderId == folderId && img.name == name && img.extension == extension
  }

  /** `has_image_file`: the first image of the folder with this name and extension (LIMIT 1), or none (False). */
  function HasImageFile(images: seq<Image>, folderId: int, name: string, extension: string): (r: Option<Image>)
    ensures r.None? <==> forall i :: 0 <= i < |images| ==> !SameFile(images[i], folderId, name, extension)
    ensures r.Some? ==> exists i :: 0 <= i < |images| && images[i] == r.value
                          && SameFile(images[i], folderId, name, extension)
                          && forall j :: 0 <= j < i ==> !SameFile(images[j], folderId, name, extension)
  {
    if |images| == 0 then None
    else if SameFile(images[0], folderId, name, extension) then Some(images[0])
    else
      var r := HasImageFile(images[1..], folderId, name, extension);
      if r.Some? then
        ghost var i :| 0 <= i < |images[1..]| && images[1..][i] == r.value
                       && SameFile(images[1..][i], folderId, name, extension)
                       && forall j :: 0 <= j < i ==> !SameFile(images[1..][j], folderId, name, extension);
        assert images[i + 1] == r.value;
        assert forall j :: 0 <= j < i + 1 ==> !SameFile(images[j], folderId, name, extension) by {
          forall j | 0 <= j < i + 1 ensures !SameFile(images[j], folderId, name, extension) {
            if j > 0 { assert images[j] == images[1..][j - 1]; }
          }
        }
        r
      else
        assert forall i :: 0 < i < |images| ==> images[i] == images[1..][i - 1];
        r
  }

  /** Appending a row to a table with no match makes that row the match exactly when it matches. */
  lemma {:induction false} HasImageFileAppend(images: seq<Image>, x: Image, folderId: int, name: string, extension: string)
    requires HasImageFile(images, folderId, name, extension).None?
    ensures HasImageFile(images + [x], folderId, name, extension)
         == if SameFile(x, folderId, name, extension) then Some(x) else None
  {
    if |images| == 0 {
      assert images + [x] == [x];
      assert [x][1..] == [];
    } else {
      assert (images + [x])[1..] == images[1..] + [x];
      assert !SameFile(images[0], folderId, name, extension);
      HasImageFileAppend(images[1..], x, folderId, name, extension);
    }
  }

  /** The largest image id in the table, 0 for an empty table. */
  function MaxImageId(images: seq<Image>): (m: int)
    ensures forall i :: 0 <= i < |images| ==> images[i].id <= m
    ensures m >= 0
  {
    if |images| == 0 then 0
    else
      var rest := MaxImageId(images[1..]);
      assert forall i :: 1 <= i < |images| ==> images[i] == images[1..][i - 1];
      if images[0].id > rest then images[0].id else rest
  }

  /** `add_image`: inserts a row; SQLite gives it the rowid one past the largest one in use (`cursor.lastrowid`). */
  function AddImage(images: seq<Image>, folderId: int, name: string, extension: string,
                    sha1: string, url: string, width: int, height: int): (r: (seq<Image>, Image))
    ensures r.0 == images + [r.1]
    ensures r.1 == Image(r.1.id, folderId, name, extension, sha1, url, width, height)
    ensures r.1.id > 0 && forall i :: 0 <= i < |images| ==> images[i].id != r.1.id
  {
    var img := Image(MaxImageId(images) + 1, folderId, name, extension, sha1, url, width, height);
    (images + [img], img)
  }

  /** `get_images(ids)`: the rows whose id is listed, or every row when `ids` is falsy. */
  function GetImages(images: seq<Image>, ids: seq<int>): (r: seq<Image>)
    ensures |ids| == 0 ==> r == images
    ensures |ids| > 0 ==> forall x :: x in r <==> x in images && x.id in ids
  {
    Filter(images, (img: Image) => |ids| == 0 || img.id in ids)
  }

  // ---------------------------------------------------------------- property values

  /** A row of `property_values`; the conflict key is (property_id, image_id, sha1). */
  datatype ValueRow = ValueRow(propertyId: int, imageId: int, sha1: string, value: Value)

  type ValueKey = (int, int, string)

  function KeyOf(row: ValueRow): ValueKey
  {
    (row.propertyId, row.imageId, row.sha1)
  }

  /** The WHERE clause of `get_property_values`: the image-id filter takes precedence over the sha1 filter. */
  predicate SelectsValue(row: ValueRow, propertyIds: seq<int>, imageIds: seq<int>, sha1s: seq<string>)
  {
    && (|propertyIds| == 0 || row.propertyId in propertyIds)
    && (if |imageIds| > 0 then row.imageId in imageIds
        else |sha1s| == 0 || row.sha1 in sha1s)
  }

  /** `get_property_values`. */
  function GetPropertyValues(rows: seq<ValueRow>, propertyIds: seq<int>, imageIds: seq<int>, sha1s: seq<string>)
    : (r: seq<ValueRow>)
    ensures forall x :: x in r <==> x in rows && SelectsValue(x, propertyIds, imageIds, sha1s)
  {
    Filter(rows, (row: ValueRow) => SelectsValue(row, propertyIds, imageIds, sha1s))
  }

  /** With a non-empty image-id filter the sha1 filter is never consulted. */
  lemma {:induction false} ImageIdsOverrideSha1s(rows: seq<ValueRow>, propertyIds: seq<int>, imageIds: seq<int>,
                              sha1s: seq<string>, otherSha1s: seq<string>)
    requires |imageIds| > 0
    ensures GetPropertyValues(rows, propertyIds, imageIds, sha1s)
         == GetPropertyValues(rows, propertyIds, imageIds, otherSha1s)
  {
    var f := (row: ValueRow) => SelectsValue(row, propertyIds, imageIds, sha1s);
    var g := (row: ValueRow) => SelectsValue(row, propertyIds, imageIds, otherSha1s);
    FilterSame(rows, f, g);
  }

  lemma {:induction false} FilterSame<T(!new)>(s: seq<T>, f: T -> bool, g: T -> bool)
    requires forall x :: f(x) == g(x)
    ensures Filter(s, f) == Filter(s, g)
  {
    if |s| > 0 {
      FilterSame(s[1..], f, g);
    }
  }

  /** With every filter falsy, `get_property_values` returns the whole table. */
  lemma {:induction false} NoFilterSelectsAll(rows: seq<ValueRow>)
    ensures GetPropertyValues(rows, [], [], []) == rows
  {
  }

  /** The value stored under a key, if any row has it. */
  function LookupValue(rows: seq<ValueRow>, key: ValueKey): (r: Option<Value>)
    ensures r.None? <==> forall i :: 0 <= i < |rows| ==> KeyOf(rows[i]) != key
  {
    if |rows| == 0 then None
    else if KeyOf(rows[0]) == key then Some(rows[0].value)
    else
      assert forall i :: 1 <= i < |rows| ==> rows[i] == rows[1..][i - 1];
      LookupValue(rows[1..], key)
  }

  /** One `INSERT ... ON CONFLICT (property_id, image_id, sha1) DO UPDATE SET value = excluded.value`. */
  function Upsert(rows: seq<ValueRow>, row: ValueRow): (r: seq<ValueRow>)
    ensures LookupValue(r, KeyOf(row)) == Some(row.value)
    ensures forall k :: k != KeyOf(row) ==> LookupValue(r, k) == LookupValue(rows, k)
    ensures forall i :: 0 <= i < |rows| ==> exists j :: 0 <= j < |r| && KeyOf(r[j]) == KeyOf(rows[i])
  {
    if |rows| == 0 then [row]
    else if KeyOf(rows[0]) == KeyOf(row) then
      var r := [rows[0].(value := row.value)] + rows[1..];
      assert forall i :: 0 <= i < |rows| ==> KeyOf(r[i]) == KeyOf(rows[i]);
      r
    else
      var rest := Upsert(rows[1..], row);
      assert forall i :: 1 <= i < |rows| ==> rows[i] == rows[1..][i - 1];
      assert forall j :: 0 <= j < |rest| ==> ([rows[0]] + rest)[j + 1] == rest[j];
      [rows[0]] + rest
  }

  /** The value the last upsert with this key carries, if any does. */
  function LastWrite(upserts: seq<ValueRow>, key: ValueKey): Option<Value>
  {
    if |upserts| == 0 then None
    else if KeyOf(upserts[|upserts| - 1]) == key then Some(upserts[|upserts| - 1].value)
    else LastWrite(upserts[..|upserts| - 1], key)
  }

  /** `execute_query_many` of upserts, one after the other: the last write per key wins, other keys keep their value. */
  function ApplyUpserts(rows: seq<ValueRow>, upserts: seq<ValueRow>): (r: seq<ValueRow>)
    ensures forall k :: LookupValue(r, k) == (if LastWrite(upserts, k).Some? then LastWrite(upserts, k) else LookupValue(rows, k))
  {
    if |upserts| == 0 then rows
    else Upsert(ApplyUpserts(rows, upserts[..|upserts| - 1]), upserts[|upserts| - 1])
  }

  /** The rows `set_property_values` sends: `(property_id, image_id, '', json(value))` per image id. */
  function ValueUpserts(propertyId: int, value: Value, imageIds: seq<int>): (r: seq<ValueRow>)
    ensures |r| == |imageIds|
    ensures forall i :: 0 <= i < |r| ==> r[i] == ValueRow(propertyId, imageIds[i], "", value)
  {
    seq(|imageIds|, i requires 0 <= i < |imageIds| => ValueRow(propertyId, imageIds[i], "", value))
  }

  /** `set_property_values`: every listed image now carries the value under the empty sha1; nothing else changes. */
  function SetPropertyValues(rows: seq<ValueRow>, propertyId: int, value: Value, imageIds: seq<int>)
    : (r: seq<ValueRow>)
    ensures forall id :: id in imageIds ==> LookupValue(r, (propertyId, id, "")) == Some(value)
    ensures forall k: ValueKey :: (k.0 != propertyId || k.1 !in imageIds || k.2 != "") ==> LookupValue(r, k) == LookupValue(rows, k)
  {
    var ups := ValueUpserts(propertyId, value, imageIds);
    LastWriteOfUpserts(propertyId, value, imageIds);
    ApplyUpserts(rows, ups)
  }

  lemma {:induction false} LastWriteOfUpserts(propertyId: int, value: Value, imageIds: seq<int>)
    ensures forall k: ValueKey :: LastWrite(ValueUpserts(propertyId, value, imageIds), k)
                     == (if k.0 == propertyId && k.1 in imageIds && k.2 == "" then Some(value) else None)
  {
    if |imageIds| > 0 {
      var init := imageIds[..|imageIds| - 1];
      LastWriteOfUpserts(propertyId, value, init);
      assert ValueUpserts(propertyId, value, imageIds)[..|imageIds| - 1] == ValueUpserts(propertyId, value, init);
      assert imageIds == init + [imageIds[|imageIds| - 1]];
    }
  }

  // ---------------------------------------------------------------- computed values

  /** A row of `computed_values` as `get_sha1_ahashs` selects it: (sha1, ahash). */
  type HashRow = (string, string)

  /** The WHERE clause of `get_sha1_ahashs`: an empty sha1 list selects every row. */
  function Sha1Filter(sha1s: seq<string>): HashRow -> bool
  {
    (row: HashRow) => |sha1s| == 0 || row.0 in sha1s
  }

  /** `get_sha1_ahashs`: sha1 to ahash over the rows the sha1 filter selects; a later row overrides an earlier one. */
  function GetSha1Ahashs(rows: seq<HashRow>, sha1s: seq<string>): (m: map<string, string>)
    ensures forall k :: k in m <==> exists i :: 0 <= i < |rows| && rows[i].0 == k && (|sha1s| == 0 || k in sha1s)
  {
    var selected := Filter(rows, Sha1Filter(sha1s));
    SelectedKeys(rows, sha1s, selected);
    ToMap(selected)
  }

  lemma {:induction false} SelectedKeys(rows: seq<HashRow>, sha1s: seq<string>, selected: seq<HashRow>)
    requires forall x :: x in selected <==> x in rows && (|sha1s| == 0 || x.0 in sha1s)
    ensures forall k :: (exists j :: 0 <= j < |selected| && selected[j].0 == k)
                    <==> (exists i :: 0 <= i < |rows| && rows[i].0 == k && (|sha1s| == 0 || k in sha1s))
  {
    forall k | exists j :: 0 <= j < |selected| && selected[j].0 == k
      ensures exists i :: 0 <= i < |rows| && rows[i].0 == k && (|sha1s| == 0 || k in sha1s)
    {
      var j :| 0 <= j < |selected| && selected[j].0 == k;
      assert selected[j] in rows;
    }
    forall k | exists i :: 0 <= i < |rows| && rows[i].0 == k && (|sha1s| == 0 || k in sha1s)
      ensures exists j :: 0 <= j < |selected| && selected[j].0 == k
    {
      var i :| 0 <= i < |rows| && rows[i].0 == k && (|sha1s| == 0 || k in sha1s);
      assert rows[i] in selected;
    }
  }

  /** A later row overrides an earlier one: appending a selected row sets its sha1 to its ahash,
      appending a row the filter skips changes nothing. */
  lemma {:induction false} LaterAhashWins(rows: seq<HashRow>, sha1s: seq<string>, row: HashRow)
    ensures GetSha1Ahashs(rows + [row], sha1s)
            == if |sha1s| == 0 || row.0 in sha1s then GetSha1Ahashs(rows, sha1s)[row.0 := row.1]
               else GetSha1Ahashs(rows, sha1s)
  {
    var keep := Sha1Filter(sha1s);
    var selected := Filter(rows, keep);
    assert GetSha1Ahashs(rows, sha1s) == ToMap(selected);
    assert GetSha1Ahashs(rows + [row], sha1s) == ToMap(Filter(rows + [row], keep));
    FilterSnoc(rows, row, keep);
    if keep(row) {
      ToMapAppend(selected, row);
    } else {
      assert selected + [] == selected;
    }
  }

  /** Filtering a list with one more row at the end filters the old list and then that row. */
  lemma {:induction false} FilterSnoc<T(!new)>(s: seq<T>, x: T, keep: T -> bool)
    ensures Filter(s + [x], keep) == Filter(s, keep) + (if keep(x) then [x] else [])
  {
    if |s| > 0 {
      assert (s + [x])[1..] == s[1..] + [x];
      FilterSnoc(s[1..], x, keep);
    }
  }

  // ---------------------------------------------------------------- auto_dict

  /** `auto_dict`: pairs column names with row values position by position, up to the shorter of the two;
      a repeated column name keeps the later value. */
  function AutoDict<V>(columns: seq<string>, row: seq<V>): (m: map<string, V>)
    ensures forall k :: k in m <==> exists i :: 0 <= i < |columns| && i < |row| && columns[i] == k
    ensures NoDuplicates(columns) ==> |m| == (if |columns| < |row| then |columns| else |row|)
    ensures NoDuplicates(columns) ==> forall i :: 0 <= i < |columns| && i < |row| ==> m[columns[i]] == row[i]
  {
    if |columns| == 0 || |row| == 0 then map[]
    else
      var rest := AutoDict(columns[1..], row[1..]);
      AutoDictCons(columns, row, rest);
      if columns[0] in rest then rest else rest[columns[0] := row[0]]
  }

  /** One step of `auto_dict`: the first column joins the dict of the others unless a later column repeats it. */
  lemma {:induction false} AutoDictCons<V>(columns: seq<string>, row: seq<V>, rest: map<string, V>)
    requires |columns| > 0 && |row| > 0
    requires forall k :: k in rest <==> exists i :: 0 <= i < |columns| - 1 && i < |row| - 1 && columns[1..][i] == k
    requires NoDuplicates(columns[1..]) ==> |rest| == (if |columns| - 1 < |row| - 1 then |columns| - 1 else |row| - 1)
    requires NoDuplicates(columns[1..]) ==>
               forall i :: 0 <= i < |columns| - 1 && i < |row| - 1 ==> rest[columns[1..][i]] == row[1..][i]
    ensures var m := if columns[0] in rest then rest else rest[columns[0] := row[0]];
            && (forall k :: k in m <==> exists i :: 0 <= i < |columns| && i < |row| && columns[i] == k)
            && (NoDuplicates(columns) ==> |m| == (if |columns| < |row| then |columns| else |row|))
            && (NoDuplicates(columns) ==> forall i :: 0 <= i < |columns| && i < |row| ==> m[columns[i]] == row[i])
  {
    var m := if columns[0] in rest then rest else rest[columns[0] := row[0]];
    assert forall i :: 1 <= i < |columns| ==> columns[1..][i - 1] == columns[i];
    assert forall i :: 1 <= i < |row| ==> row[1..][i - 1] == row[i];
    forall k ensures k in m <==> exists i :: 0 <= i < |columns| && i < |row| && columns[i] == k {
      if k in rest {
        var i :| 0 <= i < |columns| - 1 && i < |row| - 1 && columns[1..][i] == k;
        assert columns[i + 1] == k;
      }
      if exists i :: 0 <= i < |columns| && i < |row| && columns[i] == k {
        var i :| 0 <= i < |columns| && i < |row| && columns[i] == k;
        if i > 0 {
          assert columns[1..][i - 1] == k;
        }
      }
    }
    if NoDuplicates(columns) {
      assert NoDuplicates(columns[1..]);
      forall i | 0 <= i < |columns| - 1 && i < |row| - 1 ensures columns[1..][i] != columns[0] {
        assert columns[1..][i] == columns[i + 1];
      }
      assert columns[0] !in rest;
    }
  }

  // ---------------------------------------------------------------- properties

  /** A row of the `properties` table. */
  datatype Property = Property(id: int, name: string, propertyType: string)

  /** `get_property_by_id`: the first property row with this id. */
  function GetPropertyById(props: seq<Property>, id: int): (r: Option<Property>)
    ensures r.Some? ==> r.value in props && r.value.id == id
    ensures r.None? <==> forall i :: 0 <= i < |props| ==> props[i].id != id
  {
    if |props| == 0 then None
    else if props[0].id == id then Some(props[0])
    else
      assert forall i :: 1 <= i < |props| ==> props[i] == props[1..][i - 1];
      GetPropertyById(props[1..], id)
  }

  /** `update_property`: UPDATE properties SET name, type WHERE id. */
  function UpdateProperty(props: seq<Property>, p: Property): (r: seq<Property>)
    ensures |r| == |props|
    ensures forall i :: 0 <= i < |r| ==> r[i] == (if props[i].id == p.id then p else props[i])
  {
    seq(|props|, i requires 0 <= i < |props| => if props[i].id == p.id then p else props[i])
  }

  // ---------------------------------------------------------------- tags

  /** A row of the `tags` table. `parents` lists parent tag ids; a root tag has `[0]`. */
  datatype Tag = Tag(id: int, propertyId: int, value: string, parents: seq<int>, color: Option<string>)

  /** The ids in use. */
  function Ids(tags: seq<Tag>): (r: set<int>)
    ensures forall t :: t in tags ==> t.id in r
  {
    if |tags| == 0 then {} else {tags[0].id} + Ids(tags[1..])
  }

  /** The tag id column is the table's primary key: no id occurs twice. */
  predicate UniqueIds(tags: seq<Tag>)
  {
    |tags| == 0 || (tags[0].id !in Ids(tags[1..]) && UniqueIds(tags[1..]))
  }

  /** `get_tag_by_id`: the row with this id. */
  function GetTagById(tags: seq<Tag>, id: int): (r: Option<Tag>)
    ensures r.Some? <==> id in Ids(tags)
    ensures r.Some? ==> r.value in tags && r.value.id == id
  {
    if |tags| == 0 then None
    else if tags[0].id == id then Some(tags[0])
    else GetTagById(tags[1..], id)
  }

  /** With unique ids, every row is what `get_tag_by_id` returns for its id. */
  lemma {:induction false} GetTagByIdOfRow(tags: seq<Tag>, t: Tag)
    requires UniqueIds(tags) && t in tags
    ensures GetTagById(tags, t.id) == Some(t)
  {
    if tags[0] != t {
      assert t in tags[1..];
      GetTagByIdOfRow(tags[1..], t);
    }
  }

  lemma {:induction false} AppendIds(tags: seq<Tag>, t: Tag)
    ensures Ids(tags + [t]) == Ids(tags) + {t.id}
    ensures UniqueIds(tags) && t.id !in Ids(tags) ==> UniqueIds(tags + [t])
  {
    if |tags| > 0 {
      assert (tags + [t])[1..] == tags[1..] + [t];
      AppendIds(tags[1..], t);
    } else {
      assert (tags + [t])[1..] == [];
    }
  }

  /** `get_tag(property_id, value)`: the first tag of the property with this value. */
  function GetTag(tags: seq<Tag>, propertyId: int, value: string): (r: Option<Tag>)
    ensures r.None? <==> forall i :: 0 <= i < |tags| ==> tags[i].propertyId != propertyId || tags[i].value != value
    ensures r.Some? ==> r.value in tags && r.value.propertyId == propertyId && r.value.value == value
  {
    if |tags| == 0 then None
    else if tags[0].propertyId == propertyId && tags[0].value == value then Some(tags[0])
    else
      assert forall i :: 1 <= i < |tags| ==> tags[i] == tags[1..][i - 1];
      GetTag(tags[1..], propertyId, value)
  }

  /** The largest tag id in use, 0 for an empty table. */
  function MaxTagId(tags: seq<Tag>): (m: int)
    ensures forall id :: id in Ids(tags) ==> id <= m
    ensures m >= 0
  {
    if |tags| == 0 then 0
    else
      var rest := MaxTagId(tags[1..]);
      if tags[0].id > rest then tags[0].id else rest
  }

  /** `add_tag`: inserts a row with the next free rowid and returns that id. */
  function AddTag(tags: seq<Tag>, propertyId: int, value: string, parents: seq<int>, color: Option<string>)
    : (r: (seq<Tag>, int))
    ensures r.1 > 0 && r.1 !in Ids(tags)
    ensures r.0 == tags + [Tag(r.1, propertyId, value, parents, color)]
    ensures Ids(r.0) == Ids(tags) + {r.1}
    ensures UniqueIds(tags) ==> UniqueIds(r.0)
  {
    var id := MaxTagId(tags) + 1;
    var t := Tag(id, propertyId, value, parents, color);
    AppendIds(tags, t);
    (tags + [t], id)
  }

  /** The columns `update_tag` writes: parents, value and color. */
  function Written(row: Tag, tag: Tag): Tag
  {
    row.(parents := tag.parents, value := tag.value, color := tag.color)
  }

  /** `update_tag`: UPDATE tags SET parents, value, color WHERE id. */
  function UpdateTag(tags: seq<Tag>, tag: Tag): (r: seq<Tag>)
    ensures |r| == |tags| && Ids(r) == Ids(tags)
    ensures UniqueIds(tags) ==> UniqueIds(r)
    ensures GetTagById(r, tag.id) == (match GetTagById(tags, tag.id) case Some(row) => Some(Written(row, tag)) case None => None)
    ensures forall id :: id != tag.id ==> GetTagById(r, id) == GetTagById(tags, id)
  {
    if |tags| == 0 then []
    else
      var head := if tags[0].id == tag.id then Written(tags[0], tag) else tags[0];
      var rest := UpdateTag(tags[1..], tag);
      assert ([head] + rest)[1..] == rest;
      [head] + rest
  }

  /** `delete_tag_by_id`: DELETE FROM tags WHERE id. */
  function DeleteTagById(tags: seq<Tag>, id: int): (r: seq<Tag>)
    ensures Ids(r) == Ids(tags) - {id}
    ensures |r| <= |tags| && (id in Ids(tags) ==> |r| < |tags|)
    ensures UniqueIds(tags) ==> UniqueIds(r)
    ensures GetTagById(r, id).None?
    ensures forall y :: y != id ==> GetTagById(r, y) == GetTagById(tags, y)
  {
    if |tags| == 0 then []
    else
      var rest := DeleteTagById(tags[1..], id);
      if tags[0].id == id then rest
      else
        assert ([tags[0]] + rest)[1..] == rest;
        [tags[0]] + rest
  }

  /** `n` copies of `x`. */
  function Repeat(x: int, n: nat): (r: seq<int>)
    ensures |r| == n && forall i :: 0 <= i < n ==> r[i] == x
  {
    if n == 0 then [] else [x] + Repeat(x, n - 1)
  }

  /** `get_tags_by_parent_id`: the join with `json_each(tags.parents)` yields a tag once per occurrence of the parent. */
  function GetTagsByParentId(tags: seq<Tag>, parent: int): (r: seq<Tag>)
    ensures forall c :: c in r ==> c in tags && parent in c.parents
    ensures |r| == 0 <==> forall i :: 0 <= i < |tags| ==> parent !in tags[i].parents
  {
    if |tags| == 0 then []
    else
      assert forall i :: 1 <= i < |tags| ==> tags[i] == tags[1..][i - 1];
      var n := Count(parent, tags[0].parents);
      seq(n, _ => tags[0]) + GetTagsByParentId(tags[1..], parent)
  }

  /** The ids of `get_tags_by_parent_id`, in the same order. */
  function ChildIds(tags: seq<Tag>, parent: int): (r: seq<int>)
    ensures forall c :: c in r ==> c in Ids(tags)
    ensures UniqueIds(tags) ==> forall y :: Count(y, r) == (match GetTagById(tags, y)
                                                             case Some(t) => Count(parent, t.parents)
                                                             case None => 0)
  {
    if |tags| == 0 then []
    else
      var rest := ChildIds(tags[1..], parent);
      var here := Repeat(tags[0].id, Count(parent, tags[0].parents));
      assert multiset(here) == multiset{}[tags[0].id := |here|] by {
        RepeatMultiset(tags[0].id, |here|);
      }
      here + rest
  }

  /** The ids of some tag rows, in order. */
  function RowIds(rows: seq<Tag>): (r: seq<int>)
    ensures |r| == |rows| && forall i :: 0 <= i < |rows| ==> r[i] == rows[i].id
  {
    seq(|rows|, i requires 0 <= i < |rows| => rows[i].id)
  }

  /** The two readings of `get_tags_by_parent_id` agree: the child ids are the ids of the joined rows, in order
      and with the same multiplicity. */
  lemma {:induction false} ChildIdsAreJoinIds(tags: seq<Tag>, parent: int)
    ensures ChildIds(tags, parent) == RowIds(GetTagsByParentId(tags, parent))
  {
    if |tags| > 0 {
      ChildIdsAreJoinIds(tags[1..], parent);
      var n := Count(parent, tags[0].parents);
      var copies := seq(n, _ => tags[0]);
      var rest := GetTagsByParentId(tags[1..], parent);
      assert GetTagsByParentId(tags, parent) == copies + rest;
      RowIdsAppend(copies, rest);
      assert RowIds(copies) == Repeat(tags[0].id, n);
    }
  }

  lemma {:induction false} RowIdsAppend(a: seq<Tag>, b: seq<Tag>)
    ensures RowIds(a + b) == RowIds(a) + RowIds(b)
  {
  }

  lemma {:induction false} RepeatMultiset(x: int, n: nat)
    ensures multiset(Repeat(x, n)) == multiset{}[x := n]
  {
    if n > 0 {
      RepeatMultiset(x, n - 1);
      assert Repeat(x, n) == [x] + Repeat(x, n - 1);
    }
  }

  /** `get_tags(prop)`: every tag, or only those of property `prop` when one is given. */
  function GetTags(tags: seq<Tag>, prop: Option<int>): (r: seq<Tag>)
    ensures forall t :: t in r <==> t in tags && (prop.None? || t.propertyId == prop.value)
    ensures prop.None? ==> r == tags
  {
    Filter(tags, (t: Tag) => prop.None? || t.propertyId == prop.value)
  }
}
