/** The catalog bookkeeping of the API layer (panoptic_api/core/__init__.py): preprocessing an imported file,
    recording an image under its sha1 with every path it was found at, the property map, the property update,
    and the tag listing grouped by property. */
module ApiCatalog {
  import opened Results
  import opened Seqs
  import opened Catalog
  import opened Paths

  // ---------------------------------------------------------------- _preprocess_image

  /** What the image library and the hash give for a file: `image.size` and the sha1 of the pixels. */
  datatype Decoded = Decoded(width: int, height: int, sha1: string)

  /** The tuple `_preprocess_image` returns (the machine-learning values it computes are dropped by every caller). */
  datatype Preprocessed = Preprocessed(filePath: string, name: string, extension: string,
                                       width: int, height: int, sha1: string, url: string)

  /** `_preprocess_image(file_path)`: name, extension and url derived from the path, the rest from the decoder. */
  function PreprocessImage(filePath: string, decoded: Decoded): (r: Preprocessed)
    ensures IsLastSegment(filePath, Sep, r.name)
    ensures IsLastSegment(r.name, '.', r.extension)
    ensures |r.url| == |ImagesPrefix| + |filePath| && r.url[|ImagesPrefix|..] == filePath
    ensures r.filePath == filePath && r.width == decoded.width && r.height == decoded.height && r.sha1 == decoded.sha1
  {
    var name := FileName(filePath);
    var extension := Extension(name);
    Preprocessed(filePath, name, extension, decoded.width, decoded.height, decoded.sha1, ImageUrl(filePath))
  }

  /** A file `stem.ext` in any folder gets the name `stem.ext` and the extension `ext`. */
  lemma {:induction false} PreprocessSplitsPath(folder: string, stem: string, ext: string, decoded: Decoded)
    requires Sep !in stem && Sep !in ext && '.' !in ext
    ensures var r := PreprocessImage(folder + [Sep] + (stem + ['.'] + ext), decoded);
            && r.name == stem + ['.'] + ext
            && r.extension == ext
  {
    var file := stem + ['.'] + ext;
    assert Sep !in file;
    LastSegmentOfJoin(folder, Sep, file);
    LastSegmentOfJoin(stem, '.', ext);
    assert FileName(folder + [Sep] + file) == file;
    assert Extension(file) == ext;
  }

  // ---------------------------------------------------------------- add_image_to_db

  /** An image as the API layer stores it: one record per sha1, with every path the content was found at. */
  datatype ApiImage = ApiImage(sha1: string, paths: seq<string>, height: int, width: int,
                               name: string, extension: string, url: string)

  /** `add_image_to_db`: a known sha1 gains `file_path` unless it already lists it; an unknown sha1 is inserted with
      `paths == [file_path]`. The result is the record read back by sha1. */
  function AddImageToDb(images: map<string, ApiImage>, p: Preprocessed): (r: (map<string, ApiImage>, ApiImage))
    ensures p.sha1 in r.0 && r.0[p.sha1] == r.1
    ensures r.0.Keys == images.Keys + {p.sha1}
    ensures forall k :: k in images && k != p.sha1 ==> r.0[k] == images[k]
  {
    if p.sha1 in images then
      var image := images[p.sha1];
      if p.filePath in image.paths then (images, image)
      else
        var updated := image.(paths := image.paths + [p.filePath]);
        (images[p.sha1 := updated], updated)
    else
      var image := ApiImage(p.sha1, [p.filePath], p.height, p.width, p.name, p.extension, p.url);
      (images[p.sha1 := image], image)
  }

  /** A new sha1 is recorded with exactly the one path and the preprocessed fields. */
  lemma {:induction false} AddImageNew(images: map<string, ApiImage>, p: Preprocessed)
    requires p.sha1 !in images
    ensures AddImageToDb(images, p).1 == ApiImage(p.sha1, [p.filePath], p.height, p.width, p.name, p.extension, p.url)
  {
  }

  /** A known sha1 keeps its record; its paths become the old paths plus `file_path`, still without repeats. */
  lemma {:induction false} AddImageKnown(images: map<string, ApiImage>, p: Preprocessed)
    requires p.sha1 in images && NoDuplicates(images[p.sha1].paths)
    ensures var r := AddImageToDb(images, p).1;
            && r == images[p.sha1].(paths := r.paths)
            && NoDuplicates(r.paths)
            && (forall q :: q in r.paths <==> q in images[p.sha1].paths || q == p.filePath)
            && (p.filePath in images[p.sha1].paths ==> r.paths == images[p.sha1].paths)
            && |r.paths| <= |images[p.sha1].paths| + 1
  {
    var old_paths := images[p.sha1].paths;
    if p.filePath !in old_paths {
      var paths := old_paths + [p.filePath];
      assert forall i :: 0 <= i < |old_paths| ==> paths[i] == old_paths[i];
    }
  }

  /** The catalog's invariant: every record's paths are free of repeats. */
  ghost predicate PathsDistinct(images: map<string, ApiImage>)
  {
    forall k :: k in images ==> NoDuplicates(images[k].paths)
  }

  /** Adding an image keeps every record free of repeated paths. */
  lemma {:induction false} AddImageKeepsPathsDistinct(images: map<string, ApiImage>, p: Preprocessed)
    requires PathsDistinct(images)
    ensures PathsDistinct(AddImageToDb(images, p).0)
  {
    if p.sha1 in images {
      AddImageKnown(images, p);
    }
  }

  /** Finding the same file twice records it once. */
  lemma {:induction false} AddImageIdempotent(images: map<string, ApiImage>, p: Preprocessed)
    ensures var once := AddImageToDb(images, p);
            AddImageToDb(once.0, p) == once
  {
    var once := AddImageToDb(images, p);
    assert p.filePath in once.1.paths;
    assert once.0[p.sha1 := once.1] == once.0;
  }

  // ---------------------------------------------------------------- get_properties and update_property

  function PropertyPairs(props: seq<Property>): (r: seq<(int, Property)>)
    ensures |r| == |props| && forall i :: 0 <= i < |props| ==> r[i] == (props[i].id, props[i])
  {
    if |props| == 0 then [] else [(props[0].id, props[0])] + PropertyPairs(props[1..])
  }

  /** `get_properties`: `{prop.id: prop for prop in properties}`. */
  function GetPropertiesMap(props: seq<Property>): (m: map<int, Property>)
    ensures forall id :: id in m <==> exists i :: 0 <= i < |props| && props[i].id == id
    ensures forall id :: id in m ==> m[id].id == id
  {
    var pairs := PropertyPairs(props);
    var m := ToMap(pairs);
    assert forall id :: id in m ==> m[id].id == id by {
      forall id | id in m ensures m[id].id == id {
        LastPairOfKey(pairs, id);
      }
    }
    m
  }

  /** The value `ToMap` keeps for a key is the one of the key's last pair. */
  lemma {:induction false} LastPairOfKey(pairs: seq<(int, Property)>, id: int)
    requires forall i :: 0 <= i < |pairs| ==> pairs[i].1.id == pairs[i].0
    requires id in ToMap(pairs)
    ensures ToMap(pairs)[id].id == id
  {
    var init := pairs[..|pairs| - 1];
    if pairs[|pairs| - 1].0 != id {
      assert forall i :: 0 <= i < |init| ==> init[i] == pairs[i];
      LastPairOfKey(init, id);
    }
  }

  /** With unique property ids, every property is listed under its own id. */
  lemma {:induction false} PropertiesMapHoldsEvery(props: seq<Property>, i: int)
    requires 0 <= i < |props|
    requires forall j, k :: 0 <= j < k < |props| ==> props[j].id != props[k].id
    ensures GetPropertiesMap(props)[props[i].id] == props[i]
  {
    var pairs := PropertyPairs(props);
    assert pairs[i] == (props[i].id, props[i]);
  }

  /** `update_property(payload)`: a missing property is refused (HTTP 400); otherwise its name is replaced and the
      row written back with its type unchanged. */
  function UpdatePropertyApi(props: seq<Property>, id: int, name: string): (r: Result<(seq<Property>, Property)>)
    ensures r.Err? <==> GetPropertyById(props, id).None?
    ensures r.Err? ==> r.error == PropertyMissing
    ensures r.Ok? ==> r.value.1 == GetPropertyById(props, id).value.(name := name)
  {
    match GetPropertyById(props, id)
    case None => Err(PropertyMissing)
    case Some(existing) =>
      var updated := existing.(name := name);
      Ok((UpdateProperty(props, updated), updated))
  }

  /** After the update, looking the property up finds the new name; every other property is untouched. */
  lemma {:induction false} UpdatePropertyApiEffect(props: seq<Property>, id: int, name: string)
    requires GetPropertyById(props, id).Some?
    ensures var r := UpdatePropertyApi(props, id, name).value;
            && GetPropertyById(r.0, id) == Some(r.1)
            && r.1.propertyType == GetPropertyById(props, id).value.propertyType
            && r.1.name == name
            && forall other :: other != id ==> GetPropertyById(r.0, other) == GetPropertyById(props, other)
  {
    var r := UpdatePropertyApi(props, id, name).value;
    UpdatedLookup(props, r.1, id);
    forall other | other != id ensures GetPropertyById(r.0, other) == GetPropertyById(props, other) {
      UpdatedLookup(props, r.1, other);
    }
  }

  lemma {:induction false} UpdatedLookup(props: seq<Property>, p: Property, id: int)
    ensures GetPropertyById(UpdateProperty(props, p), id)
            == if id == p.id then (if GetPropertyById(props, id).Some? then Some(p) else None)
               else GetPropertyById(props, id)
  {
    if |props| > 0 {
      UpdatedLookup(props[1..], p, id);
      assert UpdateProperty(props, p)[1..] == UpdateProperty(props[1..], p);
    }
  }

  // ---------------------------------------------------------------- get_tags

  /** The API's tag listing: tag maps keyed by property id, each keyed by tag id. */
  type Grouped = map<int, map<int, Tag>>

  /** The grouping loop of `get_tags`, over the rows in order; a later row with the same ids replaces an earlier one. */
  function Group(tags: seq<Tag>): (g: Grouped)
  {
    if |tags| == 0 then map[]
    else
      var g := Group(tags[..|tags| - 1]);
      var t := tags[|tags| - 1];
      var inner := if t.propertyId in g then g[t.propertyId] else map[];
      g[t.propertyId := inner[t.id := t]]
  }

  /** `get_tags(prop)`: the tags of `db.get_tags(prop)`, grouped. */
  function GetTagsApi(tags: seq<Tag>, prop: Option<int>): (g: Grouped)
    ensures prop.Some? ==> forall p :: p in g ==> p == prop.value
  {
    var selected := GetTags(tags, prop);
    GroupKeys(selected);
    assert forall p :: p in Group(selected) ==> prop.None? || p == prop.value by {
      forall p | p in Group(selected) ensures prop.None? || p == prop.value {
        var i :| 0 <= i < |selected| && selected[i].propertyId == p;
        assert selected[i] in selected;
      }
    }
    Group(selected)
  }

  /** Grouping puts every tag under its own property and its own id, and nothing else. */
  lemma {:induction false} GroupKeys(tags: seq<Tag>)
    ensures forall p :: p in Group(tags) <==> exists i :: 0 <= i < |tags| && tags[i].propertyId == p
    ensures forall p, id :: p in Group(tags) && id in Group(tags)[p] <==>
              exists i :: 0 <= i < |tags| && tags[i].propertyId == p && tags[i].id == id
    ensures forall p, id :: p in Group(tags) && id in Group(tags)[p] ==>
              Group(tags)[p][id].propertyId == p && Group(tags)[p][id].id == id && Group(tags)[p][id] in tags
  {
    if |tags| > 0 {
      var init := tags[..|tags| - 1];
      var t := tags[|tags| - 1];
      GroupKeys(init);
      var g0: Grouped := Group(init);
      var inner := if t.propertyId in g0 then g0[t.propertyId] else map[];
      var g: Grouped := Group(tags);
      assert g == g0[t.propertyId := inner[t.id := t]];
      assert forall i :: 0 <= i < |init| ==> tags[i] == init[i];
      forall p: int
        ensures p in g <==> exists i :: 0 <= i < |tags| && tags[i].propertyId == p
      {
        if p != t.propertyId && p in g {
          var i :| 0 <= i < |init| && init[i].propertyId == p;
          assert tags[i].propertyId == p;
        }
      }
      forall p: int, id: int
        ensures (p in g && id in g[p]) <==> exists i :: 0 <= i < |tags| && tags[i].propertyId == p && tags[i].id == id
      {
        assert (p in g && id in g[p]) <==> (p == t.propertyId && id == t.id) || (p in g0 && id in g0[p]);
        if p in g0 && id in g0[p] {
          var i :| 0 <= i < |init| && init[i].propertyId == p && init[i].id == id;
          assert tags[i].propertyId == p && tags[i].id == id;
        }
      }
      forall p: int, id: int | p in g && id in g[p]
        ensures g[p][id].propertyId == p && g[p][id].id == id && g[p][id] in tags
      {
        if !(p == t.propertyId && id == t.id) {
          assert g[p][id] == g0[p][id];
          assert g0[p][id] in init;
        }
      }
    }
  }

  /** When tag ids are unique, every listed tag is found under its property and id: no tag is lost. */
  lemma {:induction false} GroupHoldsEvery(tags: seq<Tag>, t: Tag)
    requires UniqueIds(tags) && t in tags
    ensures t.propertyId in Group(tags) && t.id in Group(tags)[t.propertyId]
    ensures Group(tags)[t.propertyId][t.id] == t
  {
    GroupKeys(tags);
    var i :| 0 <= i < |tags| && tags[i] == t;
    assert tags[i].propertyId == t.propertyId && tags[i].id == t.id;
    var p := Group(tags)[t.propertyId][t.id];
    assert p in tags && p.id == t.id;
    GetTagByIdOfRow(tags, t);
    GetTagByIdOfRow(tags, p);
  }

  /** The listing holds exactly the tags of the requested property (all tags when none is given). */
  lemma {:induction false} GetTagsApiHoldsEvery(tags: seq<Tag>, prop: Option<int>, t: Tag)
    requires UniqueIds(tags) && t in tags && (prop.None? || t.propertyId == prop.value)
    ensures t.propertyId in GetTagsApi(tags, prop) && t.id in GetTagsApi(tags, prop)[t.propertyId]
    ensures GetTagsApi(tags, prop)[t.propertyId][t.id] == t
  {
    var selected := GetTags(tags, prop);
    FilteredUnique(tags, prop);
    GroupHoldsEvery(selected, t);
  }

  /** Filtering keeps ids unique. */
  lemma {:induction false} FilteredUnique(tags: seq<Tag>, prop: Option<int>)
    requires UniqueIds(tags)
    ensures UniqueIds(GetTags(tags, prop))
  {
    var keep := (t: Tag) => prop.None? || t.propertyId == prop.value;
    FilterSame(tags, keep, (t: Tag) => prop.None? || t.propertyId == prop.value);
    FilterUnique(tags, keep);
  }

  lemma {:induction false} FilterUnique(tags: seq<Tag>, keep: Tag -> bool)
    requires UniqueIds(tags)
    ensures UniqueIds(Filter(tags, keep)) && Ids(Filter(tags, keep)) <= Ids(tags)
  {
    if |tags| > 0 {
      FilterUnique(tags[1..], keep);
      var r := Filter(tags, keep);
      if keep(tags[0]) {
        assert r[1..] == Filter(tags[1..], keep);
      }
    }
  }
}
