/** The ancestor walk of panoptic_back/panoptic/core/db.py (`get_tag_ancestors`, `tag_in_ancestors`).
    The walk follows only the FIRST non-zero parent of each tag, collecting every parent id it passes,
    and stops at a tag whose parents are exactly `[0]`. It has no cycle guard: Python stops it with a
    RecursionError, which the model reaches when `fuel` (the recursion budget) runs out. */
module Ancestry {
  import opened Results
  import opened Seqs
  import opened Catalog

  /** The parent the walk recurses into: the first one that is not 0 (`if parent == 0: continue`). */
  function FirstNonZero(parents: seq<int>): (r: Option<int>)
    ensures r.None? <==> forall i :: 0 <= i < |parents| ==> parents[i] == 0
    ensures r.Some? ==> exists i :: 0 <= i < |parents| && parents[i] == r.value && r.value != 0
                           && forall j :: 0 <= j < i ==> parents[j] == 0
  {
    if |parents| == 0 then None
    else if parents[0] != 0 then Some(parents[0])
    else
      var r := FirstNonZero(parents[1..]);
      assert forall i :: 1 <= i < |parents| ==> parents[i] == parents[1..][i - 1];
      if r.Some? then
        ghost var i :| 0 <= i < |parents[1..]| && parents[1..][i] == r.value && r.value != 0
                       && forall j :: 0 <= j < i ==> parents[1..][j] == 0;
        assert parents[i + 1] == r.value;
        r
      else r
  }

  function Elems(s: seq<int>): set<int>
  {
    set x | x in s
  }

  /** `get_tag_ancestors(tag, acc)`. A tag whose parents are exactly `[0]` ends the walk with `{0} ∪ acc`;
      otherwise its parents join `acc` and the walk moves to its first non-zero parent. Falling out of the
      loop (no non-zero parent) returns None; a missing parent row fails on `None.parents`. */
  function GetTagAncestors(tags: seq<Tag>, tag: Tag, acc: seq<int>, fuel: nat): (r: Result<set<int>>)
    ensures r.Ok? ==> 0 in r.value
    ensures r.Ok? ==> Elems(acc) <= r.value && Elems(tag.parents) <= r.value
    ensures r.Err? ==> r.error in {NoAncestorResult, TagMissing, RecursionLimit}
    decreases fuel
  {
    if tag.parents == [0] then Ok({0} + Elems(acc))
    else
      match FirstNonZero(tag.parents)
      case None => Err(NoAncestorResult)
      case Some(p) =>
        match GetTagById(tags, p)
        case None => Err(TagMissing)
        case Some(parentTag) =>
          if fuel == 0 then Err(RecursionLimit)
          else GetTagAncestors(tags, parentTag, acc + tag.parents, fuel - 1)
  }

  /** The tag the walk visits after `t`, when it moves on at all. */
  function NextOnWalk(tags: seq<Tag>, t: Tag): Option<Tag>
  {
    if t.parents == [0] then None
    else
      match FirstNonZero(t.parents)
      case None => None
      case Some(p) => GetTagById(tags, p)
  }

  /** The walk's step function, as a value the walk below iterates. */
  function Walker(tags: seq<Tag>): Tag -> Option<Tag>
  {
    t => NextOnWalk(tags, t)
  }

  /** The `k`-th tag reached from `tag` by iterating `next` forward (`tag` itself at 0); None once a step has
      failed. With `Walker(tags)` this is the walk of `get_tag_ancestors`. */
  function Step(next: Tag -> Option<Tag>, tag: Tag, k: nat): Option<Tag>
  {
    if k == 0 then Some(tag)
    else
      match Step(next, tag, k - 1)
      case None => None
      case Some(t) => next(t)
  }

  /** The parents of the tag at step `k`, none when there is no such tag. */
  function ParentsAt(next: Tag -> Option<Tag>, tag: Tag, k: nat): seq<int>
  {
    match Step(next, tag, k)
    case Some(t) => t.parents
    case None => []
  }

  /** The parent lists of the tags at steps 0 to `n`, one after another. */
  function WalkParents(next: Tag -> Option<Tag>, tag: Tag, n: nat): seq<int>
  {
    if n == 0 then ParentsAt(next, tag, 0) else WalkParents(next, tag, n - 1) + ParentsAt(next, tag, n)
  }

  /** Taking `k` steps is taking the first step, then `k - 1` more. */
  lemma {:induction false} StepShift(next: Tag -> Option<Tag>, tag: Tag, k: nat)
    requires next(tag).Some? && k > 0
    ensures Step(next, tag, k) == Step(next, next(tag).value, k - 1)
  {
    if k > 1 {
      StepShift(next, tag, k - 1);
    }
  }

  /** A walk whose first step fails stays failed. */
  lemma {:induction false} StepStuck(next: Tag -> Option<Tag>, tag: Tag, k: nat)
    requires next(tag).None? && k > 0
    ensures Step(next, tag, k).None?
  {
    if k > 1 {
      StepStuck(next, tag, k - 1);
    }
  }

  lemma {:induction false} ParentsShift(next: Tag -> Option<Tag>, tag: Tag, n: nat)
    requires next(tag).Some? && n > 0
    ensures WalkParents(next, tag, n) == tag.parents + WalkParents(next, next(tag).value, n - 1)
  {
    var u := next(tag).value;
    assert ParentsAt(next, tag, n) == ParentsAt(next, u, n - 1) by {
      StepShift(next, tag, n);
    }
    if n == 1 {
      assert WalkParents(next, tag, 1) == tag.parents + ParentsAt(next, tag, 1);
    } else {
      ParentsShift(next, tag, n - 1);
      ConcatAssoc(tag.parents, WalkParents(next, u, n - 2), ParentsAt(next, u, n - 1));
    }
  }

  lemma {:induction false} ElemsAppend(a: seq<int>, b: seq<int>)
    ensures Elems(a + b) == Elems(a) + Elems(b)
  {
  }

  /** One move of `get_tag_ancestors`: from a tag the walk leaves, with budget left, the call continues at the
      next tag with the tag's parents added to the accumulator. */
  lemma {:induction false} AncestorsMove(tags: seq<Tag>, tag: Tag, acc: seq<int>, fuel: nat)
    requires NextOnWalk(tags, tag).Some? && fuel > 0
    ensures GetTagAncestors(tags, tag, acc, fuel)
         == GetTagAncestors(tags, NextOnWalk(tags, tag).value, acc + tag.parents, fuel - 1)
  {
  }

  /** A walk that reaches a tag with parents exactly `[0]` after `n` moves, within the recursion budget, succeeds
      with the accumulator and every parent listed along the way. */
  lemma {:induction false} WalkEndsInAncestors(tags: seq<Tag>, tag: Tag, acc: seq<int>, fuel: nat, n: nat)
    requires var w := Walker(tags); n <= fuel && Step(w, tag, n).Some? && Step(w, tag, n).value.parents == [0]
    ensures GetTagAncestors(tags, tag, acc, fuel) == Ok(Elems(acc + WalkParents(Walker(tags), tag, n)))
    decreases n
  {
    var w := Walker(tags);
    if n == 0 {
      AncestorsAtEnd(tags, tag, acc, fuel);
    } else {
      if w(tag).None? {
        StepStuck(w, tag, n);
      }
      var next := w(tag).value;
      assert Step(w, next, n - 1) == Step(w, tag, n) by {
        StepShift(w, tag, n);
      }
      WalkEndsInAncestors(tags, next, acc + tag.parents, fuel - 1, n - 1);
      AncestorsMoveAlong(tags, tag, acc, fuel, n);
    }
  }

  /** The walk ends at once at a tag whose parents are exactly `[0]`. */
  lemma {:induction false} AncestorsAtEnd(tags: seq<Tag>, tag: Tag, acc: seq<int>, fuel: nat)
    requires tag.parents == [0]
    ensures GetTagAncestors(tags, tag, acc, fuel) == Ok(Elems(acc + WalkParents(Walker(tags), tag, 0)))
  {
    assert WalkParents(Walker(tags), tag, 0) == [0];
    assert GetTagAncestors(tags, tag, acc, fuel) == Ok({0} + Elems(acc));
    assert Elems(acc + [0]) == {0} + Elems(acc) by {
      ElemsAppend(acc, [0]);
      assert Elems([0]) == {0};
    }
  }

  /** What one move contributes: the moved-from tag's parents go before what the rest of the walk collects. */
  lemma {:induction false} AncestorsMoveAlong(tags: seq<Tag>, tag: Tag, acc: seq<int>, fuel: nat, n: nat)
    requires Walker(tags)(tag).Some? && fuel > 0 && n > 0
    requires var next := Walker(tags)(tag).value;
             GetTagAncestors(tags, next, acc + tag.parents, fuel - 1)
             == Ok(Elems((acc + tag.parents) + WalkParents(Walker(tags), next, n - 1)))
    ensures GetTagAncestors(tags, tag, acc, fuel) == Ok(Elems(acc + WalkParents(Walker(tags), tag, n)))
  {
    var w := Walker(tags);
    var next := w(tag).value;
    var later := WalkParents(w, next, n - 1);
    assert GetTagAncestors(tags, tag, acc, fuel) == GetTagAncestors(tags, next, acc + tag.parents, fuel - 1) by {
      AncestorsMove(tags, tag, acc, fuel);
    }
    assert WalkParents(w, tag, n) == tag.parents + later by {
      ParentsShift(w, tag, n);
    }
    ConcatAssoc(acc, tag.parents, later);
  }

  /** Conversely, a successful walk reached a tag with parents exactly `[0]` within the budget, and its result is
      exactly the accumulator and the parents listed along the way: nothing else is an ancestor. */
  lemma {:induction false} AncestorsAlongWalk(tags: seq<Tag>, tag: Tag, acc: seq<int>, fuel: nat) returns (n: nat)
    requires GetTagAncestors(tags, tag, acc, fuel).Ok?
    ensures var w := Walker(tags); n <= fuel && Step(w, tag, n).Some? && Step(w, tag, n).value.parents == [0]
    ensures GetTagAncestors(tags, tag, acc, fuel) == Ok(Elems(acc + WalkParents(Walker(tags), tag, n)))
    decreases fuel
  {
    var w := Walker(tags);
    if tag.parents == [0] {
      n := 0;
      AncestorsAtEnd(tags, tag, acc, fuel);
    } else {
      assert w(tag).Some? && fuel > 0;
      var next := w(tag).value;
      AncestorsMove(tags, tag, acc, fuel);
      var m := AncestorsAlongWalk(tags, next, acc + tag.parents, fuel - 1);
      n := m + 1;
      assert Step(w, next, m) == Step(w, tag, n) by {
        StepShift(w, tag, n);
      }
      AncestorsMoveAlong(tags, tag, acc, fuel, n);
    }
  }

  /** The accumulator only adds itself to the result: the walk's own findings do not depend on it. */
  lemma {:induction false} AncestorsAccumulate(tags: seq<Tag>, tag: Tag, acc: seq<int>, fuel: nat)
    ensures GetTagAncestors(tags, tag, acc, fuel).Ok? == GetTagAncestors(tags, tag, [], fuel).Ok?
    ensures GetTagAncestors(tags, tag, acc, fuel).Ok? ==>
              GetTagAncestors(tags, tag, acc, fuel).value == GetTagAncestors(tags, tag, [], fuel).value + Elems(acc)
    decreases fuel
  {
    if tag.parents != [0] && FirstNonZero(tag.parents).Some? {
      var p := FirstNonZero(tag.parents).value;
      if GetTagById(tags, p).Some? && fuel > 0 {
        var parentTag := GetTagById(tags, p).value;
        AncestorsAccumulate(tags, parentTag, acc + tag.parents, fuel - 1);
        AncestorsAccumulate(tags, parentTag, [] + tag.parents, fuel - 1);
        assert Elems(acc + tag.parents) == Elems(acc) + Elems([] + tag.parents);
      }
    }
  }

  /** Once the walk succeeds, a larger recursion budget gives the same answer. */
  lemma {:induction false} AncestorsFuelMonotone(tags: seq<Tag>, tag: Tag, acc: seq<int>, fuel: nat, more: nat)
    requires GetTagAncestors(tags, tag, acc, fuel).Ok?
    requires fuel <= more
    ensures GetTagAncestors(tags, tag, acc, more) == GetTagAncestors(tags, tag, acc, fuel)
    decreases fuel
  {
    if tag.parents != [0] {
      var p := FirstNonZero(tag.parents).value;
      var parentTag := GetTagById(tags, p).value;
      AncestorsFuelMonotone(tags, parentTag, acc + tag.parents, fuel - 1, more - 1);
    }
  }

  /** Consecutive tags of `cycle` follow each other on the walk, and the last leads back to the first. */
  ghost predicate WalkCycle(tags: seq<Tag>, cycle: seq<Tag>)
  {
    && |cycle| > 0
    && forall j :: 0 <= j < |cycle| ==> NextOnWalk(tags, cycle[j]) == Some(cycle[(j + 1) % |cycle|])
  }

  /** No cycle guard: from any tag on a cycle of first parents the walk never ends, whatever the budget. */
  lemma {:induction false} CycleExhaustsRecursion(tags: seq<Tag>, cycle: seq<Tag>, j: nat, acc: seq<int>, fuel: nat)
    requires WalkCycle(tags, cycle) && j < |cycle|
    ensures GetTagAncestors(tags, cycle[j], acc, fuel) == Err(RecursionLimit)
    decreases fuel
  {
    var t := cycle[j];
    assert NextOnWalk(tags, t) == Some(cycle[(j + 1) % |cycle|]);
    if fuel > 0 {
      CycleExhaustsRecursion(tags, cycle, (j + 1) % |cycle|, acc + t.parents, fuel - 1);
    }
  }

  /** `tag_in_ancestors(tag_id, parent_id)`: false for a falsy parent id, otherwise whether `tag_id` is among the
      ancestors of the parent tag (a missing parent row fails inside `get_tag_ancestors`). */
  function TagInAncestors(tags: seq<Tag>, tagId: int, parentId: int, fuel: nat): (r: Result<bool>)
    ensures parentId == 0 ==> r == Ok(false)
    ensures parentId != 0 && parentId !in Ids(tags) ==> r == Err(TagMissing)
    ensures parentId != 0 && parentId in Ids(tags) ==>
              match GetTagAncestors(tags, GetTagById(tags, parentId).value, [], fuel)
              case Ok(anc) => r == Ok(tagId in anc)
              case Err(e) => r == Err(e)
  {
    if parentId == 0 then Ok(false)
    else
      match GetTagById(tags, parentId)
      case None => Err(TagMissing)
      case Some(parent) =>
        var ancestors :- GetTagAncestors(tags, parent, [], fuel);
        Ok(tagId in ancestors)
  }

  /** The answer of `tag_in_ancestors` for an existing parent whose walk ends: whether `tag_id` is listed by a tag
      on the first-parent walk from the parent, up to and including the tag with parents `[0]`. */
  lemma {:induction false} TagInAncestorsAlongWalk(tags: seq<Tag>, tagId: int, parentId: int, fuel: nat, n: nat)
    requires parentId != 0 && parentId in Ids(tags)
    requires var parent := GetTagById(tags, parentId).value;
             var w := Walker(tags);
             n <= fuel && Step(w, parent, n).Some? && Step(w, parent, n).value.parents == [0]
    ensures TagInAncestors(tags, tagId, parentId, fuel)
         == Ok(tagId in WalkParents(Walker(tags), GetTagById(tags, parentId).value, n))
  {
    var parent := GetTagById(tags, parentId).value;
    WalkEndsInAncestors(tags, parent, [], fuel, n);
    assert [] + WalkParents(Walker(tags), parent, n) == WalkParents(Walker(tags), parent, n);
  }

  /** The check always catches a direct parent: a tag listed among the parent's own parents is reported. */
  lemma {:induction false} DirectParentDetected(tags: seq<Tag>, tagId: int, parentId: int, fuel: nat)
    requires parentId != 0 && parentId in Ids(tags)
    requires tagId in GetTagById(tags, parentId).value.parents
    requires TagInAncestors(tags, tagId, parentId, fuel).Ok?
    ensures TagInAncestors(tags, tagId, parentId, fuel) == Ok(true)
  {
    var parent := GetTagById(tags, parentId).value;
    assert tagId in Elems(parent.parents);
  }
}
