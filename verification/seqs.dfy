/** Small sequence and map helpers used by several modules: occurrence counts, Python's
    `list.remove`, `list(set(...))`, and dict construction where a later key overrides an earlier one. */
module Seqs {
  import opened Results

  /** Number of occurrences of `x` in `s`. */
  function Count<T(==)>(x: T, s: seq<T>): nat
  {
    multiset(s)[x]
  }

  /** No element occurs twice. */
  predicate NoDuplicates<T(==)>(s: seq<T>)
  {
    forall i, j :: 0 <= i < j < |s| ==> s[i] != s[j]
  }

  lemma {:induction false} NoDuplicatesTail<T>(s: seq<T>)
    requires |s| > 0 && NoDuplicates(s)
    ensures NoDuplicates(s[1..]) && s[0] !in s[1..]
  {
    forall i, j | 0 <= i < j < |s[1..]| ensures s[1..][i] != s[1..][j] {
      assert s[1..][i] == s[i + 1] && s[1..][j] == s[j + 1];
    }
  }

  lemma {:induction false} FlattenCons<T>(row: seq<T>, rows: seq<seq<T>>)
    ensures Flatten([row] + rows) == row + Flatten(rows)
  {
    assert ([row] + rows)[1..] == rows;
  }

  /** Python's `list.remove(x)`: drops the first occurrence of `x`; raises ValueError when `x` is absent. */
  function RemoveFirst<T(==)>(s: seq<T>, x: T): (r: Result<seq<T>>)
    ensures r.Ok? <==> x in s
    ensures r.Ok? ==> multiset(r.value) == multiset(s) - multiset{x}
    ensures r.Ok? ==> |r.value| == |s| - 1
    ensures r.Err? ==> r.error == ValueNotInList
  {
    if |s| == 0 then Err(ValueNotInList)
    else if s[0] == x then
      assert s == [s[0]] + s[1..];
      Ok(s[1..])
    else
      match RemoveFirst(s[1..], x)
      case Err(e) => Err(e)
      case Ok(rest) =>
        assert s == [s[0]] + s[1..];
        Ok([s[0]] + rest)
  }

  /** `remove` takes out exactly the first occurrence: the result is the list before it followed by the list after
      it, in their original order. */
  lemma {:induction false} RemoveFirstSplits<T>(s: seq<T>, x: T) returns (i: nat)
    requires RemoveFirst(s, x).Ok?
    ensures i < |s| && s[i] == x && x !in s[..i]
    ensures RemoveFirst(s, x).value == s[..i] + s[i + 1..]
  {
    if s[0] == x {
      i := 0;
    } else {
      var j := RemoveFirstSplits(s[1..], x);
      i := j + 1;
      RemoveFirstLater(s, x, j);
    }
  }

  /** When the head is not `x`, removing from the list keeps the head before what removing from the tail gives. */
  lemma {:induction false} RemoveFirstLater<T>(s: seq<T>, x: T, j: nat)
    requires |s| > 0 && s[0] != x && j < |s| - 1
    requires s[1..][j] == x && x !in s[1..][..j]
    requires RemoveFirst(s[1..], x) == Ok(s[1..][..j] + s[1..][j + 1..])
    ensures s[j + 1] == x && x !in s[..j + 1]
    ensures RemoveFirst(s, x) == Ok(s[..j + 1] + s[j + 2..])
  {
    var before := s[1..][..j];
    var after := s[1..][j + 1..];
    assert s[..j + 1] == [s[0]] + before;
    assert s[j + 2..] == after;
    ConcatAssoc([s[0]], before, after);
  }

  lemma ConcatAssoc<T>(a: seq<T>, b: seq<T>, c: seq<T>)
    ensures a + (b + c) == (a + b) + c
  {
  }

  /** `list({*s})`: the distinct elements of `s`. Python's set order is unspecified; the model keeps first occurrences. */
  function Dedup<T(==,!new)>(s: seq<T>): (r: seq<T>)
    ensures NoDuplicates(r)
    ensures forall x :: x in r <==> x in s
    ensures |r| <= |s|
  {
    if |s| == 0 then []
    else
      var rest := Dedup(s[..|s| - 1]);
      if s[|s| - 1] in rest then rest else rest + [s[|s| - 1]]
  }

  /** `{k: v for k, v in pairs}`: a later pair overrides an earlier one with the same key. */
  function ToMap<K(!new), V>(pairs: seq<(K, V)>): (m: map<K, V>)
    ensures forall k :: k in m <==> exists i :: 0 <= i < |pairs| && pairs[i].0 == k
    ensures forall i :: 0 <= i < |pairs| && (forall j :: i < j < |pairs| ==> pairs[j].0 != pairs[i].0)
                  ==> pairs[i].0 in m && m[pairs[i].0] == pairs[i].1
  {
    if |pairs| == 0 then map[]
    else
      var init := pairs[..|pairs| - 1];
      assert pairs == init + [pairs[|pairs| - 1]];
      ToMapSnoc(init, pairs[|pairs| - 1], ToMap(init));
      ToMap(init)[pairs[|pairs| - 1].0 := pairs[|pairs| - 1].1]
  }

  /** The map of a list with one more pair at the end: that pair's value overrides its key. */
  lemma {:induction false} ToMapAppend<K(!new), V>(init: seq<(K, V)>, last: (K, V))
    ensures ToMap(init + [last]) == ToMap(init)[last.0 := last.1]
  {
    var pairs := init + [last];
    assert pairs[..|pairs| - 1] == init;
  }

  /** The dict of `init + [last]` is the dict of `init` updated with `last`. */
  lemma {:induction false} ToMapSnoc<K, V>(init: seq<(K, V)>, last: (K, V), m: map<K, V>)
    requires forall k :: k in m <==> exists i :: 0 <= i < |init| && init[i].0 == k
    requires forall i :: 0 <= i < |init| && (forall j :: i < j < |init| ==> init[j].0 != init[i].0)
                  ==> init[i].0 in m && m[init[i].0] == init[i].1
    ensures var pairs := init + [last];
            var m' := m[last.0 := last.1];
            && (forall k :: k in m' <==> exists i :: 0 <= i < |pairs| && pairs[i].0 == k)
            && (forall i :: 0 <= i < |pairs| && (forall j :: i < j < |pairs| ==> pairs[j].0 != pairs[i].0)
                  ==> pairs[i].0 in m' && m'[pairs[i].0] == pairs[i].1)
  {
    var pairs := init + [last];
    var m' := m[last.0 := last.1];
    assert forall i :: 0 <= i < |init| ==> pairs[i] == init[i];
    assert pairs[|init|] == last;
    forall k ensures k in m' <==> exists i :: 0 <= i < |pairs| && pairs[i].0 == k {
      if k in m' && k != last.0 {
        var i :| 0 <= i < |init| && init[i].0 == k;
        assert pairs[i].0 == k;
      }
    }
    forall i | 0 <= i < |pairs| && (forall j :: i < j < |pairs| ==> pairs[j].0 != pairs[i].0)
      ensures pairs[i].0 in m' && m'[pairs[i].0] == pairs[i].1
    {
      if i < |init| {
        assert pairs[|init|].0 != pairs[i].0;
        assert forall j :: i < j < |init| ==> init[j].0 != init[i].0 by {
          forall j | i < j < |init| ensures init[j].0 != init[i].0 {
            assert pairs[j] == init[j];
          }
        }
      }
    }
  }

  /** Concatenation of a sequence of sequences. */
  function Flatten<T>(rows: seq<seq<T>>): (r: seq<T>)
  {
    if |rows| == 0 then [] else rows[0] + Flatten(rows[1..])
  }

  lemma {:induction false} FlattenAppend<T>(a: seq<seq<T>>, b: seq<seq<T>>)
    ensures Flatten(a + b) == Flatten(a) + Flatten(b)
  {
    if |a| > 0 {
      assert (a + b)[1..] == a[1..] + b;
      FlattenAppend(a[1..], b);
    } else {
      assert a + b == b;
    }
  }

  /** A list without repeats has as many distinct elements as entries. */
  lemma {:induction false} DistinctCard<T>(s: seq<T>)
    requires NoDuplicates(s)
    ensures |set x | x in s| == |s|
  {
    if |s| > 0 {
      assert NoDuplicates(s[1..]) by {
        forall i, j | 0 <= i < j < |s[1..]| ensures s[1..][i] != s[1..][j] {
          assert s[1..][i] == s[i + 1] && s[1..][j] == s[j + 1];
        }
      }
      DistinctCard(s[1..]);
      assert (set x | x in s) == {s[0]} + (set x | x in s[1..]);
      assert s[0] !in (set x | x in s[1..]);
    }
  }

  /** `Dedup` keeps one entry per distinct element. */
  lemma {:induction false} DedupCard<T(!new)>(s: seq<T>)
    ensures |Dedup(s)| == |set x | x in s|
  {
    var r := Dedup(s);
    DistinctCard(r);
    assert (set x | x in r) == (set x | x in s);
  }
}
