/** Python's comparison of the values `make_clusters` sorts: reals, strings (code point by code point)
    and lists of strings (element by element, a proper prefix first), and `sorted` on them.
    Python's `sorted` is a stable sort on `<`; on a total order any two sorted permutations of the same
    list agree up to equal elements, so an insertion sort yields exactly what `sorted` returns. */
module Ordering {
  import opened Seqs

  // ---------------------------------------------------------------- strings and lists of strings

  /** `a <= b` on Python strings. */
  predicate StrLe(a: string, b: string)
  {
    |a| == 0 || (|b| > 0 && (a[0] < b[0] || (a[0] == b[0] && StrLe(a[1..], b[1..]))))
  }

  /** `a < b` on Python strings. */
  predicate StrLt(a: string, b: string)
  {
    StrLe(a, b) && a != b
  }

  lemma {:induction false} StrLeTotal(a: string, b: string)
    ensures StrLe(a, b) || StrLe(b, a)
  {
    if |a| > 0 && |b| > 0 && a[0] == b[0] {
      StrLeTotal(a[1..], b[1..]);
    }
  }

  /** `a <= b` on Python lists of strings. */
  predicate ListLe(a: seq<string>, b: seq<string>)
  {
    |a| == 0 || (|b| > 0 && (StrLt(a[0], b[0]) || (a[0] == b[0] && ListLe(a[1..], b[1..]))))
  }

  lemma {:induction false} ListLeTotal(a: seq<string>, b: seq<string>)
    ensures ListLe(a, b) || ListLe(b, a)
  {
    if |a| > 0 && |b| > 0 {
      if a[0] == b[0] {
        ListLeTotal(a[1..], b[1..]);
      } else {
        StrLeTotal(a[0], b[0]);
      }
    }
  }

  // ---------------------------------------------------------------- (score, cluster) pairs

  /** One entry of `zip(res_distances, res_clusters)`. */
  type Ranked = (real, seq<string>)

  /** Tuple comparison: by score, ties broken by comparing the clusters. */
  predicate PairLe(p: Ranked, q: Ranked)
  {
    p.0 < q.0 || (p.0 == q.0 && ListLe(p.1, q.1))
  }

  lemma {:induction false} PairLeTotal(p: Ranked, q: Ranked)
    ensures PairLe(p, q) || PairLe(q, p)
  {
    ListLeTotal(p.1, q.1);
  }

  predicate SortedPairs(s: seq<Ranked>)
  {
    forall i :: 0 < i < |s| ==> PairLe(s[i - 1], s[i])
  }

  predicate SortedReals(s: seq<real>)
  {
    forall i :: 0 < i < |s| ==> s[i - 1] <= s[i]
  }

  /** Inserts `p` before the first entry it does not exceed. */
  function InsertPair(p: Ranked, s: seq<Ranked>): (r: seq<Ranked>)
    requires SortedPairs(s)
    ensures SortedPairs(r)
    ensures multiset(r) == multiset(s) + multiset{p}
    ensures |r| == |s| + 1 && (r[0] == p || (|s| > 0 && r[0] == s[0]))
  {
    if |s| == 0 then [p]
    else if PairLe(p, s[0]) then [p] + s
    else
      PairLeTotal(p, s[0]);
      var rest := InsertPair(p, s[1..]);
      assert s == [s[0]] + s[1..];
      [s[0]] + rest
  }

  /** `sorted(pairs)`. */
  function SortPairs(s: seq<Ranked>): (r: seq<Ranked>)
    ensures SortedPairs(r)
    ensures multiset(r) == multiset(s)
    ensures |r| == |s|
  {
    if |s| == 0 then []
    else
      assert s == [s[0]] + s[1..];
      InsertPair(s[0], SortPairs(s[1..]))
  }

  function InsertReal(x: real, s: seq<real>): (r: seq<real>)
    requires SortedReals(s)
    ensures SortedReals(r)
    ensures multiset(r) == multiset(s) + multiset{x}
    ensures |r| == |s| + 1 && (r[0] == x || (|s| > 0 && r[0] == s[0]))
  {
    if |s| == 0 then [x]
    else if x <= s[0] then [x] + s
    else
      var rest := InsertReal(x, s[1..]);
      assert s == [s[0]] + s[1..];
      [s[0]] + rest
  }

  /** `sorted(res_distances)`. */
  function SortReals(s: seq<real>): (r: seq<real>)
    ensures SortedReals(r)
    ensures multiset(r) == multiset(s)
    ensures |r| == |s|
  {
    if |s| == 0 then []
    else
      assert s == [s[0]] + s[1..];
      InsertReal(s[0], SortReals(s[1..]))
  }

  /** The scores of a list of pairs. */
  function Scores(s: seq<Ranked>): (r: seq<real>)
    ensures |r| == |s| && forall i :: 0 <= i < |s| ==> r[i] == s[i].0
  {
    if |s| == 0 then [] else [s[0].0] + Scores(s[1..])
  }

  /** The clusters of a list of pairs. */
  function Clusters(s: seq<Ranked>): (r: seq<seq<string>>)
    ensures |r| == |s| && forall i :: 0 <= i < |s| ==> r[i] == s[i].1
  {
    if |s| == 0 then [] else [s[0].1] + Clusters(s[1..])
  }

  lemma {:induction false} SortedPairsScores(s: seq<Ranked>)
    requires SortedPairs(s)
    ensures SortedReals(Scores(s))
  {
  }

  /** Inserting a pair and then projecting to scores is inserting its score into the projected scores. */
  lemma {:induction false} InsertPairScores(p: Ranked, s: seq<Ranked>)
    requires SortedPairs(s)
    ensures SortedReals(Scores(s))
    ensures Scores(InsertPair(p, s)) == InsertReal(p.0, Scores(s))
  {
    SortedPairsScores(s);
    if |s| > 0 && !PairLe(p, s[0]) {
      var tail := Scores(s[1..]);
      assert Scores(s) == [s[0].0] + tail by {
        assert s == [s[0]] + s[1..];
        ScoresCons(s[0], s[1..]);
      }
      assert Scores(InsertPair(p, s)) == [s[0].0] + Scores(InsertPair(p, s[1..])) by {
        ScoresCons(s[0], InsertPair(p, s[1..]));
      }
      assert Scores(InsertPair(p, s[1..])) == InsertReal(p.0, tail) by {
        InsertPairScores(p, s[1..]);
      }
      if p.0 == s[0].0 {
        assert InsertReal(p.0, tail) == [p.0] + tail by {
          if |s| > 1 {
            assert p.0 <= tail[0];
          }
        }
        assert InsertReal(p.0, Scores(s)) == [p.0] + Scores(s);
      } else {
        assert Scores(s)[1..] == tail;
        assert InsertReal(p.0, Scores(s)) == [s[0].0] + InsertReal(p.0, tail);
      }
    } else if |s| > 0 {
      ScoresCons(p, s);
    }
  }

  lemma {:induction false} ScoresCons(a: Ranked, s: seq<Ranked>)
    ensures Scores([a] + s) == [a.0] + Scores(s)
  {
  }

  /** The scores of the sorted pairs are the sorted scores: `sorted(res_distances)` is aligned with the
      clusters `sorted(zip(res_distances, res_clusters))` puts in order. */
  lemma {:induction false} SortedScoresAligned(s: seq<Ranked>)
    ensures Scores(SortPairs(s)) == SortReals(Scores(s))
  {
    if |s| > 0 {
      SortedScoresAligned(s[1..]);
      InsertPairScores(s[0], SortPairs(s[1..]));
      assert Scores(s) == [s[0].0] + Scores(s[1..]);
    }
  }

  /** Sorting moves clusters around but keeps every member: the flattened clusters are the same multiset. */
  lemma {:induction false} InsertPairMembers(p: Ranked, s: seq<Ranked>)
    requires SortedPairs(s)
    ensures multiset(Flatten(Clusters(InsertPair(p, s)))) == multiset(p.1) + multiset(Flatten(Clusters(s)))
  {
    if |s| > 0 && !PairLe(p, s[0]) {
      PairLeTotal(p, s[0]);
      InsertPairMembers(p, s[1..]);
      assert Clusters(InsertPair(p, s)) == [s[0].1] + Clusters(InsertPair(p, s[1..]));
      assert Clusters(s) == [s[0].1] + Clusters(s[1..]);
    } else if |s| > 0 {
      assert Clusters([p] + s) == [p.1] + Clusters(s);
    }
  }

  lemma {:induction false} SortPairsMembers(s: seq<Ranked>)
    ensures multiset(Flatten(Clusters(SortPairs(s)))) == multiset(Flatten(Clusters(s)))
  {
    if |s| > 0 {
      SortPairsMembers(s[1..]);
      InsertPairMembers(s[0], SortPairs(s[1..]));
      assert Clusters(s) == [s[0].1] + Clusters(s[1..]);
    }
  }
}
