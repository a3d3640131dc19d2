/** `make_clusters` and `get_similar_images` of panoptic_back/panoptic/compute/similarity.py.
    The clustering library is a parameter: a trained faiss k-means is the function giving each vector
    its nearest centroid and the distance to it; what remains is how the labels become clusters. */
module Similarity {
  import opened Results
  import opened Seqs
  import opened Ordering

  /** A row of the computed-values table: an image's sha1, its average hash and its feature vector. */
  datatype ComputedValue = ComputedValue(sha1: string, ahash: string, vector: seq<real>)

  /** The names the `match method` statement recognises. */
  datatype Method = KMeans | Dbscan | MeanShift | Faiss | Unknown(name: string)

  function ParseMethod(name: string): (m: Method)
    ensures m == Faiss <==> name == "faiss"
    ensures m.Unknown? <==> name !in ["kmeans", "dbscan", "meanshift", "faiss"]
  {
    if name == "kmeans" then KMeans
    else if name == "dbscan" then Dbscan
    else if name == "meanshift" then MeanShift
    else if name == "faiss" then Faiss
    else Unknown(name)
  }

  /** The library side: the trained faiss k-means as a nearest-centroid function (label, distance), and
      the label the scikit-learn estimators give a vector. */
  datatype Backend = Backend(nearest: Nearest, labelOf: Labeller)

  /** The label a scikit-learn estimator gives a vector. */
  type Labeller = seq<real> -> int

  /** A vector's nearest centroid: its label and the distance to it. */
  type Nearest = seq<real> -> (int, real)

  /** What `make_clusters` returns: a pair (clusters, scores), or the bare `[[]]` of an unknown method. */
  datatype ClusterResult = Ranked(clusters: seq<seq<string>>, scores: seq<real>) | Unranked(bare: seq<seq<string>>)

  // ---------------------------------------------------------------- the faiss helper

  /** `kmean.index.search(vectors, 1)`: for each query row, a row holding its one nearest centroid. */
  function Search(vectors: seq<seq<real>>, nearest: Nearest)
    : (r: (seq<seq<real>>, seq<seq<int>>))
    ensures |r.0| == |vectors| && |r.1| == |vectors|
    ensures forall k :: 0 <= k < |vectors| ==> r.0[k] == [nearest(vectors[k]).1] && r.1[k] == [nearest(vectors[k]).0]
  {
    (seq(|vectors|, k requires 0 <= k < |vectors| => [nearest(vectors[k]).1]),
     seq(|vectors|, k requires 0 <= k < |vectors| => [nearest(vectors[k]).0]))
  }

  /** Flattening rows of width one keeps one entry per row, in row order. */
  lemma {:induction false} FlattenColumn<T>(rows: seq<seq<T>>)
    requires forall k :: 0 <= k < |rows| ==> |rows[k]| == 1
    ensures |Flatten(rows)| == |rows|
    ensures forall k :: 0 <= k < |rows| ==> Flatten(rows)[k] == rows[k][0]
  {
    if |rows| > 0 {
      FlattenColumn(rows[1..]);
      assert rows[0] == [rows[0][0]];
      assert forall k :: 1 <= k < |rows| ==> rows[k] == rows[1..][k - 1];
    }
  }

  /** `_make_clusters_faiss`: the flattened labels and distances, one of each per input vector. */
  function FaissClusters(vectors: seq<seq<real>>, nearest: Nearest): (r: (seq<int>, seq<real>))
    ensures |r.0| == |vectors| && |r.1| == |vectors|
    ensures forall k :: 0 <= k < |vectors| ==> r.0[k] == nearest(vectors[k]).0 && r.1[k] == nearest(vectors[k]).1
  {
    var found := Search(vectors, nearest);
    FlattenColumn(found.0);
    FlattenColumn(found.1);
    (Flatten(found.1), Flatten(found.0))
  }

  // ---------------------------------------------------------------- masks and means

  /** `xs[labels == l]`: the entries whose label is `l`, in input order. */
  function Select<T>(xs: seq<T>, labels: seq<int>, l: int): (r: seq<T>)
    requires |xs| == |labels|
    ensures |r| <= |xs|
  {
    if |xs| == 0 then []
    else (if labels[0] == l then [xs[0]] else []) + Select(xs[1..], labels[1..], l)
  }

  /** A label's cluster is empty exactly when no entry carries the label. */
  lemma {:induction false} SelectNonEmpty<T>(xs: seq<T>, labels: seq<int>, l: int)
    requires |xs| == |labels|
    ensures |Select(xs, labels, l)| > 0 <==> l in labels
  {
    if |xs| > 0 {
      SelectNonEmpty(xs[1..], labels[1..], l);
      assert labels == [labels[0]] + labels[1..];
    }
  }

  /** How many entries before position `p` carry label `l`: where the entry at `p` lands in its cluster. */
  function Rank(labels: seq<int>, l: int, p: nat): nat
    requires p <= |labels|
  {
    if p == 0 then 0 else (if labels[0] == l then 1 else 0) + Rank(labels[1..], l, p - 1)
  }

  /** The entry at position `p` sits in its cluster at its rank. */
  lemma {:induction false} SelectAtRank<T>(xs: seq<T>, labels: seq<int>, p: nat)
    requires |xs| == |labels| && p < |labels|
    ensures Rank(labels, labels[p], p) < |Select(xs, labels, labels[p])|
    ensures Select(xs, labels, labels[p])[Rank(labels, labels[p], p)] == xs[p]
  {
    if p > 0 {
      SelectAtRank(xs[1..], labels[1..], p - 1);
    }
  }

  /** Later entries of the same label get strictly larger ranks. */
  lemma {:induction false} RankIncreases(labels: seq<int>, l: int, p: nat, q: nat)
    requires p < q <= |labels| && labels[p] == l
    ensures Rank(labels, l, p) < Rank(labels, l, q)
  {
    if p > 0 {
      RankIncreases(labels[1..], l, p - 1, q - 1);
    } else {
      assert Rank(labels, l, q) >= 1;
    }
  }

  /** Entries with the same label keep their input order inside the cluster. */
  lemma {:induction false} ClusterKeepsInputOrder<T>(xs: seq<T>, labels: seq<int>, p: nat, q: nat)
    requires |xs| == |labels| && p < q < |labels| && labels[p] == labels[q]
    ensures var c := Select(xs, labels, labels[p]);
      exists i, j :: 0 <= i < j < |c| && c[i] == xs[p] && c[j] == xs[q]
  {
    SelectAtRank(xs, labels, p);
    SelectAtRank(xs, labels, q);
    RankIncreases(labels, labels[p], p, q);
  }

  function Sum(s: seq<real>): real
  {
    if |s| == 0 then 0.0 else s[0] + Sum(s[1..])
  }

  /** `np.mean`: the sum divided by the count (never taken of an empty list here; numpy would give NaN). */
  function Mean(s: seq<real>): (m: real)
    ensures |s| > 0 ==> m * (|s| as real) == Sum(s)
  {
    if |s| == 0 then 0.0 else Sum(s) / (|s| as real)
  }

  // ---------------------------------------------------------------- assembling clusters

  /** `res_clusters`: the members of each label of `order`, in that order. */
  function Members(sha1s: seq<string>, labels: seq<int>, order: seq<int>): (r: seq<seq<string>>)
    requires |sha1s| == |labels|
    ensures |r| == |order|
  {
    if |order| == 0 then [] else [Select(sha1s, labels, order[0])] + Members(sha1s, labels, order[1..])
  }

  lemma {:induction false} MembersAt(sha1s: seq<string>, labels: seq<int>, order: seq<int>, k: nat)
    requires |sha1s| == |labels| && k < |order|
    ensures Members(sha1s, labels, order)[k] == Select(sha1s, labels, order[k])
  {
    if k > 0 {
      MembersAt(sha1s, labels, order[1..], k - 1);
    }
  }

  /** `res_distances`: the mean distance of each label of `order`, in that order. */
  function MeanDistances(distances: seq<real>, labels: seq<int>, order: seq<int>): (r: seq<real>)
    requires |distances| == |labels|
    ensures |r| == |order|
    ensures forall k :: 0 <= k < |order| ==> r[k] == Mean(Select(distances, labels, order[k]))
  {
    if |order| == 0 then [] else [Mean(Select(distances, labels, order[0]))] + MeanDistances(distances, labels, order[1..])
  }

  /** Python's `zip`: stops at the shorter list. */
  function Zip(scores: seq<real>, clusters: seq<seq<string>>): (r: seq<Ranked>)
    ensures |r| == if |scores| <= |clusters| then |scores| else |clusters|
    ensures forall k :: 0 <= k < |r| ==> r[k] == (scores[k], clusters[k])
  {
    if |scores| == 0 || |clusters| == 0 then [] else [(scores[0], clusters[0])] + Zip(scores[1..], clusters[1..])
  }

  /** The loop over `list(set(clusters))` and the final sort. Python's set order is unspecified; the model
      takes labels in order of first occurrence, which the sort makes irrelevant. Without distances
      (`distances is None`) nothing is appended to `res_distances`, so the zip and both results are empty. */
  function Assemble(sha1s: seq<string>, labels: seq<int>, distances: Option<seq<real>>): (r: ClusterResult)
    requires |labels| == |sha1s|
    requires distances.Some? ==> |distances.value| == |sha1s|
    ensures r.Ranked? && |r.clusters| == |r.scores|
    ensures distances.None? ==> r == Ranked([], [])
  {
    var order := Dedup(labels);
    var clusters := Members(sha1s, labels, order);
    var means := if distances.Some? then MeanDistances(distances.value, labels, order) else [];
    var ranked := SortPairs(Zip(means, clusters));
    Ranked(Clusters(ranked), SortReals(means))
  }

  /** The faiss branch's clusters and scores, spelled out step by step. */
  lemma {:induction false} AssembleUnfold(sha1s: seq<string>, labels: seq<int>, distances: seq<real>)
    requires |labels| == |sha1s| && |distances| == |sha1s|
    ensures var order := Dedup(labels);
      var zipped := Zip(MeanDistances(distances, labels, order), Members(sha1s, labels, order));
      Assemble(sha1s, labels, Some(distances)) == Ranked(Clusters(SortPairs(zipped)), SortReals(MeanDistances(distances, labels, order)))
  {
  }

  /** Zipping the means with the clusters keeps the clusters... */
  lemma {:induction false} ZippedClusters(sha1s: seq<string>, labels: seq<int>, distances: seq<real>)
    requires |labels| == |sha1s| && |distances| == |sha1s|
    ensures var order := Dedup(labels);
      var zipped := Zip(MeanDistances(distances, labels, order), Members(sha1s, labels, order));
      Clusters(zipped) == Members(sha1s, labels, order)
  {
  }

  /** ...and the means. */
  lemma {:induction false} ZippedScores(sha1s: seq<string>, labels: seq<int>, distances: seq<real>)
    requires |labels| == |sha1s| && |distances| == |sha1s|
    ensures var order := Dedup(labels);
      var zipped := Zip(MeanDistances(distances, labels, order), Members(sha1s, labels, order));
      Scores(zipped) == MeanDistances(distances, labels, order)
  {
  }
  /** Members of the labels in `order` gathered from a non-empty input: the first entry shows up once
      exactly when its label is listed, and the rest is what the tail contributes. */
  lemma {:induction false} MembersPeel(sha1s: seq<string>, labels: seq<int>, order: seq<int>)
    requires |sha1s| == |labels| > 0 && NoDuplicates(order)
    ensures multiset(Flatten(Members(sha1s, labels, order)))
         == (if labels[0] in order then multiset{sha1s[0]} else multiset{})
            + multiset(Flatten(Members(sha1s[1..], labels[1..], order)))
  {
    if |order| > 0 {
      var l := order[0];
      var first := if labels[0] == l then multiset{sha1s[0]} else multiset{};
      var later := if labels[0] in order[1..] then multiset{sha1s[0]} else multiset{};
      var sel := multiset(Select(sha1s, labels, l));
      var sel' := multiset(Select(sha1s[1..], labels[1..], l));
      var rest := multiset(Flatten(Members(sha1s, labels, order[1..])));
      var rest' := multiset(Flatten(Members(sha1s[1..], labels[1..], order[1..])));
      assert multiset(Flatten(Members(sha1s, labels, order))) == sel + rest by {
        FlattenMembers(sha1s, labels, order);
      }
      assert multiset(Flatten(Members(sha1s[1..], labels[1..], order))) == sel' + rest' by {
        FlattenMembers(sha1s[1..], labels[1..], order);
      }
      assert rest == later + rest' by {
        NoDuplicatesTail(order);
        MembersPeel(sha1s, labels, order[1..]);
      }
      assert sel == first + sel' by {
        SelectPeel(sha1s, labels, l);
      }
      assert first + later == if labels[0] in order then multiset{sha1s[0]} else multiset{} by {
        HeadShare(order, labels[0], sha1s[0]);
      }
      Regroup(sel, rest, first, later, sel', rest');
    }
  }

  /** A label listed once in `order` is found either at its head or in its tail, never both. */
  lemma {:induction false} HeadShare(order: seq<int>, x: int, y: string)
    requires |order| > 0 && NoDuplicates(order)
    ensures (if x == order[0] then multiset{y} else multiset{}) + (if x in order[1..] then multiset{y} else multiset{})
         == if x in order then multiset{y} else multiset{}
  {
    NoDuplicatesTail(order);
    assert order == [order[0]] + order[1..];
  }

  lemma Regroup<T>(sel: multiset<T>, rest: multiset<T>, first: multiset<T>, later: multiset<T>,
                   sel': multiset<T>, rest': multiset<T>)
    requires sel == first + sel' && rest == later + rest'
    ensures sel + rest == (first + later) + (sel' + rest')
  {
  }

  lemma {:induction false} SelectPeel(sha1s: seq<string>, labels: seq<int>, l: int)
    requires |sha1s| == |labels| > 0
    ensures multiset(Select(sha1s, labels, l))
         == (if labels[0] == l then multiset{sha1s[0]} else multiset{}) + multiset(Select(sha1s[1..], labels[1..], l))
  {
    var head := if labels[0] == l then [sha1s[0]] else [];
    assert Select(sha1s, labels, l) == head + Select(sha1s[1..], labels[1..], l);
  }

  lemma {:induction false} FlattenMembers(sha1s: seq<string>, labels: seq<int>, order: seq<int>)
    requires |sha1s| == |labels| && |order| > 0
    ensures Flatten(Members(sha1s, labels, order))
         == Select(sha1s, labels, order[0]) + Flatten(Members(sha1s, labels, order[1..]))
  {
    FlattenCons(Select(sha1s, labels, order[0]), Members(sha1s, labels, order[1..]));
  }

  lemma {:induction false} MembersOfNothing(order: seq<int>)
    ensures Flatten(Members([], [], order)) == []
  {
    if |order| > 0 {
      MembersOfNothing(order[1..]);
      assert Members([], [], order) == [[]] + Members([], [], order[1..]);
    }
  }

  /** Every sha1 lands in exactly one cluster: gathering the members of every label, each listed once,
      gives back the input as a multiset. */
  lemma {:induction false} MembersPartition(sha1s: seq<string>, labels: seq<int>, order: seq<int>)
    requires |sha1s| == |labels| && NoDuplicates(order)
    requires forall i :: 0 <= i < |labels| ==> labels[i] in order
    ensures multiset(Flatten(Members(sha1s, labels, order))) == multiset(sha1s)
  {
    if |sha1s| == 0 {
      MembersOfNothing(order);
    } else {
      var whole := multiset(Flatten(Members(sha1s, labels, order)));
      var tail := multiset(Flatten(Members(sha1s[1..], labels[1..], order)));
      assert whole == multiset{sha1s[0]} + tail by {
        assert labels[0] in order;
        MembersPeel(sha1s, labels, order);
      }
      assert tail == multiset(sha1s[1..]) by {
        LabelsTailListed(labels, order);
        MembersPartition(sha1s[1..], labels[1..], order);
      }
      MultisetCons(sha1s);
    }
  }

  lemma {:induction false} LabelsTailListed(labels: seq<int>, order: seq<int>)
    requires |labels| > 0 && forall i :: 0 <= i < |labels| ==> labels[i] in order
    ensures forall i :: 0 <= i < |labels[1..]| ==> labels[1..][i] in order
  {
    assert forall i :: 0 <= i < |labels[1..]| ==> labels[1..][i] == labels[i + 1];
  }

  lemma {:induction false} MultisetCons<T>(s: seq<T>)
    requires |s| > 0
    ensures multiset(s) == multiset{s[0]} + multiset(s[1..])
  {
    assert s == [s[0]] + s[1..];
  }

  /** Every sha1 of the input lands in exactly one cluster. */
  lemma {:induction false} AssemblePartitions(sha1s: seq<string>, labels: seq<int>, distances: seq<real>)
    requires |labels| == |sha1s| && |distances| == |sha1s|
    ensures multiset(Flatten(Assemble(sha1s, labels, Some(distances)).clusters)) == multiset(sha1s)
  {
    var order := Dedup(labels);
    AssembleUnfold(sha1s, labels, distances);
    ZippedClusters(sha1s, labels, distances);
    MembersPartition(sha1s, labels, order);
    SortPairsMembers(Zip(MeanDistances(distances, labels, order), Members(sha1s, labels, order)));
  }

  /** One cluster per distinct label, and the scores come out in ascending order. */
  lemma {:induction false} AssembleCountsAndSorts(sha1s: seq<string>, labels: seq<int>, distances: seq<real>)
    requires |labels| == |sha1s| && |distances| == |sha1s|
    ensures |Assemble(sha1s, labels, Some(distances)).clusters| == |set l | l in labels|
    ensures SortedReals(Assemble(sha1s, labels, Some(distances)).scores)
  {
    var order := Dedup(labels);
    var means := MeanDistances(distances, labels, order);
    var zipped := Zip(means, Members(sha1s, labels, order));
    var r := Assemble(sha1s, labels, Some(distances));
    assert r.clusters == Clusters(SortPairs(zipped)) && r.scores == SortReals(means) by {
      AssembleUnfold(sha1s, labels, distances);
    }
    assert |r.clusters| == |order| by {
      assert |zipped| == |order|;
    }
    DedupCard(labels);
  }

  /** The `i`-th output cluster and the `i`-th score come from one label: the input-ordered members of
      that label and the mean of their distances. `sorted(res_distances)` stays aligned with the clusters. */
  lemma {:induction false} AssembleAligned(sha1s: seq<string>, labels: seq<int>, distances: seq<real>, i: nat) returns (l: int)
    requires |labels| == |sha1s| && |distances| == |sha1s|
    requires i < |Assemble(sha1s, labels, Some(distances)).clusters|
    ensures l in labels
    ensures Assemble(sha1s, labels, Some(distances)).clusters[i] == Select(sha1s, labels, l)
    ensures Assemble(sha1s, labels, Some(distances)).scores[i] == Mean(Select(distances, labels, l))
  {
    var order := Dedup(labels);
    var means := MeanDistances(distances, labels, order);
    var zipped := Zip(means, Members(sha1s, labels, order));
    var ranked := SortPairs(zipped);
    AssembleUnfold(sha1s, labels, distances);
    ZippedScores(sha1s, labels, distances);
    SortedScoresAligned(zipped);
    assert ranked[i] in multiset(zipped);
    var k :| 0 <= k < |zipped| && zipped[k] == ranked[i];
    MembersAt(sha1s, labels, order, k);
    l := order[k];
  }

  // ---------------------------------------------------------------- make_clusters

  /** The body of the `match method` statement and what follows it. */
  function Dispatch(m: Method, sha1s: seq<string>, vectors: seq<seq<real>>, backend: Backend): (r: ClusterResult)
    requires |sha1s| == |vectors|
    ensures m.Unknown? <==> r.Unranked?
    ensures m.Unknown? ==> r.bare == [[]]
    ensures m in {KMeans, Dbscan, MeanShift} ==> r == Ranked([], [])
  {
    match m
    case Unknown(_) => Unranked([[]])
    case Faiss =>
      var found := FaissClusters(vectors, backend.nearest);
      Assemble(sha1s, found.0, Some(found.1))
    case _ =>
      var labels := seq(|vectors|, k requires 0 <= k < |vectors| => backend.labelOf(vectors[k]));
      Assemble(sha1s, labels, None)
  }

  function Sha1s(images: seq<ComputedValue>): (r: seq<string>)
    ensures |r| == |images| && forall k :: 0 <= k < |images| ==> r[k] == images[k].sha1
  {
    seq(|images|, k requires 0 <= k < |images| => images[k].sha1)
  }

  function Vectors(images: seq<ComputedValue>): (r: seq<seq<real>>)
    ensures |r| == |images| && forall k :: 0 <= k < |images| ==> r[k] == images[k].vector
  {
    seq(|images|, k requires 0 <= k < |images| => images[k].vector)
  }

  /** `make_clusters(images, method=...)`. The unpacking `zip(*[...])` fails on an empty list; the requested
      method is then overwritten with "faiss" before the dispatch. */
  function MakeClusters(images: seq<ComputedValue>, requested: string, backend: Backend): (r: Result<ClusterResult>)
    ensures r.Err? <==> |images| == 0
    ensures r.Err? ==> r.error == EmptyInput
    ensures r.Ok? ==> r.value.Ranked? && |r.value.clusters| == |r.value.scores|
  {
    if |images| == 0 then Err(EmptyInput)
    else
      Ok(Dispatch(ParseMethod("faiss"), Sha1s(images), Vectors(images), backend))
  }

  /** Whatever method is asked for, `make_clusters` runs the faiss branch. */
  lemma {:induction false} MakeClustersIgnoresMethod(images: seq<ComputedValue>, requested: string, backend: Backend)
    requires |images| > 0
    ensures MakeClusters(images, requested, backend)
         == Ok(Assemble(Sha1s(images), FaissClusters(Vectors(images), backend.nearest).0,
                        Some(FaissClusters(Vectors(images), backend.nearest).1)))
  {
    assert ParseMethod("faiss") == Faiss;
  }

  /** Every image's sha1 lands in exactly one cluster, there is one cluster per distinct nearest centroid,
      and the scores come out in ascending order. */
  lemma {:induction false} MakeClustersPartitions(images: seq<ComputedValue>, requested: string, backend: Backend)
    requires |images| > 0
    ensures var r := MakeClusters(images, requested, backend);
      && r.Ok? && r.value.Ranked?
      && multiset(Flatten(r.value.clusters)) == multiset(Sha1s(images))
      && |r.value.clusters| == |set l | l in FaissClusters(Vectors(images), backend.nearest).0|
      && SortedReals(r.value.scores)
  {
    var found := FaissClusters(Vectors(images), backend.nearest);
    MakeClustersIgnoresMethod(images, requested, backend);
    AssemblePartitions(Sha1s(images), found.0, found.1);
    AssembleCountsAndSorts(Sha1s(images), found.0, found.1);
  }

  /** The `i`-th cluster holds, in input order, the images whose nearest centroid is one label `l`, and the
      `i`-th score is the mean of their distances to it. */
  lemma {:induction false} MakeClustersAligned(images: seq<ComputedValue>, requested: string, backend: Backend, i: nat) returns (l: int)
    requires |images| > 0
    requires i < |MakeClusters(images, requested, backend).value.clusters|
    ensures var r := MakeClusters(images, requested, backend).value;
      var found := FaissClusters(Vectors(images), backend.nearest);
      && l in found.0
      && r.clusters[i] == Select(Sha1s(images), found.0, l)
      && r.scores[i] == Mean(Select(found.1, found.0, l))
  {
    var found := FaissClusters(Vectors(images), backend.nearest);
    MakeClustersIgnoresMethod(images, requested, backend);
    l := AssembleAligned(Sha1s(images), found.0, found.1, i);
  }

  // ---------------------------------------------------------------- get_similar_images

  /** `get_similar_images(vectors)`: refuses to answer before a tree is built; otherwise the tree answers the
      query for the mean of the vectors (both the mean and the k-NN query are the library's, `query` here). */
  function GetSimilarImages<Tree, R>(tree: Option<Tree>, vectors: seq<seq<real>>, query: (Tree, seq<seq<real>>) -> R)
    : (r: Result<R>)
    ensures r.Err? <==> tree.None?
    ensures r.Err? ==> r.error == TreeNotBuilt
    ensures r.Ok? ==> r.value == query(tree.value, vectors)
  {
    match tree
    case None => Err(TreeNotBuilt)
    case Some(t) => Ok(query(t, vectors))
  }
}
