/** Cluster padding: brings a document's clusters to the corpus-wide shape
    (`max_num_clusters` clusters of `max_cluster_size` mentions each) by
    appending empty clusters and `(NULL, NULL)` mentions. The corpus maxima
    and `NULL_ID_FOR_COREF` are parameters here. */
module Padding {
  import opened Lists
  import opened CorefTypes

  /** `pad_clusters_inside`: each cluster keeps its mentions and is extended
      with `(NULL, NULL)` up to `maxClusterSize` mentions; a cluster already
      that large is left as it is. */
  function PadClustersInside(clusters: ClusterList, maxClusterSize: int, nullId: int): (r: ClusterList)
    ensures |r| == |clusters|
    ensures forall j :: 0 <= j < |r| ==>
      && |r[j]| == Max(|clusters[j]|, maxClusterSize)
      && r[j][..|clusters[j]|] == clusters[j]
      && forall k :: |clusters[j]| <= k < |r[j]| ==> r[j][k] == (nullId, nullId)
  {
    seq(|clusters|, j requires 0 <= j < |clusters| =>
      clusters[j] + Replicate((nullId, nullId), maxClusterSize - |clusters[j]|))
  }

  /** `pad_clusters_outside`: the clusters are kept and empty clusters are
      appended up to `maxNumClusters`; nothing is ever removed. */
  function PadClustersOutside(clusters: ClusterList, maxNumClusters: int): (r: ClusterList)
    ensures |r| == Max(|clusters|, maxNumClusters)
    ensures r[..|clusters|] == clusters
    ensures forall j :: |clusters| <= j < |r| ==> r[j] == []
  {
    clusters + Replicate([], maxNumClusters - |clusters|)
  }

  /** The corpus-wide cluster shape: `rows` clusters of `cols` mentions. */
  predicate UniformShape(clusters: ClusterList, rows: int, cols: int)
  {
    |clusters| == rows && forall j :: 0 <= j < |clusters| ==> |clusters[j]| == cols
  }

  /** `pad_clusters`: outside padding first, then inside padding, so that
      the appended empty clusters are filled with `(NULL, NULL)` as well.
      Cluster `j` of the result is the original cluster `j` (or an empty one)
      followed by nulls; and when the maxima bound the clusters the result
      has exactly the shape (`maxNumClusters`, `maxClusterSize`). */
  function PadClusters(clusters: ClusterList, maxNumClusters: int, maxClusterSize: int, nullId: int): (r: ClusterList)
    ensures |r| == Max(|clusters|, maxNumClusters)
    ensures forall j :: 0 <= j < |r| ==>
      var c := if j < |clusters| then clusters[j] else [];
      && |r[j]| == Max(|c|, maxClusterSize)
      && r[j][..|c|] == c
      && forall k :: |c| <= k < |r[j]| ==> r[j][k] == (nullId, nullId)
    ensures (&& |clusters| <= maxNumClusters
             && 0 <= maxClusterSize
             && forall j :: 0 <= j < |clusters| ==> |clusters[j]| <= maxClusterSize)
      ==> UniformShape(r, maxNumClusters, maxClusterSize)
  {
    var outside := PadClustersOutside(clusters, maxNumClusters);
    assert forall j :: 0 <= j < |clusters| ==> outside[j] == clusters[j];
    PadClustersInside(outside, maxClusterSize, nullId)
  }

  /** With maxima (2 clusters, 3 mentions), one cluster of two mentions
      gains a null mention and is followed by a cluster of three nulls. */
  lemma PaddingExample(a: int, b: int, c: int, d: int, nullId: int)
    ensures PadClusters([[(a, b), (c, d)]], 2, 3, nullId)
      == [[(a, b), (c, d), (nullId, nullId)], [(nullId, nullId), (nullId, nullId), (nullId, nullId)]]
  {
    var r := PadClusters([[(a, b), (c, d)]], 2, 3, nullId);
    var n := (nullId, nullId);
    assert |r| == 2 && |r[0]| == 3 && |r[1]| == 3;
    assert r[0][..2] == [(a, b), (c, d)];
    assert r[0] == [(a, b), (c, d), n];
    assert r[1] == [n, n, n];
  }
}
