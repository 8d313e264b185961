/** The corpus parser: flattens each record's sentences into one word list
    and keeps three running maxima over the corpus, the padding targets used
    later for every batch. */
module CorpusParser {
  import opened Lists
  import opened CorefTypes

  /** Number of mentions in a document: the length of its flattened clusters. */
  function MentionNum(clusters: ClusterList): nat
  {
    |Flatten(clusters)|
  }

  /** Size of a document's largest cluster, 0 when it has no clusters. */
  function LargestCluster(clusters: ClusterList): (r: nat)
    ensures forall j :: 0 <= j < |clusters| ==> |clusters[j]| <= r
    ensures clusters == [] ==> r == 0
    ensures clusters != [] ==> exists j :: 0 <= j < |clusters| && |clusters[j]| == r
  {
    if clusters == [] then 0
    else Max(LargestCluster(clusters[..|clusters| - 1]), |clusters[|clusters| - 1]|)
  }

  /** Number of clusters of a document, written as the source writes it
      (`len(clusters) if clusters else 0`). */
  function NumClusters(clusters: ClusterList): nat
  {
    if clusters == [] then 0 else |clusters|
  }

  /** The three per-document quantities the parser maximizes. */
  datatype Measure = Mentions | ClusterSize | ClusterCount

  function Measured(measure: Measure, clusters: ClusterList): nat
  {
    match measure
    case Mentions => MentionNum(clusters)
    case ClusterSize => LargestCluster(clusters)
    case ClusterCount => NumClusters(clusters)
  }

  /** The running maximum of `measure` over the records' clusters, started
      at -1 so that an empty corpus can be told apart. */
  function CorpusMax(records: seq<Record>, measure: Measure): int
  {
    if records == [] then -1
    else Max(CorpusMax(records[..|records| - 1], measure), Measured(measure, records[|records| - 1].clusters))
  }

  /** The running maximum is -1 exactly on an empty corpus; otherwise it
      bounds every document's measure and is attained by one of them. */
  lemma {:induction false} CorpusMaxIsMaximum(records: seq<Record>, measure: Measure)
    ensures records == [] <==> CorpusMax(records, measure) == -1
    ensures forall k :: 0 <= k < |records| ==> Measured(measure, records[k].clusters) <= CorpusMax(records, measure)
    ensures records != [] ==>
      exists k :: 0 <= k < |records| && Measured(measure, records[k].clusters) == CorpusMax(records, measure)
  {
    if records != [] {
      var n := |records|;
      var prefix := records[..n - 1];
      CorpusMaxIsMaximum(prefix, measure);
      assert forall k :: 0 <= k < n - 1 ==> prefix[k] == records[k];
      if prefix != [] && CorpusMax(prefix, measure) >= Measured(measure, records[n - 1].clusters) {
        var k :| 0 <= k < n - 1 && Measured(measure, prefix[k].clusters) == CorpusMax(prefix, measure);
        assert Measured(measure, records[k].clusters) == CorpusMax(records, measure);
      } else {
        assert Measured(measure, records[n - 1].clusters) == CorpusMax(records, measure);
      }
    }
  }

  /** One more record moves the running maximum to the larger of the two. */
  lemma CorpusMaxStep(records: seq<Record>, i: int, measure: Measure)
    requires 0 <= i < |records|
    ensures CorpusMax(records[..i + 1], measure) == Max(CorpusMax(records[..i], measure), Measured(measure, records[i].clusters))
  {
    assert records[..i + 1][..i] == records[..i];
  }

  /** The example the parser emits for one record. */
  function ToExample(d: Record): Example
  {
    Example(d.docKey, Flatten(d.sentences), d.clusters)
  }

  /** The examples the parser emits for a corpus, one per record. */
  function ParsedExamples(records: seq<Record>): seq<Example>
  {
    seq(|records|, i requires 0 <= i < |records| => ToExample(records[i]))
  }

  lemma ParsedExamplesStep(records: seq<Record>, i: int)
    requires 0 <= i < |records|
    ensures ParsedExamples(records[..i + 1]) == ParsedExamples(records[..i]) + [ToExample(records[i])]
  {
    var a, b := ParsedExamples(records[..i + 1]), ParsedExamples(records[..i]) + [ToExample(records[i])];
    assert |a| == |b|;
    forall k | 0 <= k < |a| ensures a[k] == b[k] {
      if k < i {
        assert records[..i + 1][k] == records[..i][k];
      }
    }
  }

  /** The record loop of the parser, on records already decoded from JSON. */
  method ParseJsonlines(records: seq<Record>)
    returns (examples: seq<Example>, maxMentionNum: int, maxClusterSize: int, maxNumClusters: int)
    ensures |examples| == |records|
    ensures forall i :: 0 <= i < |records| ==>
      && examples[i].docKey == records[i].docKey
      && examples[i].words == Flatten(records[i].sentences)
      && examples[i].clusters == records[i].clusters
    ensures examples == ParsedExamples(records)
    ensures maxMentionNum == CorpusMax(records, Mentions)
    ensures maxClusterSize == CorpusMax(records, ClusterSize)
    ensures maxNumClusters == CorpusMax(records, ClusterCount)
  {
    examples := [];
    maxMentionNum, maxClusterSize, maxNumClusters := -1, -1, -1;
    var i := 0;
    while i < |records|
      invariant 0 <= i <= |records|
      invariant examples == ParsedExamples(records[..i])
      invariant maxMentionNum == CorpusMax(records[..i], Mentions)
      invariant maxClusterSize == CorpusMax(records[..i], ClusterSize)
      invariant maxNumClusters == CorpusMax(records[..i], ClusterCount)
    {
      var d := records[i];
      CorpusMaxStep(records, i, Mentions);
      CorpusMaxStep(records, i, ClusterSize);
      CorpusMaxStep(records, i, ClusterCount);
      maxMentionNum := Max(maxMentionNum, MentionNum(d.clusters));
      maxClusterSize := Max(maxClusterSize, LargestCluster(d.clusters));
      maxNumClusters := Max(maxNumClusters, NumClusters(d.clusters));
      ParsedExamplesStep(records, i);
      examples := examples + [ToExample(d)];
      i := i + 1;
    }
    assert records[..i] == records;
  }
}
