/** The dataset object: the corpus maxima from the parser and the aligner's
    output, computed once when the dataset is built and never changed after.
    Its guarantee is that padding any of its examples with its own maxima
    gives the same fixed cluster shape. */
module Dataset {
  import opened Lists
  import opened CorefTypes
  import opened CorpusParser
  import opened Aligner
  import opened Padding

  datatype CorefDataset = CorefDataset(
    maxMentionNum: int,
    maxClusterSize: int,
    maxNumClusters: int,
    maxSeqLength: int,
    examples: seq<TokenizedExample>,
    lengths: seq<int>,
    numExamplesFiltered: nat)

  /** The survivor behind tokenized example `j`: some parsed record `i`
      whose clusters the example holds remapped, shape for shape. */
  lemma SurvivorOrigin(records: seq<Record>, tokenize: string -> seq<string>, maxSeqLength: int, j: int)
      returns (i: int)
    requires TokenizeSpec(tokenize, maxSeqLength, ParsedExamples(records)).Success?
    requires 0 <= j < |TokenizeSpec(tokenize, maxSeqLength, ParsedExamples(records)).value.examples|
    ensures 0 <= i < |records|
    ensures var c := TokenizeSpec(tokenize, maxSeqLength, ParsedExamples(records)).value.examples[j].clusters;
      && |c| == |records[i].clusters|
      && forall a :: 0 <= a < |c| ==> |c[a]| == |records[i].clusters[a]|
  {
    var exs := ParsedExamples(records);
    var out := TokenizeSpec(tokenize, maxSeqLength, exs).value;
    TokenizeSpecSurvivors(tokenize, maxSeqLength, exs);
    KeptMembers(tokenize, maxSeqLength, exs);
    var x := Kept(tokenize, maxSeqLength, exs)[j];
    assert x in exs;
    i :| 0 <= i < |exs| && exs[i] == x;
    RemapDocument(tokenize, x.words, x.clusters);
  }

  /** Exact padded shape: with maxima taken from the same corpus, padding
      any tokenized example yields exactly `max_num_clusters` clusters of
      exactly `max_cluster_size` mentions. */
  lemma PaddedShapeExact(records: seq<Record>, tokenize: string -> seq<string>, maxSeqLength: int, nullId: int, j: int)
    requires TokenizeSpec(tokenize, maxSeqLength, ParsedExamples(records)).Success?
    requires 0 <= j < |TokenizeSpec(tokenize, maxSeqLength, ParsedExamples(records)).value.examples|
    ensures UniformShape(
      PadClusters(TokenizeSpec(tokenize, maxSeqLength, ParsedExamples(records)).value.examples[j].clusters,
                  CorpusMax(records, ClusterCount), CorpusMax(records, ClusterSize), nullId),
      CorpusMax(records, ClusterCount), CorpusMax(records, ClusterSize))
  {
    var i := SurvivorOrigin(records, tokenize, maxSeqLength, j);
    CorpusMaxIsMaximum(records, ClusterCount);
    CorpusMaxIsMaximum(records, ClusterSize);
    assert NumClusters(records[i].clusters) <= CorpusMax(records, ClusterCount);
    assert LargestCluster(records[i].clusters) <= CorpusMax(records, ClusterSize);
  }

  /** Null sentinel isolation: with a `NULL_ID_FOR_COREF` of 0 or less, a
      slot of a padded example holds `(NULL, NULL)` exactly when it is a
      padding slot, since every remapped mention starts at position 1 or
      later. (A positive sentinel can collide: a mention's end can be any
      position, and its start any position from 1.) */
  lemma NullSentinelIsolated(records: seq<Record>, tokenize: string -> seq<string>, maxSeqLength: int, nullId: int, j: int)
    requires TokenizeSpec(tokenize, maxSeqLength, ParsedExamples(records)).Success?
    requires 0 <= j < |TokenizeSpec(tokenize, maxSeqLength, ParsedExamples(records)).value.examples|
    requires nullId <= 0
    ensures var c := TokenizeSpec(tokenize, maxSeqLength, ParsedExamples(records)).value.examples[j].clusters;
      var p := PadClusters(c, CorpusMax(records, ClusterCount), CorpusMax(records, ClusterSize), nullId);
      forall a, b :: 0 <= a < |p| && 0 <= b < |p[a]| ==>
        (p[a][b] == (nullId, nullId) <==> !(a < |c| && b < |c[a]|))
  {
    var exs := ParsedExamples(records);
    var out := TokenizeSpec(tokenize, maxSeqLength, exs).value;
    TokenizeSpecSurvivors(tokenize, maxSeqLength, exs);
    var x := Kept(tokenize, maxSeqLength, exs)[j];
    var c := out.examples[j].clusters;
    RemapDocument(tokenize, x.words, x.clusters);
    var p := PadClusters(c, CorpusMax(records, ClusterCount), CorpusMax(records, ClusterSize), nullId);
    forall a, b | 0 <= a < |p| && 0 <= b < |p[a]| && a < |c| && b < |c[a]|
      ensures p[a][b] != (nullId, nullId)
    {
      assert p[a][..|c[a]|] == c[a];
      assert p[a][b] == c[a][b];
      assert c[a][b].0 == StartIndex(tokenize, x.words, x.clusters[a][b].0);
    }
  }

  /** The dataset constructor on records already decoded from JSON: parse,
      then tokenize; a `KeyError` from the aligner makes construction fail. */
  method NewCorefDataset(records: seq<Record>, tokenize: string -> seq<string>, maxSeqLength: int)
    returns (r: Result<CorefDataset, KeyError>)
    ensures var t := TokenizeSpec(tokenize, maxSeqLength, ParsedExamples(records));
      && (r.Success? <==> t.Success?)
      && (r.Failure? ==> r.error == t.error)
      && (r.Success? ==> r.value == CorefDataset(
            CorpusMax(records, Mentions), CorpusMax(records, ClusterSize), CorpusMax(records, ClusterCount),
            maxSeqLength, t.value.examples, t.value.lengths, t.value.numFiltered))
    ensures r.Success? ==>
      && |r.value.lengths| == |r.value.examples|
      && forall j :: 0 <= j < |r.value.examples| ==> r.value.lengths[j] == |r.value.examples[j].tokenIds|
    ensures r.Success? ==> forall j, nullId :: 0 <= j < |r.value.examples| ==>
      UniformShape(PadClusters(r.value.examples[j].clusters, r.value.maxNumClusters, r.value.maxClusterSize, nullId),
                   r.value.maxNumClusters, r.value.maxClusterSize)
  {
    var examples, maxMentionNum, maxClusterSize, maxNumClusters := ParseJsonlines(records);
    var t := TokenizeExamples(examples, tokenize, maxSeqLength);
    match t
    case Failure(err) =>
      r := Failure(err);
    case Success(out) =>
      r := Success(CorefDataset(maxMentionNum, maxClusterSize, maxNumClusters, maxSeqLength,
                                out.examples, out.lengths, out.numFiltered));
      TokenizeSpecSurvivors(tokenize, maxSeqLength, examples);
      forall j, nullId | 0 <= j < |out.examples|
        ensures UniformShape(PadClusters(out.examples[j].clusters, maxNumClusters, maxClusterSize, nullId),
                             maxNumClusters, maxClusterSize)
      {
        PaddedShapeExact(records, tokenize, maxSeqLength, nullId, j);
      }
  }
}
