/** The aligner: tokenizes every word of a document on its own, records the
    subtoken span of each word, maps every subtoken back to its word, drops
    documents that are too long and re-expresses the surviving documents'
    clusters in subtoken positions. Positions count the start token `<s>`
    that encoding prepends later, so the first subtoken sits at position 1. */
module Aligner {
  import opened Lists
  import opened CorefTypes

  /** The subtokens of `words`, each word tokenized on its own, in order. */
  function Subtokens(tokenize: string -> seq<string>, words: seq<string>): seq<string>
  {
    if words == [] then []
    else Subtokens(tokenize, words[..|words| - 1]) + tokenize(words[|words| - 1])
  }

  /** Number of subtokens of the words before word `i`. */
  function Offset(tokenize: string -> seq<string>, words: seq<string>, i: int): nat
    requires 0 <= i <= |words|
  {
    |Subtokens(tokenize, words[..i])|
  }

  /** Position of word `i`'s first subtoken. */
  function StartIndex(tokenize: string -> seq<string>, words: seq<string>, i: int): int
    requires 0 <= i < |words|
  {
    Offset(tokenize, words, i) + 1
  }

  /** Position of word `i`'s last subtoken; one less than its StartIndex
      when the word has no subtokens. */
  function EndIndex(tokenize: string -> seq<string>, words: seq<string>, i: int): int
    requires 0 <= i < |words|
  {
    Offset(tokenize, words, i + 1)
  }

  /** `word_idx_to_start_token_idx` once every word is tokenized. */
  function StartMap(tokenize: string -> seq<string>, words: seq<string>): map<int, int>
  {
    map i | 0 <= i < |words| :: StartIndex(tokenize, words, i)
  }

  /** `word_idx_to_end_token_idx` once every word is tokenized. */
  function EndMap(tokenize: string -> seq<string>, words: seq<string>): map<int, int>
  {
    map i | 0 <= i < |words| :: EndIndex(tokenize, words, i)
  }

  /** The two dictionaries after the first `n` words. */
  function StartsUpTo(tokenize: string -> seq<string>, words: seq<string>, n: int): map<int, int>
    requires 0 <= n <= |words|
  {
    map i | 0 <= i < n :: StartIndex(tokenize, words, i)
  }

  function EndsUpTo(tokenize: string -> seq<string>, words: seq<string>, n: int): map<int, int>
    requires 0 <= n <= |words|
  {
    map i | 0 <= i < n :: EndIndex(tokenize, words, i)
  }

  lemma UpToStep(tokenize: string -> seq<string>, words: seq<string>, n: int)
    requires 0 <= n < |words|
    ensures StartsUpTo(tokenize, words, n + 1) == StartsUpTo(tokenize, words, n)[n := StartIndex(tokenize, words, n)]
    ensures EndsUpTo(tokenize, words, n + 1) == EndsUpTo(tokenize, words, n)[n := EndIndex(tokenize, words, n)]
  {
  }

  lemma UpToAll(tokenize: string -> seq<string>, words: seq<string>)
    ensures StartsUpTo(tokenize, words, |words|) == StartMap(tokenize, words)
    ensures EndsUpTo(tokenize, words, |words|) == EndMap(tokenize, words)
  {
  }

  /** The word index of every subtoken, in order. */
  function Owners(tokenize: string -> seq<string>, words: seq<string>): seq<int>
  {
    if words == [] then []
    else Owners(tokenize, words[..|words| - 1]) + Replicate(|words| - 1, |tokenize(words[|words| - 1])|)
  }

  /** `end_token_idx_to_word_idx`: the placeholder 0 for `<s>`, then the
      word index of every subtoken. */
  function EndTokenToWord(tokenize: string -> seq<string>, words: seq<string>): seq<int>
  {
    [0] + Owners(tokenize, words)
  }

  lemma SubtokensStep(tokenize: string -> seq<string>, words: seq<string>, i: int)
    requires 0 <= i < |words|
    ensures Subtokens(tokenize, words[..i + 1]) == Subtokens(tokenize, words[..i]) + tokenize(words[i])
  {
    assert words[..i + 1][..i] == words[..i];
  }

  lemma OwnersStep(tokenize: string -> seq<string>, words: seq<string>, i: int)
    requires 0 <= i < |words|
    ensures Owners(tokenize, words[..i + 1]) == Owners(tokenize, words[..i]) + Replicate(i, |tokenize(words[i])|)
  {
    assert words[..i + 1][..i] == words[..i];
  }

  /** The subtokens of a prefix of the words are a prefix of the subtokens. */
  lemma {:induction false} SubtokensPrefix(tokenize: string -> seq<string>, words: seq<string>, i: int)
    requires 0 <= i <= |words|
    ensures Subtokens(tokenize, words[..i]) <= Subtokens(tokenize, words)
  {
    var n := |words|;
    if i < n {
      assert words[..n - 1][..i] == words[..i];
      SubtokensPrefix(tokenize, words[..n - 1], i);
    } else {
      assert words[..i] == words;
    }
  }

  lemma OffsetMonotone(tokenize: string -> seq<string>, words: seq<string>, i: int, j: int)
    requires 0 <= i <= j <= |words|
    ensures Offset(tokenize, words, i) <= Offset(tokenize, words, j)
  {
    assert words[..j][..i] == words[..i];
    SubtokensPrefix(tokenize, words[..j], i);
  }

  lemma OffsetAll(tokenize: string -> seq<string>, words: seq<string>)
    ensures Offset(tokenize, words, |words|) == |Subtokens(tokenize, words)|
  {
    assert words[..|words|] == words;
  }

  /** Word spans: the inclusive span [StartIndex(i), EndIndex(i)] holds
      exactly word `i`'s subtokens, one position to the right because of
      `<s>`; a word with no subtokens ends one before it starts, and a word
      with subtokens lies within [1, number of subtokens]. */
  lemma WordSpan(tokenize: string -> seq<string>, words: seq<string>, i: int)
    requires 0 <= i < |words|
    ensures StartIndex(tokenize, words, i) == Offset(tokenize, words, i) + 1
    ensures EndIndex(tokenize, words, i) == Offset(tokenize, words, i) + |tokenize(words[i])|
    ensures 1 <= StartIndex(tokenize, words, i) && EndIndex(tokenize, words, i) <= |Subtokens(tokenize, words)|
    ensures Subtokens(tokenize, words)[StartIndex(tokenize, words, i) - 1 .. EndIndex(tokenize, words, i)]
      == tokenize(words[i])
  {
    SubtokensStep(tokenize, words, i);
    SubtokensPrefix(tokenize, words, i + 1);
  }

  /** When every word is a single subtoken, word `i` sits at position `i + 1`. */
  lemma {:induction false} OneSubtokenEach(tokenize: string -> seq<string>, words: seq<string>, i: int)
    requires forall j :: 0 <= j < |words| ==> |tokenize(words[j])| == 1
    requires 0 <= i <= |words|
    ensures Offset(tokenize, words, i) == i
  {
    if i > 0 {
      OneSubtokenEach(tokenize, words, i - 1);
      SubtokensStep(tokenize, words, i - 1);
    }
  }

  /** Every subtoken's owner is a word whose subtoken run contains it. */
  lemma {:induction false} OwnersSpan(tokenize: string -> seq<string>, words: seq<string>)
    ensures |Owners(tokenize, words)| == |Subtokens(tokenize, words)|
    ensures forall p :: 0 <= p < |Owners(tokenize, words)| ==>
      && 0 <= Owners(tokenize, words)[p] < |words|
      && Offset(tokenize, words, Owners(tokenize, words)[p]) <= p
      && p < Offset(tokenize, words, Owners(tokenize, words)[p] + 1)
  {
    if words != [] {
      var n := |words|;
      var prefix := words[..n - 1];
      OwnersSpan(tokenize, prefix);
      var o := Owners(tokenize, words);
      var op := Owners(tokenize, prefix);
      var k := |tokenize(words[n - 1])|;
      assert o == op + Replicate(n - 1, k);
      OffsetAll(tokenize, prefix);
      OffsetAll(tokenize, words);
      assert Offset(tokenize, words, n - 1) == |op|;
      assert Offset(tokenize, words, n) == |op| + k;
      forall p | 0 <= p < |o|
        ensures 0 <= o[p] < n && Offset(tokenize, words, o[p]) <= p < Offset(tokenize, words, o[p] + 1)
      {
        if p < |op| {
          var w := op[p];
          assert o[p] == w;
          assert prefix[..w] == words[..w];
          assert prefix[..w + 1] == words[..w + 1];
        } else {
          assert o[p] == n - 1;
        }
      }
    }
  }

  /** Reverse map: one entry per subtoken plus the placeholder 0; every
      later entry names a word whose span contains that position; and the
      entries never decrease. */
  lemma ReverseMap(tokenize: string -> seq<string>, words: seq<string>)
    ensures |EndTokenToWord(tokenize, words)| == |Subtokens(tokenize, words)| + 1
    ensures EndTokenToWord(tokenize, words)[0] == 0
    ensures var e := EndTokenToWord(tokenize, words);
      forall p :: 1 <= p < |e| ==>
        && 0 <= e[p] < |words|
        && StartIndex(tokenize, words, e[p]) <= p <= EndIndex(tokenize, words, e[p])
    ensures var e := EndTokenToWord(tokenize, words);
      forall p, q :: 0 <= p <= q < |e| ==> e[p] <= e[q]
  {
    var e := EndTokenToWord(tokenize, words);
    var o := Owners(tokenize, words);
    OwnersSpan(tokenize, words);
    forall p | 1 <= p < |e|
      ensures 0 <= e[p] < |words|
      ensures StartIndex(tokenize, words, e[p]) <= p <= EndIndex(tokenize, words, e[p])
    {
      assert e[p] == o[p - 1];
    }
    forall p, q | 0 <= p <= q < |e| ensures e[p] <= e[q] {
      if 0 < p && e[q] < e[p] {
        OffsetMonotone(tokenize, words, e[q] + 1, e[p]);
      }
    }
  }

  /** The per-word loop of the aligner for one document. */
  method AlignWords(words: seq<string>, tokenize: string -> seq<string>)
    returns (starts: map<int, int>, ends: map<int, int>, endToWord: seq<int>, tokenIds: seq<string>)
    ensures tokenIds == Subtokens(tokenize, words)
    ensures starts == StartMap(tokenize, words)
    ensures ends == EndMap(tokenize, words)
    ensures endToWord == EndTokenToWord(tokenize, words)
  {
    starts, ends := map[], map[];
    endToWord := [0];
    tokenIds := [];
    var idx := 0;
    while idx < |words|
      invariant 0 <= idx <= |words|
      invariant tokenIds == Subtokens(tokenize, words[..idx])
      invariant starts == StartsUpTo(tokenize, words, idx)
      invariant ends == EndsUpTo(tokenize, words, idx)
      invariant endToWord == [0] + Owners(tokenize, words[..idx])
    {
      SubtokensStep(tokenize, words, idx);
      OwnersStep(tokenize, words, idx);
      UpToStep(tokenize, words, idx);
      starts := starts[idx := |tokenIds| + 1];
      var tokenized := tokenize(words[idx]);
      var k := 0;
      while k < |tokenized|
        invariant 0 <= k <= |tokenized|
        invariant endToWord == [0] + Owners(tokenize, words[..idx]) + Replicate(idx, k)
      {
        endToWord := endToWord + [idx];
        k := k + 1;
      }
      tokenIds := tokenIds + tokenized;
      ends := ends[idx := |tokenIds|];
      idx := idx + 1;
    }
    assert words[..idx] == words;
    UpToAll(tokenize, words);
  }

  /** A mention can be remapped when both dictionary lookups find their key. */
  predicate Resolves(m: Mention, starts: map<int, int>, ends: map<int, int>)
  {
    m.0 in starts && m.1 - 1 in ends
  }

  /** The key the remapping of `m` fails on: the start lookup comes first. */
  function MissingKey(m: Mention, starts: map<int, int>): int
  {
    if m.0 !in starts then m.0 else m.1 - 1
  }

  /** Mention `(start, end)` becomes `(starts[start], ends[end - 1])`. */
  function RemapMention(m: Mention, starts: map<int, int>, ends: map<int, int>): Result<Mention, KeyError>
  {
    if m.0 !in starts then Failure(KeyError(m.0))
    else if m.1 - 1 !in ends then Failure(KeyError(m.1 - 1))
    else Success((starts[m.0], ends[m.1 - 1]))
  }

  predicate AllResolve(cluster: Cluster, starts: map<int, int>, ends: map<int, int>)
  {
    forall k :: 0 <= k < |cluster| ==> Resolves(cluster[k], starts, ends)
  }

  /** The inner comprehension of the remapping: one cluster, mention by
      mention, stopping at the first lookup that raises `KeyError`. */
  function RemapCluster(cluster: Cluster, starts: map<int, int>, ends: map<int, int>): Result<Cluster, KeyError>
  {
    if cluster == [] then Success([])
    else
      match RemapCluster(cluster[..|cluster| - 1], starts, ends)
      case Failure(err) => Failure(err)
      case Success(done) =>
        match RemapMention(cluster[|cluster| - 1], starts, ends)
        case Failure(err) => Failure(err)
        case Success(m) => Success(done + [m])
  }

  /** A cluster is remapped exactly when all its mentions resolve, mention by
      mention and size-preserving; otherwise the error names the missing key
      of the first mention that does not resolve. */
  lemma {:induction false} RemapClusterMeaning(cluster: Cluster, starts: map<int, int>, ends: map<int, int>)
    ensures RemapCluster(cluster, starts, ends).Success? <==> AllResolve(cluster, starts, ends)
    ensures var r := RemapCluster(cluster, starts, ends);
      r.Success? ==>
        && |r.value| == |cluster|
        && forall k :: 0 <= k < |cluster| ==> r.value[k] == (starts[cluster[k].0], ends[cluster[k].1 - 1])
    ensures var r := RemapCluster(cluster, starts, ends);
      r.Failure? ==>
        exists k :: && 0 <= k < |cluster|
                    && !Resolves(cluster[k], starts, ends)
                    && AllResolve(cluster[..k], starts, ends)
                    && r.error == KeyError(MissingKey(cluster[k], starts))
  {
    if cluster != [] {
      var n := |cluster|;
      var prefix := cluster[..n - 1];
      RemapClusterMeaning(prefix, starts, ends);
      assert forall k :: 0 <= k < n - 1 ==> prefix[k] == cluster[k];
      var prev := RemapCluster(prefix, starts, ends);
      if prev.Failure? {
        var k :| && 0 <= k < n - 1
                 && !Resolves(prefix[k], starts, ends)
                 && AllResolve(prefix[..k], starts, ends)
                 && prev.error == KeyError(MissingKey(prefix[k], starts));
        assert prefix[..k] == cluster[..k];
      } else if !Resolves(cluster[n - 1], starts, ends) {
        assert prefix == cluster[..n - 1];
      }
    }
  }

  /** The remapping at data.py lines 87-89: every cluster, in order,
      stopping at the first cluster whose remapping raises `KeyError`. */
  function RemapClusters(clusters: ClusterList, starts: map<int, int>, ends: map<int, int>): Result<ClusterList, KeyError>
  {
    if clusters == [] then Success([])
    else
      match RemapClusters(clusters[..|clusters| - 1], starts, ends)
      case Failure(err) => Failure(err)
      case Success(done) =>
        match RemapCluster(clusters[|clusters| - 1], starts, ends)
        case Failure(err) => Failure(err)
        case Success(c) => Success(done + [c])
  }

  /** A successful remapping holds one remapped cluster per input cluster,
      in order. */
  lemma {:induction false} RemapClustersSucceeds(clusters: ClusterList, starts: map<int, int>, ends: map<int, int>)
    requires RemapClusters(clusters, starts, ends).Success?
    ensures var r := RemapClusters(clusters, starts, ends);
      && |r.value| == |clusters|
      && forall j :: 0 <= j < |clusters| ==> RemapCluster(clusters[j], starts, ends) == Success(r.value[j])
  {
    if clusters != [] {
      var n := |clusters|;
      var prefix := clusters[..n - 1];
      var prev := RemapClusters(prefix, starts, ends);
      var r := RemapClusters(clusters, starts, ends);
      assert prev.Success?;
      RemapClustersSucceeds(prefix, starts, ends);
      assert r.value == prev.value + [RemapCluster(clusters[n - 1], starts, ends).value];
      assert forall j :: 0 <= j < n - 1 ==> prefix[j] == clusters[j] && r.value[j] == prev.value[j];
    }
  }

  /** A failed remapping reports the error of the first cluster that fails;
      every cluster before it is remapped. */
  lemma {:induction false} RemapClustersFails(clusters: ClusterList, starts: map<int, int>, ends: map<int, int>)
    returns (j: nat)
    requires RemapClusters(clusters, starts, ends).Failure?
    ensures j < |clusters|
    ensures forall i :: 0 <= i < j ==> RemapCluster(clusters[i], starts, ends).Success?
    ensures RemapCluster(clusters[j], starts, ends) == Failure(RemapClusters(clusters, starts, ends).error)
  {
    var n := |clusters|;
    var prefix := clusters[..n - 1];
    var prev := RemapClusters(prefix, starts, ends);
    assert forall i :: 0 <= i < n - 1 ==> prefix[i] == clusters[i];
    if prev.Failure? {
      assert RemapClusters(clusters, starts, ends) == prev;
      j := RemapClustersFails(prefix, starts, ends);
    } else {
      RemapClustersSucceeds(prefix, starts, ends);
      j := n - 1;
    }
  }

  /** The clusters are remapped exactly when every cluster is. */
  lemma RemapClustersMeaning(clusters: ClusterList, starts: map<int, int>, ends: map<int, int>)
    ensures RemapClusters(clusters, starts, ends).Success? <==>
      forall j :: 0 <= j < |clusters| ==> RemapCluster(clusters[j], starts, ends).Success?
  {
    if RemapClusters(clusters, starts, ends).Success? {
      RemapClustersSucceeds(clusters, starts, ends);
    } else {
      var j := RemapClustersFails(clusters, starts, ends);
    }
  }

  /** A word-level mention whose two word indices lie inside the document. */
  predicate InDocument(m: Mention, numWords: int)
  {
    0 <= m.0 < numWords && 0 <= m.1 - 1 < numWords
  }

  /** Remapping a document's clusters succeeds exactly when every mention's
      word indices lie inside the document; it then keeps the number of
      clusters and each cluster's size, and mention `(s, e)` becomes
      `(StartIndex(s), EndIndex(e - 1))`. */
  lemma RemapDocument(tokenize: string -> seq<string>, words: seq<string>, clusters: ClusterList)
    ensures var r := RemapClusters(clusters, StartMap(tokenize, words), EndMap(tokenize, words));
      && (r.Success? <==> forall j, k :: 0 <= j < |clusters| && 0 <= k < |clusters[j]| ==>
            InDocument(clusters[j][k], |words|))
      && (r.Success? ==>
            && |r.value| == |clusters|
            && (forall j :: 0 <= j < |clusters| ==> |r.value[j]| == |clusters[j]|)
            && (forall j, k :: 0 <= j < |clusters| && 0 <= k < |clusters[j]| ==>
                  r.value[j][k] == (StartIndex(tokenize, words, clusters[j][k].0),
                                    EndIndex(tokenize, words, clusters[j][k].1 - 1))))
  {
    var starts, ends := StartMap(tokenize, words), EndMap(tokenize, words);
    var r := RemapClusters(clusters, starts, ends);
    RemapClustersMeaning(clusters, starts, ends);
    forall j | 0 <= j < |clusters| {
      RemapClusterMeaning(clusters[j], starts, ends);
    }
    if r.Success? {
      RemapClustersSucceeds(clusters, starts, ends);
      forall j | 0 <= j < |clusters|
        ensures |r.value[j]| == |clusters[j]|
        ensures forall k :: 0 <= k < |clusters[j]| ==>
          r.value[j][k] == (StartIndex(tokenize, words, clusters[j][k].0),
                            EndIndex(tokenize, words, clusters[j][k].1 - 1))
      {
        assert RemapCluster(clusters[j], starts, ends) == Success(r.value[j]);
      }
    }
  }

  /** Remapped bounds: a mention `(s, e)` with `0 <= s < e <= |words|`
      whose first word has a subtoken becomes a span inside
      [1, number of subtokens] whose start is not after its end. */
  lemma MentionBounds(tokenize: string -> seq<string>, words: seq<string>, s: int, e: int)
    requires 0 <= s < e <= |words|
    requires |tokenize(words[s])| > 0
    ensures 1 <= StartIndex(tokenize, words, s)
    ensures StartIndex(tokenize, words, s) <= EndIndex(tokenize, words, e - 1)
    ensures EndIndex(tokenize, words, e - 1) <= |Subtokens(tokenize, words)|
  {
    SubtokensStep(tokenize, words, s);
    OffsetMonotone(tokenize, words, s + 1, e);
    OffsetMonotone(tokenize, words, e, |words|);
    OffsetAll(tokenize, words);
  }

  /** The document "John Smith is a nice guy. He lives in London." split
      into 12 words, each "." a word of its own, every word one subtoken: its cluster {"John Smith",
      "He"} at word spans (0, 2) and (7, 8) becomes subtoken spans (1, 2)
      and (8, 8), counting the start token, over 12 subtokens. */
  lemma WorkedExample(tokenize: string -> seq<string>, docKey: string, words: seq<string>)
    requires |words| == 12
    requires forall j :: 0 <= j < |words| ==> |tokenize(words[j])| == 1
    ensures var p := Process(tokenize, Example(docKey, words, [[(0, 2), (7, 8)]]));
      && p.Success?
      && |p.value.tokenIds| == 12
      && p.value.clusters == [[(1, 2), (8, 8)]]
  {
    var clusters: ClusterList := [[(0, 2), (7, 8)]];
    OneSubtokenEach(tokenize, words, 0);
    OneSubtokenEach(tokenize, words, 2);
    OneSubtokenEach(tokenize, words, 7);
    OneSubtokenEach(tokenize, words, 8);
    OneSubtokenEach(tokenize, words, 12);
    OffsetAll(tokenize, words);
    RemapDocument(tokenize, words, clusters);
    var r := RemapClusters(clusters, StartMap(tokenize, words), EndMap(tokenize, words));
    assert r.Success?;
    assert |r.value| == 1 && |r.value[0]| == 2;
    assert r.value[0][0] == (1, 2) && r.value[0][1] == (8, 8);
    assert r.value[0] == [(1, 2), (8, 8)];
    assert r.value == [[(1, 2), (8, 8)]];
  }

  /** The same sentence as the tokenizer in the comment at data.py:93-97
      splits it, 10 one-subtoken words with "guy." and "London." one word
      each: the cluster at word spans (0, 2) and (6, 7) becomes subtoken
      spans (1, 2) and (7, 7), each one past the comment's (0, 1) and
      (6, 6) because of the start token. */
  lemma CommentExample(tokenize: string -> seq<string>, docKey: string, words: seq<string>)
    requires |words| == 10
    requires forall j :: 0 <= j < |words| ==> |tokenize(words[j])| == 1
    ensures var p := Process(tokenize, Example(docKey, words, [[(0, 2), (6, 7)]]));
      && p.Success?
      && |p.value.tokenIds| == 10
      && p.value.clusters == [[(1, 2), (7, 7)]]
  {
    var clusters: ClusterList := [[(0, 2), (6, 7)]];
    OneSubtokenEach(tokenize, words, 0);
    OneSubtokenEach(tokenize, words, 2);
    OneSubtokenEach(tokenize, words, 6);
    OneSubtokenEach(tokenize, words, 7);
    OneSubtokenEach(tokenize, words, 10);
    OffsetAll(tokenize, words);
    RemapDocument(tokenize, words, clusters);
    var r := RemapClusters(clusters, StartMap(tokenize, words), EndMap(tokenize, words));
    assert r.Success?;
    assert |r.value| == 1 && |r.value[0]| == 2;
    assert r.value[0][0] == (1, 2) && r.value[0][1] == (7, 7);
    assert r.value[0] == [(1, 2), (7, 7)];
    assert r.value == [[(1, 2), (7, 7)]];
  }

  /** The length filter: `0 < max_seq_length < len(token_ids)`. */
  predicate Dropped(maxSeqLength: int, numTokens: int)
  {
    0 < maxSeqLength < numTokens
  }

  /** The aligner's output for one surviving document. */
  function Process(tokenize: string -> seq<string>, e: Example): Result<TokenizedExample, KeyError>
  {
    match RemapClusters(e.clusters, StartMap(tokenize, e.words), EndMap(tokenize, e.words))
    case Failure(err) => Failure(err)
    case Success(cs) =>
      Success(TokenizedExample(e.docKey, EndTokenToWord(tokenize, e.words), Subtokens(tokenize, e.words), cs))
  }

  /** The documents that pass the length filter, in input order. */
  function Kept(tokenize: string -> seq<string>, maxSeqLength: int, exs: seq<Example>): seq<Example>
  {
    if exs == [] then []
    else
      var e := exs[|exs| - 1];
      Kept(tokenize, maxSeqLength, exs[..|exs| - 1])
        + if Dropped(maxSeqLength, |Subtokens(tokenize, e.words)|) then [] else [e]
  }

  /** Number of documents the length filter drops. */
  function NumDropped(tokenize: string -> seq<string>, maxSeqLength: int, exs: seq<Example>): nat
  {
    if exs == [] then 0
    else
      var e := exs[|exs| - 1];
      NumDropped(tokenize, maxSeqLength, exs[..|exs| - 1])
        + if Dropped(maxSeqLength, |Subtokens(tokenize, e.words)|) then 1 else 0
  }

  /** The survivors are exactly the documents the filter does not drop. */
  lemma {:induction false} KeptMembers(tokenize: string -> seq<string>, maxSeqLength: int, exs: seq<Example>)
    ensures forall x :: x in Kept(tokenize, maxSeqLength, exs) <==>
      x in exs && !Dropped(maxSeqLength, |Subtokens(tokenize, x.words)|)
  {
    if exs != [] {
      var n := |exs|;
      var prefix, e := exs[..n - 1], exs[n - 1];
      KeptMembers(tokenize, maxSeqLength, prefix);
      LastSplit(exs);
      var kp := Kept(tokenize, maxSeqLength, prefix);
      var dropped := Dropped(maxSeqLength, |Subtokens(tokenize, e.words)|);
      assert Kept(tokenize, maxSeqLength, exs) == if dropped then kp else kp + [e];
      forall x
        ensures x in Kept(tokenize, maxSeqLength, exs) <==>
          x in exs && !Dropped(maxSeqLength, |Subtokens(tokenize, x.words)|)
      {
        assert x in exs <==> x in prefix || x == e;
      }
    }
  }

  /** The counts of survivors and dropped documents add up to the input, and
      with a non-positive maximum nothing is dropped. */
  lemma {:induction false} KeptCount(tokenize: string -> seq<string>, maxSeqLength: int, exs: seq<Example>)
    ensures |Kept(tokenize, maxSeqLength, exs)| + NumDropped(tokenize, maxSeqLength, exs) == |exs|
    ensures maxSeqLength <= 0 ==> Kept(tokenize, maxSeqLength, exs) == exs && NumDropped(tokenize, maxSeqLength, exs) == 0
  {
    if exs != [] {
      var n := |exs|;
      KeptCount(tokenize, maxSeqLength, exs[..n - 1]);
      LastSplit(exs);
    }
  }

  datatype TokenizeOutput = TokenizeOutput(examples: seq<TokenizedExample>, lengths: seq<int>, numFiltered: nat)

  /** What the aligner's document loop computes, one document at a time:
      a dropped document is only counted, a surviving one is remapped and
      appended with its length, and the first `KeyError` ends the loop. */
  function TokenizeSpec(tokenize: string -> seq<string>, maxSeqLength: int, exs: seq<Example>): Result<TokenizeOutput, KeyError>
  {
    if exs == [] then Success(TokenizeOutput([], [], 0))
    else
      var e := exs[|exs| - 1];
      match TokenizeSpec(tokenize, maxSeqLength, exs[..|exs| - 1])
      case Failure(err) => Failure(err)
      case Success(out) =>
        if Dropped(maxSeqLength, |Subtokens(tokenize, e.words)|) then
          Success(out.(numFiltered := out.numFiltered + 1))
        else
          match Process(tokenize, e)
          case Failure(err) => Failure(err)
          case Success(t) => Success(TokenizeOutput(out.examples + [t], out.lengths + [|t.tokenIds|], out.numFiltered))
  }

  /** Once a `KeyError` is raised, later documents do not matter. */
  lemma {:induction false} FailurePersists(tokenize: string -> seq<string>, maxSeqLength: int, exs: seq<Example>, i: int)
    requires 0 <= i <= |exs|
    requires TokenizeSpec(tokenize, maxSeqLength, exs[..i]).Failure?
    ensures TokenizeSpec(tokenize, maxSeqLength, exs) == TokenizeSpec(tokenize, maxSeqLength, exs[..i])
  {
    var n := |exs|;
    if i < n {
      assert exs[..n - 1][..i] == exs[..i];
      FailurePersists(tokenize, maxSeqLength, exs[..n - 1], i);
    } else {
      assert exs[..i] == exs;
    }
  }

  /** A successful pass holds one example per survivor, in input order, a
      length list aligned with it and the number of dropped documents. */
  lemma {:induction false} TokenizeSpecSurvivors(tokenize: string -> seq<string>, maxSeqLength: int, exs: seq<Example>)
    requires TokenizeSpec(tokenize, maxSeqLength, exs).Success?
    ensures var kept, out := Kept(tokenize, maxSeqLength, exs), TokenizeSpec(tokenize, maxSeqLength, exs).value;
      && |out.examples| == |kept|
      && |out.lengths| == |kept|
      && out.numFiltered == NumDropped(tokenize, maxSeqLength, exs)
      && forall j :: 0 <= j < |kept| ==>
           && Process(tokenize, kept[j]) == Success(out.examples[j])
           && out.lengths[j] == |out.examples[j].tokenIds|
  {
    if exs != [] {
      var n := |exs|;
      var prefix, e := exs[..n - 1], exs[n - 1];
      var prev := TokenizeSpec(tokenize, maxSeqLength, prefix);
      assert prev.Success?;
      TokenizeSpecSurvivors(tokenize, maxSeqLength, prefix);
      var kp := Kept(tokenize, maxSeqLength, prefix);
      var kept := Kept(tokenize, maxSeqLength, exs);
      var out := TokenizeSpec(tokenize, maxSeqLength, exs).value;
      if Dropped(maxSeqLength, |Subtokens(tokenize, e.words)|) {
        assert kept == kp;
        assert out == prev.value.(numFiltered := prev.value.numFiltered + 1);
      } else {
        assert kept == kp + [e];
        var t := Process(tokenize, e).value;
        assert out == TokenizeOutput(prev.value.examples + [t], prev.value.lengths + [|t.tokenIds|], prev.value.numFiltered);
        forall j | 0 <= j < |kept|
          ensures Process(tokenize, kept[j]) == Success(out.examples[j])
          ensures out.lengths[j] == |out.examples[j].tokenIds|
        {
          if j < |kp| {
            assert kept[j] == kp[j];
            assert out.examples[j] == prev.value.examples[j];
            assert out.lengths[j] == prev.value.lengths[j];
          }
        }
      }
    }
  }

  /** A failed pass reports the error of the first survivor whose mentions
      do not resolve; every survivor before it resolves. */
  lemma {:induction false} TokenizeSpecFails(tokenize: string -> seq<string>, maxSeqLength: int, exs: seq<Example>)
    returns (j: nat)
    requires TokenizeSpec(tokenize, maxSeqLength, exs).Failure?
    ensures var kept := Kept(tokenize, maxSeqLength, exs);
      && j < |kept|
      && Process(tokenize, kept[j]) == Failure(TokenizeSpec(tokenize, maxSeqLength, exs).error)
      && forall i :: 0 <= i < j ==> Process(tokenize, kept[i]).Success?
  {
    var n := |exs|;
    var prefix, e := exs[..n - 1], exs[n - 1];
    var kp := Kept(tokenize, maxSeqLength, prefix);
    var kept := Kept(tokenize, maxSeqLength, exs);
    var prev := TokenizeSpec(tokenize, maxSeqLength, prefix);
    var dropped := Dropped(maxSeqLength, |Subtokens(tokenize, e.words)|);
    assert kept == if dropped then kp else kp + [e];
    if prev.Failure? {
      assert TokenizeSpec(tokenize, maxSeqLength, exs) == prev;
      j := TokenizeSpecFails(tokenize, maxSeqLength, prefix);
      assert forall i :: 0 <= i <= j ==> kept[i] == kp[i];
    } else {
      TokenizeSpecSurvivors(tokenize, maxSeqLength, prefix);
      assert !dropped && Process(tokenize, e) == Failure(TokenizeSpec(tokenize, maxSeqLength, exs).error);
      j := |kp|;
      assert kept[j] == e;
      assert forall i :: 0 <= i < j ==> kept[i] == kp[i];
    }
  }

  /** The aligner's output against the filter: it succeeds exactly when every
      survivor's mentions resolve. */
  lemma TokenizeSpecSucceeds(tokenize: string -> seq<string>, maxSeqLength: int, exs: seq<Example>)
    ensures var kept := Kept(tokenize, maxSeqLength, exs);
      TokenizeSpec(tokenize, maxSeqLength, exs).Success? <==>
        forall j :: 0 <= j < |kept| ==> Process(tokenize, kept[j]).Success?
  {
    if TokenizeSpec(tokenize, maxSeqLength, exs).Success? {
      TokenizeSpecSurvivors(tokenize, maxSeqLength, exs);
    } else {
      var j := TokenizeSpecFails(tokenize, maxSeqLength, exs);
    }
  }

  /** The document loop of the aligner. */
  method TokenizeExamples(examples: seq<Example>, tokenize: string -> seq<string>, maxSeqLength: int)
    returns (r: Result<TokenizeOutput, KeyError>)
    ensures r == TokenizeSpec(tokenize, maxSeqLength, examples)
  {
    var corefExamples: seq<TokenizedExample> := [];
    var lengths: seq<int> := [];
    var numExamplesFiltered: nat := 0;
    var i := 0;
    while i < |examples|
      invariant 0 <= i <= |examples|
      invariant TokenizeSpec(tokenize, maxSeqLength, examples[..i])
        == Success(TokenizeOutput(corefExamples, lengths, numExamplesFiltered))
    {
      var e := examples[i];
      assert examples[..i + 1][..i] == examples[..i];
      var starts, ends, endToWord, tokenIds := AlignWords(e.words, tokenize);
      if 0 < maxSeqLength < |tokenIds| {
        numExamplesFiltered := numExamplesFiltered + 1;
      } else {
        var newClusters := RemapClusters(e.clusters, starts, ends);
        if newClusters.Failure? {
          r := Failure(newClusters.error);
          FailurePersists(tokenize, maxSeqLength, examples, i + 1);
          return;
        }
        lengths := lengths + [|tokenIds|];
        corefExamples := corefExamples + [TokenizedExample(e.docKey, endToWord, tokenIds, newClusters.value)];
      }
      i := i + 1;
    }
    assert examples[..i] == examples;
    r := Success(TokenizeOutput(corefExamples, lengths, numExamplesFiltered));
  }
}
