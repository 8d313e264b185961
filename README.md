# Coreference dataset index bookkeeping

This project models the index bookkeeping of `CorefDataset` in `data.py`.
That class turns a word-level coreference corpus into subword-token
coordinates and pads the cluster structures to one fixed shape. The model
has three parts:

- **Parser** (`parser.dfy`, `_parse_jsonlines`). Records come in already
  decoded from JSON. Each record's sentences are flattened into one word
  list and its clusters pass through unchanged. Three running maxima start
  at -1: mentions per document, largest cluster, and clusters per document.
- **Aligner** (`aligner.dfy`, `_tokenize`). Every word is tokenized on its
  own. The per-word loop records each word's first subtoken position
  (`len(token_ids) + 1`, where the `+ 1` is for `<s>`) and its last
  subtoken position (`len(token_ids)` after extending). It also builds the
  reverse map, which starts with `[0]`. A document is then dropped when
  `0 < max_seq_length < len(token_ids)`. Otherwise every mention
  `(start, end)` is remapped to `(first[start], last[end - 1])`. A
  dictionary lookup on a missing word index raises `KeyError`, which ends
  the whole pass.
- **Padding** (`padding.dfy`, `pad_clusters_inside`, `pad_clusters_outside`,
  `pad_clusters`). Empty clusters are appended up to `max_num_clusters`.
  Then every cluster, including the appended ones, is extended with
  `(NULL, NULL)` up to `max_cluster_size`.

`dataset.dfy` puts these together. The dataset value is built once by the
constructor and never changed after. The model proves that padding any of
its examples with the dataset's own maxima gives exactly
`max_num_clusters` clusters of exactly `max_cluster_size` mentions each.
`lists.dfy` holds the list helpers: Python's `max`, `flatten_list_of_lists`
and `[x] * n`. `types.dfy` holds the data types.

Modelling choices:

- The tokenizer is a parameter `tokenize: string -> seq<string>`.
- `NULL_ID_FOR_COREF` is a parameter `nullId`.
- The two word-index dictionaries are `map<int, int>`.
- Errors are `Result` values. A `KeyError` carries the key that was missing.
  The start lookup of a mention happens before its end lookup, so a mention
  missing both reports its start key.
- Mentions of dropped documents are never looked up, so they raise nothing.
- The loops stay loops. `ParseJsonlines`, `AlignWords` (including the inner
  `range(len(tokenized))` loop) and `TokenizeExamples` are methods. Each is
  proved equal to a specification function, and the properties are proved
  about those functions.

Where the code and its comments disagree, the model follows the code:

- **Mention shape.** The comment at `data.py:48` describes mentions as
  triples `(sentence, start, end)`. The code unpacks pairs `(start, end)` at
  `data.py:88`, so mentions are pairs here.
- **Padding order.** `pad_clusters` pads outside first (`data.py:115-116`),
  so the appended empty clusters are filled with nulls too.
- **Truncation.** `[x] * n` is `[]` for `n <= 0`, so padding never removes
  anything. A maximum that is too small just leaves that dimension
  unpadded. `PadClusters` states this.
- **Worked example.** The comment at `data.py:93-97` tokenizes "John Smith
  is a nice guy. He lives in London." into 10 tokens and gives the spans
  `(0, 1)` and `(6, 6)`. Those leave out the `+ 1` for `<s>` that the code
  adds. `Aligner.CommentExample` proves that for those 10 one-token words
  the code gives `(1, 2)` and `(7, 7)`. `Aligner.WorkedExample` proves the
  same sentence split into 12 words, with each "." a word of its own, where
  the spans become `(1, 2)` and `(8, 8)`.
- **Empty words.** A word with no subtokens gets a last position one less
  than its first. The span bounds are stated only for words that have
  subtokens.

## Model

| member | source | states |
|---|---|---|
| Lists.Max | data.py:56-60 | the result is at least both arguments and equals one of them |
| Lists.Replicate | data.py:108 | `[x] * n` has `n` elements when `n > 0` and none otherwise, and every element is `x` |
| CorpusParser.LargestCluster | data.py:58 | bounds every cluster's size, is 0 with no clusters, and otherwise equals the size of some cluster |
| CorpusParser.CorpusMaxIsMaximum | data.py:39-60 | each running maximum is -1 exactly when the corpus is empty; it bounds every document's measure; on a non-empty corpus it is attained by some document |
| CorpusParser.ParseJsonlines | data.py:38-62 | one example per record, in order; its words are the concatenation of the record's sentences and its clusters are unchanged; the three maxima equal the corpus maxima |
| Aligner.AlignWords | data.py:70-81 | the per-word loop yields the subtoken list, the first-position and last-position dictionaries over every word index, and the reverse map |
| Aligner.WordSpan | data.py:75-81 | word `i`'s first position is (subtokens before it) + 1 and its last is that count plus its own; a word with subtokens lies within [1, number of subtokens]; the span holds exactly that word's subtokens |
| Aligner.OneSubtokenEach | data.py:75-81 | when every word is a single subtoken, word `i` starts after `i` subtokens |
| Aligner.OwnersSpan | data.py:78-79 | one owner per subtoken, and each owner is a word whose subtoken run contains that subtoken |
| Aligner.ReverseMap | data.py:72-80 | the reverse map has length `len(token_ids) + 1` and entry 0 is 0; every later entry `p` is a word `i` with first(i) <= p <= last(i); the entries never decrease |
| Aligner.RemapClusterMeaning | data.py:88 | a cluster is remapped exactly when all its mentions resolve; it then keeps its size and maps each `(s, e)` to `(starts[s], ends[e - 1])`; otherwise the error is the missing key of the first mention that does not resolve |
| Aligner.RemapClustersSucceeds | data.py:87-89 | a successful remap has one cluster per input cluster, in order, each that cluster's remap |
| Aligner.RemapClustersFails | data.py:87-89 | a failed remap reports the error of the first cluster that fails, and every earlier cluster is remapped |
| Aligner.RemapClustersMeaning | data.py:87-89 | the clusters are remapped exactly when every cluster is |
| Aligner.RemapDocument | data.py:87-89 | a document's remap succeeds exactly when every mention's word indices lie in the document; it keeps the cluster count and sizes, and `(s, e)` becomes `(first(s), last(e - 1))` |
| Aligner.MentionBounds | data.py:76-88 | for `0 <= s < e <= len(words)` where word `s` has subtokens: 1 <= first(s) <= last(e - 1) <= `len(token_ids)` |
| Aligner.WorkedExample | data.py:93-97 | the 12-word example with one subtoken per word maps spans (0, 2) and (7, 8) to (1, 2) and (8, 8) over 12 subtokens |
| Aligner.CommentExample | data.py:93-97 | the comment's example as 10 one-subtoken words maps spans (0, 2) and (6, 7) to (1, 2) and (7, 7) over 10 subtokens |
| Aligner.KeptMembers | data.py:83-85 | a document survives exactly when it is in the input and its whole-document token count does not trip `0 < max_seq_length < len(token_ids)` |
| Aligner.KeptCount | data.py:83-85 | survivors plus dropped documents equal the input count; with `max_seq_length <= 0` nothing is dropped |
| Aligner.FailurePersists | data.py:87-89 | once a `KeyError` is raised, later documents do not change the outcome |
| Aligner.TokenizeSpecSurvivors | data.py:83-98 | on success: one example per survivor in input order, each that survivor's remap; `lengths[j]` is example `j`'s token count; the filtered count is the number of dropped documents |
| Aligner.TokenizeSpecFails | data.py:87-89 | on failure: the error is that of the first survivor whose mentions do not resolve |
| Aligner.TokenizeSpecSucceeds | data.py:83-98 | the pass succeeds exactly when every survivor's mentions resolve |
| Aligner.TokenizeExamples | data.py:64-99 | the document loop computes what the specification function says, including the early exit on `KeyError` |
| Padding.PadClustersInside | data.py:107-109 | same number of clusters; each keeps its mentions as a prefix and is followed by `(NULL, NULL)` up to `max(len, max_cluster_size)` |
| Padding.PadClustersOutside | data.py:111-112 | keeps the clusters as a prefix and appends empty ones up to `max(len, max_num_clusters)` |
| Padding.PadClusters | data.py:114-117 | `max(len, max_num_clusters)` clusters; cluster `j` is the original (or an empty one) followed by nulls, and nothing is truncated; when the maxima bound the input the shape is exactly (max_num_clusters, max_cluster_size) |
| Padding.PaddingExample | data.py:114-117 | with maxima (2, 3), one two-mention cluster becomes one three-slot cluster and one all-null cluster |
| Dataset.SurvivorOrigin | data.py:87-89 | every tokenized example has the cluster shape of some parsed record |
| Dataset.PaddedShapeExact | data.py:107-117 | padding a tokenized example with the same corpus's maxima gives exactly (max_num_clusters, max_cluster_size) |
| Dataset.NullSentinelIsolated | data.py:107-117 | with a null id of 0 or less, a padded slot holds `(NULL, NULL)` exactly when it is a padding slot |
| Dataset.NewCorefDataset | data.py:19-26 | construction succeeds exactly when tokenizing succeeds, and the error is passed through; the fields are the parser's maxima and the aligner's output; lengths align with examples; every example pads to the uniform shape |

## Left out

- File and JSON reading (`data.py:42-50`). Input is a sequence of already-decoded records.
- `get_dataset`, with its filesystem checks and pickle caching. It is not part of this model.
- `pad_batch`. It calls the tokenizer's `encode_plus` and torch tensor operations.
- The tokenizer itself is a parameter. Subword segmentation is not modelled.
- `NULL_ID_FOR_COREF` comes from `consts`, which is not part of this model, so it is a parameter.
- Logging, `__len__` and `__getitem__` are thin wrappers.
- Mentions that are not two-element lists are not modelled. In Python they raise `ValueError` when unpacked at `data.py:88`.
- `KeyError` carries only its key. The exception message and traceback are not modelled.
- The dataset keeps the tokenizer object as a field. The model passes the tokenizer to the constructor instead.
- `max_seq_length=-1`, the default at `data.py:19`, is an explicit parameter of `Dataset.NewCorefDataset`. `Aligner.KeptCount` covers its effect: with a value `<= 0` nothing is filtered.
