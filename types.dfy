/** The values that flow through the dataset: decoded corpus records, parsed
    examples, tokenized examples and the mentions and clusters inside them. */
module CorefTypes {

  datatype Result<T, E> = Success(value: T) | Failure(error: E)

  /** Python's `KeyError`: a mention named a word index that the document's
      index dictionaries do not hold. */
  datatype KeyError = KeyError(key: int)

  /** A mention is a pair of integers. At word level it is
      `(start, end)` with `end` exclusive; at subtoken level it is
      `(first, last)` with both ends inclusive; a padding slot is
      `(NULL, NULL)`. */
  type Mention = (int, int)
  type Cluster = seq<Mention>
  type ClusterList = seq<Cluster>

  /** One line of the corpus file after JSON decoding. */
  datatype Record = Record(docKey: string, sentences: seq<seq<string>>, clusters: ClusterList)

  /** The parser's `(doc_key, input_words, clusters)` triple. */
  datatype Example = Example(docKey: string, words: seq<string>, clusters: ClusterList)

  /** The aligner's output for one document,
      `((doc_key, end_token_idx_to_word_idx), CorefExample(token_ids, clusters))`,
      with the nesting flattened into one record. */
  datatype TokenizedExample = TokenizedExample(
    docKey: string,
    endTokenIdxToWordIdx: seq<int>,
    tokenIds: seq<string>,
    clusters: ClusterList)
}
