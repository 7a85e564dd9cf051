/**
 * The tokenizer capability the pipeline is given: an encoder from text to
 * ids, a pad id and an end-of-sequence id, and the fixed truncation length
 * both tokenizer calls in the example builder use.
 */
module Tokens {

  /** Label value that the loss ignores. */
  const Ignore: int := -100

  /** `max_length` passed to both tokenizer calls. */
  const MaxLength: nat := 256

  /** `encode` stands for the tokenizer's own segmentation, which is not modelled. */
  datatype Tokenizer = Tokenizer(encode: string -> seq<int>, pad: int, eos: int)

  /** Ids a real vocabulary produces: never negative, so never `Ignore`. */
  ghost predicate ProducesVocabIds(tok: Tokenizer)
  {
    tok.eos >= 0 && forall s: string, k | 0 <= k < |tok.encode(s)| :: tok.encode(s)[k] >= 0
  }

  /** `truncation=True, max_length=n`: keep the first `n` ids. */
  function Truncate(ids: seq<int>, n: nat): (r: seq<int>)
    ensures |r| <= n && r <= ids
    ensures |ids| <= n ==> r == ids
    ensures |ids| > n ==> |r| == n
  {
    if |ids| <= n then ids else ids[..n]
  }

  /** One string through `tokenizer(..., truncation=True, max_length=256)`, no padding. */
  function Encode(tok: Tokenizer, s: string): (r: seq<int>)
    ensures |r| <= MaxLength
    ensures r <= tok.encode(s)
  {
    Truncate(tok.encode(s), MaxLength)
  }
}
