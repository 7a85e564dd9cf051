/**
 * The example builder (`preprocess`): one training example per record, made
 * of the prompt's ids followed by the response's ids and the end-of-sequence
 * id, with a label sequence that hides the prompt from the loss.
 */
module ExampleBuilder {
  import opened Wrappers
  import opened Text
  import opened Tokens
  import opened Annotations

  const SrcMarker: string := "<srctext>"
  const TgtMarker: string := "<tgttext>"

  /** One encoded example: the `input_ids` entry and the `labels` entry of a record. */
  datatype Example = Example(tokens: seq<int>, labels: seq<int>)

  /**
   * The prompt with every `<srctext>` replaced by the source, and then every
   * `<tgttext>` in the result replaced by the translation.
   */
  function Prefix(prompt: string, source: string, translation: string): string
  {
    ReplaceAll(ReplaceAll(prompt, SrcMarker, source), TgtMarker, translation)
  }

  /** A prompt that holds neither marker is used as it is. */
  lemma PrefixWithoutMarkers(prompt: string, source: string, translation: string)
    requires !Contains(prompt, SrcMarker) && !Contains(prompt, TgtMarker)
    ensures Prefix(prompt, source, translation) == prompt
  {
    ReplaceAllUnchanged(prompt, SrcMarker, source);
    ReplaceAllUnchanged(prompt, TgtMarker, translation);
  }

  /**
   * The substitutions run in order, so a `<tgttext>` that the source brings
   * in is itself replaced by the translation.
   */
  lemma SourceMarkersReplaced(source: string, translation: string)
    ensures Prefix(SrcMarker, source, translation) == ReplaceAll(source, TgtMarker, translation)
  {
    assert SrcMarker[9..] == [];
    assert ReplaceAll(SrcMarker, SrcMarker, source) == source;
  }

  /** Markers that the translation brings in stay as they are: the translation is used verbatim. */
  lemma TranslationKept(source: string, translation: string)
    ensures Prefix(TgtMarker, source, translation) == translation
  {
    assert !Contains(TgtMarker, SrcMarker) by {
      assert SrcMarker[1] != TgtMarker[1];
      ShorterThanPattern(TgtMarker[1..], SrcMarker);
    }
    ReplaceAllUnchanged(TgtMarker, SrcMarker, source);
    assert TgtMarker[9..] == [];
  }

  // Line 41 pairs each source with its translation. As written it iterates
  // over the 2-tuple `(sources, translations)` instead of `zip(...)`; see
  // PairsAsWritten below. The model builds each prefix from one record's
  // own source and translation.

  /** Why line 41's loop fails: unpacking a list into two names needs exactly two elements. */
  datatype PreprocessError = UnpackError

  /**
   * Line 41 as written: the loop visits `sources`, then `translations`, and
   * unpacks each list into `src, tgt`.
   */
  function PairsAsWritten(sources: seq<string>, translations: seq<string>): (r: Result<seq<(string, string)>, PreprocessError>)
    ensures r.Ok? <==> |sources| == 2 && |translations| == 2
    ensures r.Ok? ==> |r.value| == 2 && r.value[0].1 == sources[1] && r.value[1].0 == translations[0]
  {
    if |sources| == 2 && |translations| == 2 then
      Ok([(sources[0], sources[1]), (translations[0], translations[1])])
    else
      Err(UnpackError)
  }

  /** The pairing line 41 evidently intends: record by record. */
  function Pairs(records: seq<RawRecord>): (r: seq<(string, string)>)
    ensures |r| == |records|
    ensures forall i | 0 <= i < |records| :: r[i].0 == records[i].source && r[i].1 == records[i].translation
  {
    seq(|records|, i requires 0 <= i < |records| => (records[i].source, records[i].translation))
  }

  function Sources(records: seq<RawRecord>): seq<string>
  {
    seq(|records|, i requires 0 <= i < |records| => records[i].source)
  }

  function Translations(records: seq<RawRecord>): seq<string>
  {
    seq(|records|, i requires 0 <= i < |records| => records[i].translation)
  }

  /**
   * As written, line 41 rejects every batch that does not hold exactly two
   * records, and for a batch of two it pairs the first record's source with
   * the second record's source instead of with its own translation.
   */
  lemma PairsAsWrittenDisagree(records: seq<RawRecord>)
    ensures |records| != 2 ==> PairsAsWritten(Sources(records), Translations(records)).Err?
    ensures |records| == 2 && records[1].source != records[0].translation ==>
      PairsAsWritten(Sources(records), Translations(records)).value[0] != Pairs(records)[0]
  {
  }

  /** A concrete batch of two records on which the as-written pairing goes wrong. */
  lemma PairsAsWrittenCounterexample()
    ensures
      var records := [RawRecord("a", "A", []), RawRecord("b", "B", [])];
      PairsAsWritten(Sources(records), Translations(records)) == Ok([("a", "b"), ("A", "B")]) &&
      Pairs(records) == [("a", "A"), ("b", "B")]
  {
    var records := [RawRecord("a", "A", []), RawRecord("b", "B", [])];
    assert Sources(records) == ["a", "b"];
    assert Translations(records) == ["A", "B"];
  }

  /**
   * Lines 54-59: the ids are the prefix, the response and the end-of-sequence
   * id; the labels replace the prefix by `Ignore` and keep the rest.
   */
  function Assemble(prefixIds: seq<int>, responseIds: seq<int>, eos: int): (ex: Example)
    ensures |ex.tokens| == |ex.labels| == |prefixIds| + |responseIds| + 1
    ensures ex.tokens[..|prefixIds|] == prefixIds
    ensures forall j | 0 <= j < |prefixIds| :: ex.labels[j] == Ignore
    ensures ex.labels[|prefixIds|..] == ex.tokens[|prefixIds|..] == responseIds + [eos]
  {
    Example(prefixIds + responseIds + [eos], seq(|prefixIds|, _ => Ignore) + responseIds + [eos])
  }

  /** The example `preprocess` builds from one record. */
  function BuildExample(prompt: string, tok: Tokenizer, record: RawRecord): Example
  {
    var prefixIds := Encode(tok, Prefix(prompt, record.source, record.translation));
    var responseIds := Encode(tok, Serialize(record.errors));
    Assemble(prefixIds, responseIds, tok.eos)
  }

  /** Every label is either ignored or equal to the id at the same position. */
  predicate WellLabelled(ex: Example)
  {
    |ex.tokens| == |ex.labels| &&
    forall j | 0 <= j < |ex.labels| :: ex.labels[j] == Ignore || ex.labels[j] == ex.tokens[j]
  }

  /**
   * The shape of every built example: ids and labels have the same length,
   * the first `|prefix ids|` labels are `Ignore`, from there on labels and ids
   * agree and are the response ids followed by `eos`, and since prefix and
   * response are truncated separately and not again afterwards, an example
   * has at most 2 * 256 + 1 ids.
   */
  lemma ExampleShape(prompt: string, tok: Tokenizer, record: RawRecord)
    ensures
      var p := Encode(tok, Prefix(prompt, record.source, record.translation));
      var r := Encode(tok, Serialize(record.errors));
      var ex := BuildExample(prompt, tok, record);
      && |ex.tokens| == |ex.labels| == |p| + |r| + 1
      && |ex.tokens| <= 2 * MaxLength + 1
      && ex.tokens[..|p|] == p
      && (forall j | 0 <= j < |p| :: ex.labels[j] == Ignore)
      && ex.labels[|p|..] == ex.tokens[|p|..] == r + [tok.eos]
      && ex.tokens[|ex.tokens| - 1] == ex.labels[|ex.labels| - 1] == tok.eos
      && WellLabelled(ex)
  {
  }

  /**
   * With a tokenizer whose ids are never negative, exactly the first
   * `|prefix ids|` labels are `Ignore`: the prompt is hidden, nothing more.
   */
  lemma LeadingIgnores(prompt: string, tok: Tokenizer, record: RawRecord)
    requires ProducesVocabIds(tok)
    ensures
      var p := Encode(tok, Prefix(prompt, record.source, record.translation));
      var ex := BuildExample(prompt, tok, record);
      forall j | 0 <= j < |ex.labels| :: ex.labels[j] == Ignore <==> j < |p|
  {
  }

  /**
   * A record without annotations has an empty response; its example still
   * ends with `eos`, and when the tokenizer maps empty text to no ids the
   * label tail after the hidden prompt is just `[eos]`.
   */
  lemma NoAnnotations(prompt: string, tok: Tokenizer, record: RawRecord)
    requires record.errors == []
    ensures
      var p := Encode(tok, Prefix(prompt, record.source, record.translation));
      var ex := BuildExample(prompt, tok, record);
      && Serialize(record.errors) == ""
      && ex.tokens[|ex.tokens| - 1] == tok.eos
      && (tok.encode("") == [] ==> ex.labels == seq(|p|, _ => Ignore) + [tok.eos])
  {
  }

  /**
   * `preprocess` on a batch of records: prefixes per record, responses by the
   * annotation loop, both tokenized with truncation and no padding, then the
   * ids and labels assembled record by record. It returns the `input_ids`
   * and `labels` columns.
   */
  method Preprocess(prompt: string, tok: Tokenizer, records: seq<RawRecord>)
    returns (inputIds: seq<seq<int>>, labels: seq<seq<int>>)
    ensures |inputIds| == |labels| == |records|
    ensures forall i | 0 <= i < |records| :: Example(inputIds[i], labels[i]) == BuildExample(prompt, tok, records[i])
  {
    var pairs := Pairs(records);
    var prefixes := seq(|records|, i requires 0 <= i < |records| => Prefix(prompt, pairs[i].0, pairs[i].1));
    var responses := BuildResponses(records);
    var prefixIds := seq(|records|, i requires 0 <= i < |records| => Encode(tok, prefixes[i]));
    var responseIds := seq(|records|, i requires 0 <= i < |records| => Encode(tok, responses[i]));
    inputIds := seq(|records|, i requires 0 <= i < |records| => prefixIds[i] + responseIds[i] + [tok.eos]);
    labels := seq(|records|, i requires 0 <= i < |records| =>
      seq(|prefixIds[i]|, _ => Ignore) + responseIds[i] + [tok.eos]);
  }
}
