/**
 * The builder's output fed to the collator. `preprocess` emits the fields
 * "input_ids" and "labels" (lines 61-64) while the collator looks for
 * "examples" and "examples_labels" (line 23), so as written every batch
 * comes out empty; the model collates the fields `preprocess` emits.
 */
module Pipeline {
  import opened Wrappers
  import opened Text
  import opened Tokens
  import opened Annotations
  import opened ExampleBuilder
  import opened Collator

  /** The field names `preprocess` returns, which the collator evidently means. */
  const ExampleKeys: seq<string> := ["input_ids", "labels"]

  /** A built example as a dataset item. */
  function ToInstance(ex: Example): Instance
  {
    map["input_ids" := ex.tokens, "labels" := ex.labels]
  }

  function Instances(examples: seq<Example>): (r: seq<Instance>)
    ensures |r| == |examples|
  {
    seq(|examples|, i requires 0 <= i < |examples| => ToInstance(examples[i]))
  }

  function TokenRows(examples: seq<Example>): (r: seq<seq<int>>)
    ensures |r| == |examples|
  {
    seq(|examples|, i requires 0 <= i < |examples| => examples[i].tokens)
  }

  function LabelRows(examples: seq<Example>): (r: seq<seq<int>>)
    ensures |r| == |examples|
  {
    seq(|examples|, i requires 0 <= i < |examples| => examples[i].labels)
  }

  /** Which field names count as labels under `"labels" in key`. */
  lemma LabelsKeyKinds()
    ensures IsLabelsKey("labels") && IsLabelsKey("examples_labels")
  {
    ContainsAt("labels", "labels", 0);
    assert ("examples_labels")[9..] == "labels";
    ContainsAt("examples_labels", "labels", 9);
  }

  lemma InputIdsNotLabels()
    ensures !IsLabelsKey("input_ids")
  {
    var s := "input_ids";
    assert s[0] == 'i' && s[1] == 'n' && s[2] == 'p' && s[3] == 'u';
    NoOccurrence(s, "labels", 4);
  }

  /**
   * As written, the collator finds neither of its keys in a built example
   * and returns an empty batch.
   */
  lemma WrittenKeysCollateNothing(examples: seq<Example>, pad: int)
    requires |examples| > 0
    ensures CollateSpec(Instances(examples), WrittenKeys, pad) == Ok(map[])
  {
    var inst := Instances(examples);
    assert "examples" !in inst[0] && "examples_labels" !in inst[0];
    assert WrittenKeys[..1] == ["examples"];
    assert WrittenKeys[..1][..0] == [];
    assert CollateSpec(inst, WrittenKeys[..1], pad) == Ok(map[]);
  }

  /** Every built example carries both fields; their columns are the ids and the labels. */
  lemma InstanceColumns(examples: seq<Example>)
    ensures HasKeyAll(Instances(examples), "input_ids") && HasKeyAll(Instances(examples), "labels")
    ensures Column(Instances(examples), "input_ids") == TokenRows(examples)
    ensures Column(Instances(examples), "labels") == LabelRows(examples)
  {
  }

  /**
   * With the field names `preprocess` emits, the batch holds both fields:
   * the ids padded with the pad id, and the labels padded and then masked.
   */
  lemma CollateBuiltExamples(examples: seq<Example>, pad: int)
    requires |examples| > 0
    ensures CollateSpec(Instances(examples), ExampleKeys, pad) == Ok(map[
      "input_ids" := PadRows(TokenRows(examples), pad),
      "labels" := MaskRows(PadRows(LabelRows(examples), pad), pad)])
  {
    var inst := Instances(examples);
    var ids := PadRows(TokenRows(examples), pad);
    var labels := MaskRows(PadRows(LabelRows(examples), pad), pad);
    InstanceColumns(examples);
    assert PadField(Column(inst, "input_ids"), pad, IsLabelsKey("input_ids")) == ids by {
      InputIdsNotLabels();
    }
    assert PadField(Column(inst, "labels"), pad, IsLabelsKey("labels")) == labels by {
      LabelsKeyKinds();
    }
    var m0: map<string, seq<seq<int>>> := map[];
    assert CollateSpec(inst, [], pad) == Ok(m0);
    CollateSpecAddKey(inst, [], "input_ids", pad, m0);
    assert [] + ["input_ids"] == ["input_ids"];
    CollateSpecAddKey(inst, ["input_ids"], "labels", pad, m0["input_ids" := ids]);
    assert ["input_ids"] + ["labels"] == ExampleKeys;
  }

  lemma MaxLenSameLengths(a: seq<seq<int>>, b: seq<seq<int>>)
    requires |a| == |b| && forall i | 0 <= i < |a| :: |a[i]| == |b[i]|
    ensures MaxLen(a) == MaxLen(b)
  {
  }

  /**
   * In a batch of well-labelled examples, wherever the ids hold the pad id
   * (padding or genuine content equal to it) the labels hold `Ignore`.
   */
  lemma PadTokenMeansIgnoredLabel(examples: seq<Example>, pad: int)
    requires |examples| > 0
    requires forall i | 0 <= i < |examples| :: WellLabelled(examples[i])
    ensures
      var ids := PadRows(TokenRows(examples), pad);
      var labels := MaskRows(PadRows(LabelRows(examples), pad), pad);
      && |ids| == |labels| == |examples|
      && forall i, j | 0 <= i < |examples| && 0 <= j < |ids[i]| ::
           j < |labels[i]| && (ids[i][j] == pad ==> labels[i][j] == Ignore)
  {
    var tr, lr := TokenRows(examples), LabelRows(examples);
    var ids := PadRows(tr, pad);
    var padded := PadRows(lr, pad);
    var labels := MaskRows(padded, pad);
    MaxLenSameLengths(tr, lr);
    forall i, j | 0 <= i < |examples| && 0 <= j < |ids[i]| && ids[i][j] == pad
      ensures labels[i][j] == Ignore
    {
      var ex := examples[i];
      if j < |ex.tokens| {
        assert ids[i][j] == ids[i][..|tr[i]|][j] == ex.tokens[j];
        assert padded[i][j] == padded[i][..|lr[i]|][j] == ex.labels[j];
      }
      assert labels[i][j] == MaskCell(padded[i][j], pad);
    }
  }

  /**
   * When the pad id and the end-of-sequence id coincide, value-based masking
   * also hides every example's final `eos` label from the loss.
   */
  lemma EosHiddenWhenPadIsEos(prompt: string, tok: Tokenizer, records: seq<RawRecord>)
    requires |records| > 0 && tok.pad == tok.eos
    ensures
      var examples := seq(|records|, i requires 0 <= i < |records| => BuildExample(prompt, tok, records[i]));
      var labels := MaskRows(PadRows(LabelRows(examples), tok.pad), tok.pad);
      forall i | 0 <= i < |records| ::
        var n := |examples[i].labels|;
        0 < n <= |labels[i]| && labels[i][n - 1] == Ignore
  {
  }

  /**
   * The collator applied to built examples under the field names they carry:
   * two fresh `[batch, longest]` arrays, ids padded, labels padded and masked.
   */
  method CollateExamples(examples: seq<Example>, pad: int) returns (ids: array2<int>, labels: array2<int>)
    requires |examples| > 0
    ensures Holds(ids, PadRows(TokenRows(examples), pad))
    ensures Holds(labels, MaskRows(PadRows(LabelRows(examples), pad), pad))
    ensures fresh(ids) && fresh(labels) && ids != labels
  {
    CollateBuiltExamples(examples, pad);
    var r := Collate(Instances(examples), ExampleKeys, pad);
    ids := r.value["input_ids"];
    labels := r.value["labels"];
  }
}
