# Supervised fine-tuning examples for a translation critic — Dafny model

MT-Patcher trains a model to critique machine translations. Its training
data comes from `src/data/assessment_dataset.py`, which has two parts:

* **`preprocess`** (the example builder). Each record holds a source
  sentence, a flawed translation and a list of error annotations (type,
  severity, reason). The builder fills the prompt template's `<srctext>`
  and `<tgttext>` markers to make the prefix. It writes one line
  `Type: …; Severity: …; Reason: …` per annotation to make the response.
  It tokenizes prefix and response separately, each truncated to 256 ids.
  It emits `input_ids = prefix ++ response ++ [eos]` and
  `labels = [-100]*|prefix| ++ response ++ [eos]`.
* **`DataCollatorForAssessmentDataset.__call__`** (the collator). For each
  field name it looks for, it right-pads that field of every item to the
  longest item, using the tokenizer's pad id. On a field whose name
  contains `labels`, it then overwrites every cell equal to the pad id
  with -100.

Files and modules:

| file | module | what it holds |
|---|---|---|
| `wrappers.dfy` | `Wrappers` | `Option`, `Result` |
| `text.dfy` | `Text` | Python's `in` on strings, `str.replace`, `str.count`, and their lemmas |
| `tokens.dfy` | `Tokens` | the tokenizer capability (encoder, pad id, eos id), `Ignore = -100`, truncation to 256 |
| `annotations.dfy` | `Annotations` | records, the response serialisation, the loop that builds responses, and a parser that reads a response back |
| `example_builder.dfy` | `ExampleBuilder` | prefix substitution, id/label assembly, `Preprocess`, and the pairing finding |
| `collator.dfy` | `Collator` | the collator as a function (`CollateSpec`) and as methods over `array2<int>` (`Pad`, `MaskLabels`, `Collate`) |
| `pipeline.dfy` | `Pipeline` | built examples fed to the collator, and the field-name finding |

The pure parts are functions with lemmas: prefix substitution and the
id/label assembly. The parts that update state are methods with loop
invariants, each proved against a specification function:

* the response loop;
* the loop over field names;
* padding into a 2-D array;
* the in-place masking of that array.

The tokenizer is a parameter: a total function from text to ids, plus the
pad id and the eos id.

## Model

| member | source | states |
|---|---|---|
| `Text.ReplaceAllUnchanged` | src/data/assessment_dataset.py:41 | `str.replace` leaves a text unchanged if and only if the pattern does not occur in it or the replacement equals the pattern |
| `Text.ReplaceAllLength` | src/data/assessment_dataset.py:41 | each replaced occurrence changes the length by `|rep| - |pat|`; occurrences are counted left to right without overlap |
| `Text.Contains` | src/data/assessment_dataset.py:29 | Python's `pat in s`: the pattern occurs at some position of the text |
| `Text.ReplaceAll` | src/data/assessment_dataset.py:41 | `str.replace` for a non-empty pattern: a left-to-right scan that replaces every non-overlapping occurrence |
| `Text.Count` | src/data/assessment_dataset.py:41 | the number of occurrences that scan replaces, as `str.count` counts them |
| `Text.CountZero` | src/data/assessment_dataset.py:41 | the number of occurrences `str.replace` replaces is zero exactly when the pattern does not occur |
| `Tokens.Truncate` | src/data/assessment_dataset.py:50-52 | truncation keeps a prefix of the ids of length at most the limit; it is exactly the limit when the input is longer, and the input itself otherwise |
| `Tokens.Encode` | src/data/assessment_dataset.py:50-52 | a tokenizer call with `max_length=256` gives at most 256 ids, and they are a prefix of the full encoding |
| `Annotations.Line` | src/data/assessment_dataset.py:47 | one annotation formatted as `Type: {type}; Severity: {severity}; Reason: {reason}` followed by a newline |
| `Annotations.Serialize` | src/data/assessment_dataset.py:44-48 | a record's response: the lines of its annotations concatenated in order |
| `Annotations.SerializeSnoc` | src/data/assessment_dataset.py:44-48 | adding an annotation to the end appends exactly its formatted line to the response |
| `Annotations.SerializeEmpty` | src/data/assessment_dataset.py:44-48 | the response is empty if and only if the record has no annotations |
| `Annotations.BuildResponses` | src/data/assessment_dataset.py:43-48 | the annotation loop yields one response per record: that record's lines, in annotation order |
| `Annotations.ParseLineOfLine` | src/data/assessment_dataset.py:47 | a formatted line reads back as the annotation it came from, leaving the following text untouched |
| `Annotations.ParseSerialize` | src/data/assessment_dataset.py:44-48 | a response reads back as exactly its record's annotations, in order, provided type and severity hold no `;` and the reason holds no newline (the parser is not in the source) |
| `ExampleBuilder.Prefix` | src/data/assessment_dataset.py:41 | the prompt with every `<srctext>` replaced by the source, then every `<tgttext>` replaced by the translation |
| `ExampleBuilder.PrefixWithoutMarkers` | src/data/assessment_dataset.py:41 | a prompt with neither marker is the prefix as it is |
| `ExampleBuilder.SourceMarkersReplaced` | src/data/assessment_dataset.py:41 | `<srctext>` is substituted before `<tgttext>`: for every source and translation, a `<tgttext>` inside the source is replaced by the translation |
| `ExampleBuilder.TranslationKept` | src/data/assessment_dataset.py:41 | for every source and translation, the translation is inserted verbatim: markers inside it are not substituted |
| `ExampleBuilder.PairsAsWritten` | src/data/assessment_dataset.py:41 | the loop as written succeeds only for batches of exactly two records, and then pairs the first source with the second source |
| `ExampleBuilder.Pairs` | src/data/assessment_dataset.py:41 | the intended pairing: one (source, translation) pair per record, taken from that record |
| `ExampleBuilder.PairsAsWrittenDisagree` | src/data/assessment_dataset.py:41 | for any batch, the as-written pairing fails unless the batch has two records; with two, it differs from the intended one whenever the second source differs from the first translation |
| `ExampleBuilder.PairsAsWrittenCounterexample` | src/data/assessment_dataset.py:41 | on records (a, A) and (b, B) the as-written pairs are (a, b) and (A, B); the intended pairs are (a, A) and (b, B) |
| `ExampleBuilder.Assemble` | src/data/assessment_dataset.py:54-59 | ids and labels have equal length `|prefix| + |response| + 1`; the ids start with the prefix; the first `|prefix|` labels are -100; from there on ids and labels both equal `response ++ [eos]` |
| `ExampleBuilder.BuildExample` | src/data/assessment_dataset.py:41-59 | the example built from one record: its prefix and response, each tokenized with truncation, assembled with eos |
| `ExampleBuilder.ExampleShape` | src/data/assessment_dataset.py:50-59 | every built example: ids and labels have equal length; the prompt is masked; labels equal the ids from the response on; both end with eos; every label is -100 or the id at its position; there are at most 2*256+1 ids |
| `ExampleBuilder.LeadingIgnores` | src/data/assessment_dataset.py:55-58 | with non-negative vocabulary ids, a label is -100 if and only if its position is inside the prefix |
| `ExampleBuilder.NoAnnotations` | src/data/assessment_dataset.py:44-58 | a record without annotations has an empty response and its ids still end with eos; if the tokenizer maps empty text to no ids, the labels are the masked prefix followed by `[eos]` |
| `ExampleBuilder.Preprocess` | src/data/assessment_dataset.py:35-64 | returns one `input_ids` entry and one `labels` entry per record, each equal to the example built from that record's own source, translation and annotations |
| `Collator.MaxLen` | src/data/assessment_dataset.py:27-28 | the padded width is at least every row's length and equal to some row's length |
| `Collator.PadRows` | src/data/assessment_dataset.py:26-28 | one row per item; every row has the longest length; row i starts with item i unchanged; every cell after it is the pad id |
| `Collator.MaskRows` | src/data/assessment_dataset.py:30 | value-based masking of a padded batch; every row keeps its length |
| `Collator.MaskRowsByValue` | src/data/assessment_dataset.py:29-30 | after masking, a cell is -100 if and only if it held the pad id or -100 before, wherever it is; every cell not equal to the pad id is kept |
| `Collator.IsLabelsKey` | src/data/assessment_dataset.py:29 | a field is masked when its name contains `labels` |
| `Collator.Column` | src/data/assessment_dataset.py:26 | one field gathered from every item, one row per item |
| `Collator.PadField` | src/data/assessment_dataset.py:26-30 | one collated field: padded, then masked when it is a labels field |
| `Collator.CollateSpec` | src/data/assessment_dataset.py:21-33 | the collator's result over the requested field names in order: skip a name the first item lacks, fail with `KeyError` when a later item lacks it, otherwise store the collated field |
| `Collator.CollateSpecSucceeds` | src/data/assessment_dataset.py:22-26 | the call succeeds if and only if every requested field present in the first item is present in every item |
| `Collator.CollateSpecFields` | src/data/assessment_dataset.py:22-31 | on success the output has exactly the requested fields present in the first item; each holds its padded column, masked when the name contains `labels` |
| `Collator.CollateSpecErrorSticks` | src/data/assessment_dataset.py:23-26 | once a field fails with `KeyError`, the whole call fails with that error |
| `Collator.CollateSpecAddKey` | src/data/assessment_dataset.py:31 | handling a field that every item carries adds that field's padded (and masked, if it is a labels field) column under its name |
| `Collator.Pad` | src/data/assessment_dataset.py:26-28 | fills a fresh `[items, longest]` array with the padded rows |
| `Collator.MaskLabels` | src/data/assessment_dataset.py:30 | replaces, in place, each cell equal to the pad id with -100 and leaves the others |
| `Collator.Collate` | src/data/assessment_dataset.py:21-33 | succeeds or fails exactly as `CollateSpec` does; on success it returns the same field names, each with a freshly allocated array holding that field's collated rows, and no two fields share an array |
| `Pipeline.LabelsKeyKinds` | src/data/assessment_dataset.py:29 | `labels` and `examples_labels` count as labels fields |
| `Pipeline.InputIdsNotLabels` | src/data/assessment_dataset.py:29 | `input_ids` is not a labels field, so token ids are never masked |
| `Pipeline.InstanceColumns` | src/data/assessment_dataset.py:61-64 | every built example carries `input_ids` and `labels`, and their columns are the examples' ids and labels |
| `Pipeline.WrittenKeysCollateNothing` | src/data/assessment_dataset.py:23-24 | with the field names line 23 looks for, a batch of built examples collates to an empty result |
| `Pipeline.CollateBuiltExamples` | src/data/assessment_dataset.py:21-33 | with the field names `preprocess` emits, the batch is `input_ids` padded, and `labels` padded then masked |
| `Pipeline.PadTokenMeansIgnoredLabel` | src/data/assessment_dataset.py:26-30 | in a batch of well-labelled examples, every position where the ids hold the pad id has label -100; this covers padding and content equal to the pad id |
| `Pipeline.EosHiddenWhenPadIsEos` | src/data/assessment_dataset.py:29-30 | when the pad id equals the eos id, every example's final eos label is masked to -100, so eos is never trained |
| `Pipeline.CollateExamples` | src/data/assessment_dataset.py:21-33 | collating built examples under their own field names yields two distinct, freshly allocated arrays: the padded ids and the padded, masked labels |

## Findings

| source | as written | input that shows it | evidently intended | confidence | as-written member | corrected member |
|---|---|---|---|---|---|---|
| src/data/assessment_dataset.py:41 | the prefix loop iterates over the pair of column lists `(sources, translations)` and unpacks each list into two names, instead of zipping the columns | a batch of one record raises a ValueError while unpacking; for records (a, A) and (b, B) the prefixes use the pairs (a, b) and (A, B) | one prefix per record, from that record's source and translation | high, not executed | `ExampleBuilder.PairsAsWrittenCounterexample` | `ExampleBuilder.Preprocess` |
| src/data/assessment_dataset.py:23 | the collator looks for fields `examples` and `examples_labels`, but `preprocess` returns `input_ids` and `labels` (lines 61-64) | any non-empty batch of built examples: both names are missing from the first item, so the result is empty | collate the fields `input_ids` and `labels` | high, not executed | `Pipeline.WrittenKeysCollateNothing` | `Pipeline.CollateBuiltExamples` |

The rest of the model follows the intended behaviour.

* `Preprocess` builds prefixes from `Pairs`.
* `CollateExamples` collates under `Pipeline.ExampleKeys`.
* `Collate` itself takes any list of field names.

## Left out

- `make_feedback_data_module` (lines 66-89) is left out. It detects the file format, loads the dataset and runs `datasets.map` over 12 processes; these are file I/O and process orchestration.
- The `__main__` block (lines 92-115) is left out: argument parsing, tokenizer loading, accelerator setup, and a debugger loop.
- Tokenizer internals are not modelled: subword segmentation and special-token insertion. `Tokenizer.encode` is an arbitrary total function. Truncation is modelled as keeping the first 256 ids of its output. The library's own truncation may keep special tokens at the end instead; only the length bound is modelled.
- Tokenizer failures on malformed text are not modelled, because the encoder is total.
- A pad id of `None` is not modelled. A tokenizer may have no pad token; the pad id is taken to be an integer.
- Tensor dtypes are not modelled. `torch.tensor(...).long()` and the 64-bit width are not represented; ids are unbounded integers, and no vocabulary id comes near the 64-bit limit.
- Line 47 extends a list by the characters of each line (`res += str`). It is modelled as string concatenation, which gives the same text. How the tokenizer would treat a list of characters is not modelled.
- Text.ReplaceAll: patterns are assumed non-empty. `str.replace` with an empty pattern is not modelled; the prefix only ever uses the two fixed markers.
- ExampleBuilder.NoAnnotations: states the `[eos]`-only label tail only for a tokenizer that maps empty text to no ids. A tokenizer that adds a start token to empty text yields that token before `eos`.
- The worked example with the prompt `<srctext> translate to English: <tgttext>` is not proved as a concrete instance. `SourceMarkersReplaced`, `TranslationKept` and `PrefixWithoutMarkers` state the substitution behaviour for all sources and translations.
- Collator.Collate: requires a non-empty list of items. On an empty list the source fails with an `IndexError` when it reads the first item (line 24); that error path is not modelled.
- Idempotence of collation (two calls give equal batches) has no lemma of its own. `CollateSpec` is a function, and `Collate` is proved equal to it.
