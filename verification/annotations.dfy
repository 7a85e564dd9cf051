/**
 * Raw records and the serialisation of their error annotations into the
 * response text the model is trained to produce (one line per annotation).
 */
module Annotations {
  import opened Wrappers

  /** One entry of a record's `explanations` list. */
  datatype ErrorAnnotation = ErrorAnnotation(errorType: string, severity: string, reason: string)

  /** A record: `src_text`, `bad_translation` and `explanations`. */
  datatype RawRecord = RawRecord(source: string, translation: string, errors: seq<ErrorAnnotation>)

  /** `"Type: {}; Severity: {}; Reason: {}\n".format(type, severity, reason)` */
  function Line(e: ErrorAnnotation): string
  {
    "Type: " + e.errorType + "; Severity: " + e.severity + "; Reason: " + e.reason + "\n"
  }

  /** The response text of a record: its annotation lines in order. */
  function Serialize(errors: seq<ErrorAnnotation>): string
  {
    if errors == [] then "" else Line(errors[0]) + Serialize(errors[1..])
  }

  /** Appending an annotation appends its line: the step the builder's loop takes. */
  lemma {:induction false} SerializeSnoc(errors: seq<ErrorAnnotation>, e: ErrorAnnotation)
    ensures Serialize(errors + [e]) == Serialize(errors) + Line(e)
  {
    if errors == [] {
      assert [e][1..] == [];
    } else {
      assert (errors + [e])[1..] == errors[1..] + [e];
      SerializeSnoc(errors[1..], e);
    }
  }

  /** The response is empty exactly when the record has no annotations. */
  lemma SerializeEmpty(errors: seq<ErrorAnnotation>)
    ensures Serialize(errors) == "" <==> errors == []
  {
  }

  /**
   * Lines 43-48: for each record, start from an empty response and append
   * one formatted line per annotation. The source appends to a Python list
   * (`res += str` extends it by the string's characters); the characters
   * joined are the concatenated text, which is what is modelled here.
   */
  method BuildResponses(records: seq<RawRecord>) returns (responses: seq<string>)
    ensures |responses| == |records|
    ensures forall i | 0 <= i < |records| :: responses[i] == Serialize(records[i].errors)
  {
    responses := [];
    var i := 0;
    while i < |records|
      invariant 0 <= i <= |records|
      invariant |responses| == i
      invariant forall k | 0 <= k < i :: responses[k] == Serialize(records[k].errors)
    {
      var errors := records[i].errors;
      var res := "";
      var j := 0;
      while j < |errors|
        invariant 0 <= j <= |errors|
        invariant res == Serialize(errors[..j])
      {
        SerializeSnoc(errors[..j], errors[j]);
        assert errors[..j + 1] == errors[..j] + [errors[j]];
        res := res + Line(errors[j]);
        j := j + 1;
      }
      assert errors[..j] == errors;
      responses := responses + [res];
      i := i + 1;
    }
  }

  // ---------------------------------------------------------------------
  // Reading a response back. Not in the source: this is the inverse that
  // shows the serialisation loses nothing when the fields are delimiter-free.
  // ---------------------------------------------------------------------

  /** A field can be read back: type and severity hold no `;`, the reason no newline. */
  predicate Readable(e: ErrorAnnotation)
  {
    ';' !in e.errorType && ';' !in e.severity && '\n' !in e.reason
  }

  /** Splits `s` before the first `stop`; `None` when `stop` does not occur. */
  function SplitBefore(s: string, stop: char): (r: Option<(string, string)>)
    ensures r.Some? ==> r.value.0 + r.value.1 == s && r.value.1 != [] && r.value.1[0] == stop
    ensures r.Some? ==> stop !in r.value.0
  {
    if s == [] then None
    else if s[0] == stop then Some(([], s))
    else match SplitBefore(s[1..], stop)
      case None => None
      case Some(p) => Some(([s[0]] + p.0, p.1))
  }

  lemma {:induction false} SplitBeforeField(field: string, stop: char, rest: string)
    requires stop !in field
    ensures SplitBefore(field + [stop] + rest, stop) == Some((field, [stop] + rest))
  {
    var s := field + [stop] + rest;
    if field == [] {
      assert s == [stop] + rest && s[0] == stop;
    } else {
      assert s[0] == field[0] != stop;
      assert s[1..] == field[1..] + [stop] + rest;
      SplitBeforeField(field[1..], stop, rest);
      assert [field[0]] + field[1..] == field;
    }
  }

  /** Reads the literal `tag`, then a field that ends before the first `stop`. */
  function ReadField(s: string, tag: string, stop: char): (r: Option<(string, string)>)
    ensures r.Some? ==> |r.value.1| <= |s| && r.value.1 != [] && r.value.1[0] == stop
  {
    if tag <= s then SplitBefore(s[|tag|..], stop) else None
  }

  lemma ReadFieldOf(tag: string, field: string, stop: char, rest: string)
    requires stop !in field
    ensures ReadField(tag + field + [stop] + rest, tag, stop) == Some((field, [stop] + rest))
  {
    var s := tag + field + [stop] + rest;
    assert tag <= s;
    assert s[|tag|..] == field + [stop] + rest;
    SplitBeforeField(field, stop, rest);
  }

  /** Reads one line; returns the annotation and the text after its newline. */
  function ParseLine(s: string): (r: Option<(ErrorAnnotation, string)>)
    ensures r.Some? ==> |r.value.1| < |s|
  {
    match ReadField(s, "Type: ", ';')
    case None => None
    case Some(p1) =>
      match ReadField(p1.1, "; Severity: ", ';')
      case None => None
      case Some(p2) =>
        match ReadField(p2.1, "; Reason: ", '\n')
        case None => None
        case Some(p3) => Some((ErrorAnnotation(p1.0, p2.0, p3.0), p3.1[1..]))
  }

  /** Reads a whole response back into its annotations. */
  function Parse(s: string): Option<seq<ErrorAnnotation>>
    decreases |s|
  {
    if s == [] then Some([])
    else match ParseLine(s)
      case None => None
      case Some(p) =>
        match Parse(p.1)
        case None => None
        case Some(rest) => Some([p.0] + rest)
  }

  lemma ParseLineOfLine(e: ErrorAnnotation, rest: string)
    requires Readable(e)
    ensures ParseLine(Line(e) + rest) == Some((e, rest))
  {
    var tail3 := "\n" + rest;
    var tail2 := "; Reason: " + e.reason + tail3;
    var tail1 := "; Severity: " + e.severity + tail2;
    assert Line(e) + rest == "Type: " + e.errorType + [';'] + tail1[1..];
    ReadFieldOf("Type: ", e.errorType, ';', tail1[1..]);
    assert [';'] + tail1[1..] == "; Severity: " + e.severity + [';'] + tail2[1..];
    ReadFieldOf("; Severity: ", e.severity, ';', tail2[1..]);
    assert [';'] + tail2[1..] == "; Reason: " + e.reason + ['\n'] + rest;
    ReadFieldOf("; Reason: ", e.reason, '\n', rest);
  }

  /** Reading a response back yields exactly the annotations it was built from, in order. */
  lemma {:induction false} ParseSerialize(errors: seq<ErrorAnnotation>)
    requires forall k | 0 <= k < |errors| :: Readable(errors[k])
    ensures Parse(Serialize(errors)) == Some(errors)
  {
    if errors != [] {
      ParseLineOfLine(errors[0], Serialize(errors[1..]));
      ParseSerialize(errors[1..]);
      assert [errors[0]] + errors[1..] == errors;
    }
  }
}
