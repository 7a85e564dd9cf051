/**
 * The batch collator (`DataCollatorForAssessmentDataset.__call__`): for each
 * named field present in the first instance, right-pad that field of every
 * instance to the longest one with the pad id, and on a field whose name
 * contains "labels" overwrite every cell holding the pad id with `Ignore`.
 */
module Collator {
  import opened Wrappers
  import opened Text
  import opened Tokens

  /** One dataset item: field name to id sequence. */
  type Instance = map<string, seq<int>>

  /** `instance[key]` on an item that lacks `key` raises `KeyError`. */
  datatype CollateError = KeyError(key: string)

  /** The field names the collator looks for, in order, as line 23 writes them. */
  const WrittenKeys: seq<string> := ["examples", "examples_labels"]

  function Max(a: nat, b: nat): nat
  {
    if a < b then b else a
  }

  /** The length of the longest row: the width of the padded batch. */
  function MaxLen(rows: seq<seq<int>>): (m: nat)
    ensures forall i | 0 <= i < |rows| :: |rows[i]| <= m
    ensures rows == [] ==> m == 0
    ensures rows != [] ==> exists i | 0 <= i < |rows| :: |rows[i]| == m
  {
    if rows == [] then 0
    else Max(MaxLen(rows[..|rows| - 1]), |rows[|rows| - 1]|)
  }

  /** Cell `c` of row `r` after right-padding to any wider width. */
  function PaddedCell(rows: seq<seq<int>>, r: nat, c: nat, pad: int): int
    requires r < |rows|
  {
    if c < |rows[r]| then rows[r][c] else pad
  }

  /** `pad_sequence(..., batch_first=True, padding_value=pad)`. */
  function PadRows(rows: seq<seq<int>>, pad: int): (out: seq<seq<int>>)
    ensures |out| == |rows|
    ensures forall i | 0 <= i < |rows| :: |out[i]| == MaxLen(rows) && out[i][..|rows[i]|] == rows[i]
    ensures forall i, j | 0 <= i < |rows| && |rows[i]| <= j < MaxLen(rows) :: out[i][j] == pad
  {
    var n := MaxLen(rows);
    seq(|rows|, i requires 0 <= i < |rows| => seq(n, j requires 0 <= j < n => PaddedCell(rows, i, j, pad)))
  }

  function MaskCell(v: int, pad: int): int
  {
    if v == pad then Ignore else v
  }

  /** `data[data.eq(pad)] = -100` on a batch given as rows. */
  function MaskRows(rows: seq<seq<int>>, pad: int): (out: seq<seq<int>>)
    ensures |out| == |rows|
    ensures forall i | 0 <= i < |rows| :: |out[i]| == |rows[i]|
  {
    seq(|rows|, i requires 0 <= i < |rows| =>
      seq(|rows[i]|, j requires 0 <= j < |rows[i]| => MaskCell(rows[i][j], pad)))
  }

  /**
   * Masking is by value: afterwards a cell is `Ignore` exactly when it held
   * the pad id or was already `Ignore`, whatever position it is at (so real
   * content equal to the pad id is masked too); every other cell is kept.
   */
  lemma MaskRowsByValue(rows: seq<seq<int>>, pad: int)
    ensures
      var out := MaskRows(rows, pad);
      forall i, j | 0 <= i < |rows| && 0 <= j < |rows[i]| ::
        && (out[i][j] == Ignore <==> rows[i][j] == pad || rows[i][j] == Ignore)
        && (rows[i][j] != pad ==> out[i][j] == rows[i][j])
  {
  }

  /** Python's `"labels" in key`. */
  predicate IsLabelsKey(key: string)
  {
    Contains(key, "labels")
  }

  /** One collated field: padded, and masked when it is a labels field. */
  function PadField(rows: seq<seq<int>>, pad: int, isLabels: bool): seq<seq<int>>
  {
    if isLabels then MaskRows(PadRows(rows, pad), pad) else PadRows(rows, pad)
  }

  predicate HasKeyAll(instances: seq<Instance>, key: string)
  {
    forall i | 0 <= i < |instances| :: key in instances[i]
  }

  /** `[instance[key] for instance in instances]` */
  function Column(instances: seq<Instance>, key: string): (col: seq<seq<int>>)
    requires HasKeyAll(instances, key)
    ensures |col| == |instances|
  {
    seq(|instances|, i requires 0 <= i < |instances| => instances[i][key])
  }

  /**
   * What the collator returns for the keys in `keys` (taken in order); a key
   * missing from the first instance is skipped, a key present there but
   * missing from a later instance fails the whole call.
   */
  function CollateSpec(instances: seq<Instance>, keys: seq<string>, pad: int): Result<map<string, seq<seq<int>>>, CollateError>
    requires |instances| > 0
  {
    if keys == [] then Ok(map[])
    else
      var key := keys[|keys| - 1];
      match CollateSpec(instances, keys[..|keys| - 1], pad)
      case Err(e) => Err(e)
      case Ok(m) =>
        if key !in instances[0] then Ok(m)
        else if !HasKeyAll(instances, key) then Err(KeyError(key))
        else Ok(m[key := PadField(Column(instances, key), pad, IsLabelsKey(key))])
  }

  /** One step of the loop over keys: a key every instance carries is added. */
  lemma CollateSpecAddKey(instances: seq<Instance>, keys: seq<string>, key: string, pad: int, m: map<string, seq<seq<int>>>)
    requires |instances| > 0 && HasKeyAll(instances, key)
    requires CollateSpec(instances, keys, pad) == Ok(m)
    ensures CollateSpec(instances, keys + [key], pad) == Ok(m[key := PadField(Column(instances, key), pad, IsLabelsKey(key))])
  {
    assert (keys + [key])[..|keys|] == keys;
  }

  /**
   * The collator succeeds exactly when every requested key present in the
   * first instance is present in all of them.
   */
  lemma {:induction false} CollateSpecSucceeds(instances: seq<Instance>, keys: seq<string>, pad: int)
    requires |instances| > 0
    ensures CollateSpec(instances, keys, pad).Ok? <==>
      forall k | k in keys && k in instances[0] :: HasKeyAll(instances, k)
  {
    if keys != [] {
      var init := keys[..|keys| - 1];
      var key := keys[|keys| - 1];
      CollateSpecSucceeds(instances, init, pad);
      assert keys == init + [key];
    }
  }

  /**
   * On success it emits exactly the requested keys present in the first
   * instance, each holding its padded (and, for labels, masked) column.
   */
  lemma {:induction false} CollateSpecFields(instances: seq<Instance>, keys: seq<string>, pad: int)
    requires |instances| > 0
    requires CollateSpec(instances, keys, pad).Ok?
    ensures var m := CollateSpec(instances, keys, pad).value;
      forall k :: k in m <==> k in keys && k in instances[0]
    ensures var m := CollateSpec(instances, keys, pad).value;
      forall k | k in m :: HasKeyAll(instances, k) && m[k] == PadField(Column(instances, k), pad, IsLabelsKey(k))
  {
    if keys != [] {
      var init := keys[..|keys| - 1];
      var key := keys[|keys| - 1];
      assert keys == init + [key];
      var prev := CollateSpec(instances, init, pad);
      assert prev.Ok?;
      CollateSpecFields(instances, init, pad);
    }
  }

  /** Once a prefix of the keys fails, the whole call fails with the same error. */
  lemma {:induction false} CollateSpecErrorSticks(instances: seq<Instance>, keys: seq<string>, n: nat, pad: int)
    requires |instances| > 0 && n <= |keys|
    requires CollateSpec(instances, keys[..n], pad).Err?
    ensures CollateSpec(instances, keys, pad) == CollateSpec(instances, keys[..n], pad)
    decreases |keys| - n
  {
    if n < |keys| {
      assert keys[..n + 1][..n] == keys[..n];
      CollateSpecErrorSticks(instances, keys, n + 1, pad);
    } else {
      assert keys[..n] == keys;
    }
  }

  /** The 2-D array holds exactly the rows `rows`. */
  ghost predicate Holds(a: array2<int>, rows: seq<seq<int>>)
    reads a
  {
    && a.Length0 == |rows|
    && (forall i | 0 <= i < |rows| :: |rows[i]| == a.Length1)
    && forall i, j | 0 <= i < a.Length0 && 0 <= j < a.Length1 :: a[i, j] == rows[i][j]
  }

  /** Lines 26-28: a fresh `[len(rows), longest]` array, filled with pad, each row copied in. */
  method Pad(rows: seq<seq<int>>, pad: int) returns (data: array2<int>)
    ensures fresh(data)
    ensures Holds(data, PadRows(rows, pad))
  {
    var n := 0;
    var i := 0;
    while i < |rows|
      invariant 0 <= i <= |rows|
      invariant n == MaxLen(rows[..i])
    {
      assert rows[..i + 1][..i] == rows[..i];
      n := Max(n, |rows[i]|);
      i := i + 1;
    }
    assert rows[..i] == rows;
    data := new int[|rows|, n]((_, _) => pad);
    i := 0;
    while i < |rows|
      invariant 0 <= i <= |rows|
      invariant forall r, c | 0 <= r < |rows| && 0 <= c < n ::
        data[r, c] == if r < i then PaddedCell(rows, r, c, pad) else pad
    {
      var j := 0;
      while j < |rows[i]|
        invariant 0 <= j <= |rows[i]|
        invariant forall r, c | 0 <= r < |rows| && 0 <= c < n ::
          data[r, c] == if r < i || (r == i && c < j) then PaddedCell(rows, r, c, pad) else pad
      {
        data[i, j] := rows[i][j];
        j := j + 1;
      }
      i := i + 1;
    }
  }

  /** Line 30: every cell equal to the pad id becomes `Ignore`, in place. */
  method MaskLabels(data: array2<int>, pad: int)
    modifies data
    ensures forall r, c | 0 <= r < data.Length0 && 0 <= c < data.Length1 ::
      data[r, c] == MaskCell(old(data[r, c]), pad)
  {
    var i := 0;
    while i < data.Length0
      invariant 0 <= i <= data.Length0
      invariant forall r, c | 0 <= r < data.Length0 && 0 <= c < data.Length1 ::
        data[r, c] == if r < i then MaskCell(old(data[r, c]), pad) else old(data[r, c])
    {
      var j := 0;
      while j < data.Length1
        invariant 0 <= j <= data.Length1
        invariant forall r, c | 0 <= r < data.Length0 && 0 <= c < data.Length1 ::
          data[r, c] == if r < i || (r == i && c < j) then MaskCell(old(data[r, c]), pad) else old(data[r, c])
      {
        if data[i, j] == pad {
          data[i, j] := Ignore;
        }
        j := j + 1;
      }
      i := i + 1;
    }
  }

  /**
   * Lines 21-33: for each key in order, skip it when the first instance
   * lacks it, otherwise gather the column, pad it, mask it when the key
   * contains "labels", and store it under the key.
   */
  method Collate(instances: seq<Instance>, keys: seq<string>, pad: int)
    returns (r: Result<map<string, array2<int>>, CollateError>)
    requires |instances| > 0
    ensures r.Ok? == CollateSpec(instances, keys, pad).Ok?
    ensures r.Err? ==> r.error == CollateSpec(instances, keys, pad).error
    ensures r.Ok? ==> r.value.Keys == CollateSpec(instances, keys, pad).value.Keys
    ensures r.Ok? ==> forall k | k in r.value :: Holds(r.value[k], CollateSpec(instances, keys, pad).value[k])
    ensures r.Ok? ==> forall k | k in r.value :: fresh(r.value[k])
    ensures r.Ok? ==> forall k1, k2 | k1 in r.value && k2 in r.value && k1 != k2 :: r.value[k1] != r.value[k2]
  {
    var out: map<string, array2<int>> := map[];
    var i := 0;
    while i < |keys|
      invariant 0 <= i <= |keys|
      invariant CollateSpec(instances, keys[..i], pad).Ok?
      invariant out.Keys == CollateSpec(instances, keys[..i], pad).value.Keys
      invariant forall k | k in out :: Holds(out[k], CollateSpec(instances, keys[..i], pad).value[k])
      invariant forall k | k in out :: fresh(out[k])
      invariant forall k1, k2 | k1 in out && k2 in out && k1 != k2 :: out[k1] != out[k2]
    {
      var key := keys[i];
      assert keys[..i + 1][..i] == keys[..i];
      if key in instances[0] {
        var entry: seq<seq<int>> := [];
        var t := 0;
        while t < |instances|
          invariant 0 <= t <= |instances|
          invariant HasKeyAll(instances[..t], key)
          invariant entry == Column(instances[..t], key)
        {
          if key !in instances[t] {
            assert !HasKeyAll(instances, key);
            CollateSpecErrorSticks(instances, keys, i + 1, pad);
            return Err(KeyError(key));
          }
          assert instances[..t + 1][..t] == instances[..t];
          entry := entry + [instances[t][key]];
          t := t + 1;
        }
        assert instances[..t] == instances;
        var data := Pad(entry, pad);
        if IsLabelsKey(key) {
          MaskLabels(data, pad);
        }
        out := out[key := data];
      }
      i := i + 1;
    }
    assert keys[..i] == keys;
    r := Ok(out);
  }
}
