/** The pure helpers of the application's utility module. */
module Utils {
  import opened Json
  import opened Results

  // ---------------------------------------------------------------- vectors

  /**
   * A list of exactly `expectedLength` numbers (booleans count as numbers, as in Python). Such a
   * vector is, element by element and up to Python's `True == 1`, the encoding of its own numbers.
   */
  function ValidateVectorDimensions(vector: Value, expectedLength: int): (ok: bool)
    ensures ok <==> vector.Arr? && |vector.items| == expectedLength
                    && forall i :: 0 <= i < |vector.items| ==> IsNumber(vector.items[i])
    ensures ok ==>
              && vector.Arr? && |vector.items| == expectedLength
              && (forall i :: 0 <= i < |vector.items| ==> IsNumber(vector.items[i]))
              && |DecodeVector(vector)| == expectedLength
              && forall i :: 0 <= i < expectedLength ==> PyEq(EncodeVector(DecodeVector(vector)).items[i], vector.items[i])
  {
    && vector.Arr?
    && |vector.items| == expectedLength
    && forall i :: 0 <= i < |vector.items| ==> IsNumber(vector.items[i])
  }

  /** The numbers of a validated vector, as the arithmetic in the engines sees them. */
  function DecodeVector(vector: Value): (r: seq<real>)
    requires vector.Arr? && forall i :: 0 <= i < |vector.items| ==> IsNumber(vector.items[i])
    ensures |r| == |vector.items|
    ensures forall i :: 0 <= i < |r| ==> r[i] == AsReal(vector.items[i])
  {
    seq(|vector.items|, i requires 0 <= i < |vector.items| => AsReal(vector.items[i]))
  }

  /** The JSON list of numbers holding `r`. */
  function EncodeVector(r: seq<real>): (v: Value)
    ensures v.Arr? && |v.items| == |r|
  {
    Arr(seq(|r|, i requires 0 <= i < |r| => Num(r[i])))
  }

  /** Every list of reals encodes to a vector that passes validation and decodes back to itself. */
  lemma VectorRoundTrip(r: seq<real>)
    ensures ValidateVectorDimensions(EncodeVector(r), |r|)
    ensures DecodeVector(EncodeVector(r)) == r
  {
  }

  /**
   * Booleans pass validation as numbers, as `isinstance(True, int)` holds in Python, and the engines
   * then read `True` as 1 and `False` as 0; a string or null element fails it.
   */
  lemma ValidateVectorBooleans(flags: seq<bool>)
    ensures var vector := Arr(seq(|flags|, i requires 0 <= i < |flags| => Bool(flags[i])));
      && ValidateVectorDimensions(vector, |flags|)
      && forall i :: 0 <= i < |flags| ==> DecodeVector(vector)[i] == (if flags[i] then 1.0 else 0.0)
    ensures |flags| > 0 ==> !ValidateVectorDimensions(Arr([Str("1")] + seq(|flags| - 1, i => Num(1.0))), |flags|)
    ensures |flags| > 0 ==> !ValidateVectorDimensions(Arr([Null] + seq(|flags| - 1, i => Num(1.0))), |flags|)
  {
    if |flags| > 0 {
      assert ([Str("1")] + seq(|flags| - 1, i => Num(1.0)))[0] == Str("1");
      assert ([Null] + seq(|flags| - 1, i => Num(1.0)))[0] == Null;
    }
  }

  // ------------------------------------------------------------ nested data

  /**
   * `result = data; for key in keys: result = result[key]`, returning `default` as soon as a
   * lookup raises: a missing key (KeyError) or a value that is not a dict (TypeError).
   */
  function SafeGetNested(data: Value, keys: seq<string>, default: Value): (r: Value)
    ensures |keys| == 0 ==> r == data
  {
    if |keys| == 0 then data
    else if data.Obj? && keys[0] in data.fields then SafeGetNested(data.fields[keys[0]], keys[1..], default)
    else default
  }

  /** The value at the end of the path `keys`, if every step exists; the path read from its last key. */
  function Follow(data: Value, keys: seq<string>): Option<Value>
  {
    if |keys| == 0 then Some(data)
    else
      var prefix := Follow(data, keys[..|keys| - 1]);
      var last := keys[|keys| - 1];
      if prefix.Some? && prefix.value.Obj? && last in prefix.value.fields then Some(prefix.value.fields[last])
      else None
  }

  /** Following a path is taking its first step and following the rest. */
  lemma {:induction false} FollowFirstStep(data: Value, keys: seq<string>)
    requires |keys| > 0
    ensures Follow(data, keys)
            == if data.Obj? && keys[0] in data.fields then Follow(data.fields[keys[0]], keys[1..]) else None
  {
    if |keys| > 1 {
      FollowFirstStep(data, keys[..|keys| - 1]);
      assert keys[..|keys| - 1][1..] == keys[1..][..|keys[1..]| - 1];
      assert keys[..|keys| - 1][0] == keys[0];
    } else {
      assert keys[..0] == [];
      assert keys[1..] == [];
    }
  }

  /** `SafeGetNested` yields the value at the end of the path when it exists and `default` otherwise. */
  lemma {:induction false} SafeGetNestedFollowsPath(data: Value, keys: seq<string>, default: Value)
    ensures SafeGetNested(data, keys, default) == Follow(data, keys).GetOr(default)
    decreases |keys|
  {
    if |keys| > 0 {
      FollowFirstStep(data, keys);
      if data.Obj? && keys[0] in data.fields {
        SafeGetNestedFollowsPath(data.fields[keys[0]], keys[1..], default);
      }
    }
  }

  // --------------------------------------------------------------- progress

  /** The progress fraction: 1.0 for a non-positive total, otherwise `min(current / total, 1.0)`. */
  function CreateProgressBar(current: int, total: int): (r: real)
    ensures r <= 1.0
    ensures total <= 0 ==> r == 1.0
    ensures total > 0 ==> (r == 1.0 <==> current >= total)
    ensures total > 0 && current >= 0 ==> r >= 0.0
    ensures total > 0 && current < total ==> r * (total as real) == current as real
  {
    if total <= 0 then 1.0
    else
      var fraction := (current as real) / (total as real);
      if fraction <= 1.0 then fraction else 1.0
  }

  /** More progress never shows a shorter bar. */
  lemma ProgressBarMonotone(current1: int, current2: int, total: int)
    requires current1 <= current2
    ensures CreateProgressBar(current1, total) <= CreateProgressBar(current2, total)
  {
    if total > 0 {
      var t := total as real;
      assert (current1 as real) / t <= (current2 as real) / t by {
        assert (current2 as real) / t - (current1 as real) / t == ((current2 - current1) as real) / t;
      }
    }
  }

  // --------------------------------------------------------------- features

  const NoFeaturesHtml: string := "<p>No hay características disponibles.</p>"
  const ListOpen: string := "<ul style='text-align: left; margin: 1rem 0;'>"
  const ListClose: string := "</ul>"

  /** One list item of the features list. */
  function FeatureItem(feature: string): string {
    "<li>✅ " + feature + "</li>"
  }

  /** The list items, appended one feature at a time as the loop of `format_features_list` does. */
  function FeatureItems(features: seq<string>): string {
    if |features| == 0 then ""
    else FeatureItems(features[..|features| - 1]) + FeatureItem(features[|features| - 1])
  }

  /** The features as an HTML list, or a fixed paragraph when there are none. */
  function FormatFeaturesList(features: seq<string>): (html: string)
    ensures |features| == 0 ==> html == NoFeaturesHtml
    ensures |features| > 0 ==> ListOpen <= html && |html| >= |ListOpen| + |ListClose|
    ensures |features| > 0 ==> html[|html| - |ListClose|..] == ListClose
    ensures |features| > 0 ==> html[|ListOpen|..|html| - |ListClose|] == FeatureItems(features)
  {
    if |features| == 0 then NoFeaturesHtml
    else ListOpen + FeatureItems(features) + ListClose
  }

  lemma {:induction false} FeatureItemsAppend(a: seq<string>, b: seq<string>)
    ensures FeatureItems(a + b) == FeatureItems(a) + FeatureItems(b)
    decreases |b|
  {
    if |b| == 0 {
      assert a + b == a;
    } else {
      var b' := b[..|b| - 1];
      assert (a + b)[..|a + b| - 1] == a + b';
      FeatureItemsAppend(a, b');
    }
  }

  /** Every feature gets exactly one item, placed after the items of all earlier features. */
  lemma FeatureItemsInOrder(features: seq<string>, i: int)
    requires 0 <= i < |features|
    ensures FeatureItems(features)
            == FeatureItems(features[..i]) + FeatureItem(features[i]) + FeatureItems(features[i + 1..])
  {
    var pre, rest := features[..i + 1], features[i + 1..];
    assert features == pre + rest;
    FeatureItemsAppend(pre, rest);
    assert pre[..|pre| - 1] == features[..i];
  }

  /** The fixed paragraph appears exactly when there are no features. */
  lemma FormatFeaturesListEmptyIff(features: seq<string>)
    ensures FormatFeaturesList(features) == NoFeaturesHtml <==> |features| == 0
  {
    if |features| > 0 {
      var html := FormatFeaturesList(features);
      assert |html| > |NoFeaturesHtml|;
    }
  }
}
