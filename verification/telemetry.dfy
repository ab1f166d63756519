/**
 * The telemetry record the device returns when its control characteristic is read: ASCII text
 * `key1:value1,key2:value2,...` with exactly 13 fields. Decoding keeps the values in order and
 * drops the keys; any malformed field rejects the whole record (no partial list is returned).
 * Both program variants apply the same rule.
 */
module Telemetry {
  import opened Wrappers
  import opened Py

  /** The number of comma-separated fields of a valid record. */
  const FieldCount: nat := 13

  datatype DecodeError =
    | FieldCountError(segments: nat)  // the text does not split into 13 segments
    | FieldFormatError(item: string)  // the first segment that does not split into two colon parts

  /** A segment of the form `key:value`: it splits into exactly two parts on `:`. */
  predicate IsField(segment: string)
  {
    |Split(segment, ':')| == 2
  }

  /** The position of the first segment that is not `key:value`, if any. */
  function FirstMalformed(segments: seq<string>): (k: Option<nat>)
    ensures k.None? <==> forall i | 0 <= i < |segments| :: IsField(segments[i])
    ensures k.Some? ==> k.value < |segments| && !IsField(segments[k.value])
    ensures k.Some? ==> forall i | 0 <= i < k.value :: IsField(segments[i])
  {
    MalformedFrom(segments, 0)
  }

  /** The position of the first segment from `start` on that is not `key:value`, if any. */
  function MalformedFrom(segments: seq<string>, start: nat): (k: Option<nat>)
    requires start <= |segments|
    ensures k.None? <==> forall i | start <= i < |segments| :: IsField(segments[i])
    ensures k.Some? ==> start <= k.value < |segments| && !IsField(segments[k.value])
    ensures k.Some? ==> forall i | start <= i < k.value :: IsField(segments[i])
    decreases |segments| - start
  {
    if start == |segments| then None
    else if !IsField(segments[start]) then Some(start)
    else MalformedFrom(segments, start + 1)
  }

  /** The decoding rule: 13 segments, each exactly `key:value`; the values in order. */
  function Decode(raw: string): (r: Result<seq<string>, DecodeError>)
    ensures r.Success? ==> |r.value| == FieldCount && |raw| >= FieldCount - 1
  {
    var segments := Split(raw, ',');
    if |segments| != FieldCount then Failure(FieldCountError(|segments|))
    else match FirstMalformed(segments)
      case Some(k) => Failure(FieldFormatError(segments[k]))
      case None => Success(ValuesOf(segments))
  }

  /** The part after the colon of each `key:value` segment. */
  function ValuesOf(segments: seq<string>): (values: seq<string>)
    requires forall i | 0 <= i < |segments| :: IsField(segments[i])
    ensures |values| == |segments|
    ensures forall i | 0 <= i < |segments| :: IsField(segments[i]) && values[i] == Split(segments[i], ':')[1]
  {
    seq(|segments|, i requires 0 <= i < |segments| => assert IsField(segments[i]); Split(segments[i], ':')[1])
  }

  /** The parsing loop of `read_characteristic`: values are appended one segment at a time. */
  method ParseFields(raw: string) returns (r: Result<seq<string>, DecodeError>)
    ensures r == Decode(raw)
  {
    var dataList := Split(raw, ',');
    if |dataList| != FieldCount {
      return Failure(FieldCountError(|dataList|));
    }
    var result: seq<string> := [];
    for i := 0 to |dataList|
      invariant |result| == i
      invariant forall j | 0 <= j < i :: IsField(dataList[j]) && result[j] == Split(dataList[j], ':')[1]
    {
      var keyValue := Split(dataList[i], ':');
      if |keyValue| == 2 {
        result := result + [keyValue[1]];
      } else {
        assert FirstMalformed(dataList) == Some(i);
        return Failure(FieldFormatError(dataList[i]));
      }
    }
    assert result == ValuesOf(dataList);
    return Success(result);
  }

  /**
   * A record is accepted exactly when the text holds 12 commas and every one of the 13
   * segments holds exactly one colon.
   */
  lemma DecodeAcceptsIff(raw: string)
    ensures Decode(raw).Success? <==>
      Count(raw, ',') == FieldCount - 1 &&
      forall i | 0 <= i < FieldCount :: Count(Split(raw, ',')[i], ':') == 1
  {
    if Decode(raw).Success? {
      AcceptedFields(raw);
    } else if Count(raw, ',') == FieldCount - 1 {
      var k := FirstMalformed(Split(raw, ',')).value;
      assert Count(Split(raw, ',')[k], ':') != 1;
    }
  }

  lemma AcceptedFields(raw: string)
    requires Decode(raw).Success?
    ensures Count(raw, ',') == FieldCount - 1
    ensures forall i | 0 <= i < FieldCount :: Count(Split(raw, ',')[i], ':') == 1
  {
  }

  /** An accepted record has 13 values, value i being the text after the colon of segment i. */
  lemma DecodeValues(raw: string)
    requires Decode(raw).Success?
    ensures |Decode(raw).value| == FieldCount
    ensures forall i | 0 <= i < FieldCount ::
      ':' in Split(raw, ',')[i] && Decode(raw).value[i] == After(Split(raw, ',')[i], ':')
  {
    var segments := Split(raw, ',');
    forall i | 0 <= i < FieldCount
      ensures ':' in segments[i] && Decode(raw).value[i] == After(segments[i], ':')
    {
      var segment := segments[i];
      SplitFirst(segment, ':');
      SplitWithoutSeparator(After(segment, ':'), ':');
    }
  }

  /** A segment with no colon, or with two or more, rejects the whole record. */
  lemma MalformedSegmentRejects(raw: string, i: nat)
    requires i < |Split(raw, ',')|
    requires Count(Split(raw, ',')[i], ':') != 1
    ensures Decode(raw).Failure?
  {
  }

  /** The `key:value` segments for the given keys and values. */
  function Segments(keys: seq<string>, values: seq<string>): (segments: seq<string>)
    requires |keys| == |values|
    ensures |segments| == |keys|
    ensures forall i | 0 <= i < |keys| :: segments[i] == keys[i] + [':'] + values[i]
  {
    seq(|keys|, i requires 0 <= i < |keys| => keys[i] + [':'] + values[i])
  }

  /** The text a device sends for the given keys and values. */
  function Encode(keys: seq<string>, values: seq<string>): string
    requires |keys| == |values|
  {
    Join(Segments(keys, values), ',')
  }

  /** Keys and values free of `,` and `:` survive a round trip through the record text. */
  lemma EncodeDecode(keys: seq<string>, values: seq<string>)
    requires |keys| == |values| == FieldCount
    requires forall k <- keys :: ',' !in k && ':' !in k
    requires forall v <- values :: ',' !in v && ':' !in v
    ensures Decode(Encode(keys, values)) == Success(values)
  {
    var segments := Segments(keys, values);
    forall i | 0 <= i < FieldCount
      ensures ',' !in segments[i]
      ensures Split(segments[i], ':') == [keys[i], values[i]]
    {
      assert keys[i] in keys && values[i] in values;
      SegmentParts(keys[i], values[i]);
    }
    SplitJoin(segments, ',');
    assert FirstMalformed(segments).None?;
    assert ValuesOf(segments) == values;
  }

  lemma SegmentParts(key: string, value: string)
    requires ',' !in key && ':' !in key
    requires ',' !in value && ':' !in value
    ensures ',' !in key + [':'] + value
    ensures Split(key + [':'] + value, ':') == [key, value]
  {
    SplitAtSeparator(key, value, ':');
    SplitWithoutSeparator(value, ':');
  }

  /** The keys of a 13-segment text: the text before the first colon of each segment. */
  function Keys(raw: string): (keys: seq<string>)
    requires |Split(raw, ',')| == FieldCount
    ensures |keys| == FieldCount
    ensures forall i | 0 <= i < FieldCount :: keys[i] == Before(Split(raw, ',')[i], ':')
  {
    var segments := Split(raw, ',');
    seq(FieldCount, i requires 0 <= i < FieldCount => Before(segments[i], ':'))
  }

  /** The text of an accepted record is determined by its keys and its values. */
  lemma DecodeDetermines(raw: string)
    requires Decode(raw).Success?
    ensures raw == Encode(Keys(raw), Decode(raw).value)
  {
    var segments := Split(raw, ',');
    var values := Decode(raw).value;
    DecodeValues(raw);
    var rebuilt := Segments(Keys(raw), values);
    forall i | 0 <= i < FieldCount
      ensures rebuilt[i] == segments[i]
    {
      assert segments[i] == Before(segments[i], ':') + [':'] + After(segments[i], ':');
    }
    assert rebuilt == segments;
    JoinSplit(raw, ',');
  }
}
