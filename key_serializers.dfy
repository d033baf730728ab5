/**
 * The key-set serializers the dependency codec delegates to:
 * KeySerializers.routingKeys (a full key list), serializeSubset /
 * deserializeSubset (a key list given by positions in a superset both sides
 * already hold) and KeySerializers.participants (the `covering` of a
 * PartialDeps). Their byte layouts live outside the modelled files; the ones
 * here are stand-ins, and the dependency codec uses only the round-trip and
 * size lemmas proved about them.
 */
module KeySerializers {
  import opened Wire
  import opened AccordPrimitives
  import opened TokenRanges

  /** A superset passed to the superset-relative serializers: keys or ranges (its domain). */
  datatype Unseekables =
    | KeyUnseekables(keys: seq<RoutingKey>)
    | RangeUnseekables(ranges: seq<TokenRange>)

  datatype Domain = KeyDomain | RangeDomain

  function DomainOf(u: Unseekables): (d: Domain)
    ensures d == KeyDomain <==> u.KeyUnseekables?
  {
    if u.KeyUnseekables? then KeyDomain else RangeDomain
  }

  /** PartialDeps.covering: the keys or ranges a PartialDeps is known to describe. */
  datatype Participants =
    | KeyParticipants(keys: seq<RoutingKey>)
    | RangeParticipants(ranges: seq<TokenRange>)

  // ---------------------------------------------------------------------------
  // routingKeys: count, then each key

  function EncodeRoutingKeys(keys: seq<RoutingKey>): seq<byte>
  {
    EncodeVInt(|keys|) + ConcatMap(EncodeRoutingKey, keys)
  }

  function DecodeRoutingKeys(s: seq<byte>): Decoded<seq<RoutingKey>>
  {
    var n :- DecodeVInt(s);
    DecodeRun(DecodeRoutingKey, n.0, n.1)
  }

  function RoutingKeysSize(keys: seq<RoutingKey>): nat
  {
    SizeofUnsignedVInt(|keys|) + SumMap(RoutingKeySize, keys)
  }

  lemma RoutingKeyRunRoundTrip(keys: seq<RoutingKey>, rest: seq<byte>)
    ensures DecodeRun(DecodeRoutingKey, |keys|, ConcatMap(EncodeRoutingKey, keys) + rest) == Ok((keys, rest))
  {
    forall i, tail | 0 <= i < |keys|
      ensures DecodeRoutingKey(EncodeRoutingKey(keys[i]) + tail) == Ok((keys[i], tail))
    {
      RoutingKeyRoundTrip(keys[i], tail);
    }
    DecodeRunRoundTrip(EncodeRoutingKey, DecodeRoutingKey, keys, rest);
  }

  lemma RoutingKeysRoundTrip(keys: seq<RoutingKey>, rest: seq<byte>)
    ensures DecodeRoutingKeys(EncodeRoutingKeys(keys) + rest) == Ok((keys, rest))
  {
    var body := ConcatMap(EncodeRoutingKey, keys) + rest;
    assert EncodeRoutingKeys(keys) + rest == EncodeVInt(|keys|) + body;
    VIntRoundTrip(|keys|, body);
    RoutingKeyRunRoundTrip(keys, rest);
  }

  lemma RoutingKeysSizeIsLength(keys: seq<RoutingKey>)
    ensures |EncodeRoutingKeys(keys)| == RoutingKeysSize(keys)
  {
    VIntSize(|keys|);
    forall k: RoutingKey ensures |EncodeRoutingKey(k)| == RoutingKeySize(k) {
      RoutingKeySizeIsLength(k);
    }
    ConcatMapLength(EncodeRoutingKey, RoutingKeySize, keys);
  }

  // ---------------------------------------------------------------------------
  // Subset encoding: count, then each key's position in the superset

  /** The first position of k in the superset, or |superset| when it is absent. */
  function IndexOf(superset: seq<RoutingKey>, k: RoutingKey): (i: nat)
    ensures i <= |superset|
    ensures i < |superset| <==> k in superset
    ensures i < |superset| ==> superset[i] == k
    decreases |superset|
  {
    if |superset| == 0 then 0
    else if superset[0] == k then 0
    else 1 + IndexOf(superset[1..], k)
  }

  function EncodePositions(subset: seq<RoutingKey>, superset: seq<RoutingKey>): seq<byte>
    decreases |subset|
  {
    if |subset| == 0 then []
    else EncodeVInt(IndexOf(superset, subset[0])) + EncodePositions(subset[1..], superset)
  }

  function EncodeSubset(subset: seq<RoutingKey>, superset: seq<RoutingKey>): seq<byte>
  {
    EncodeVInt(|subset|) + EncodePositions(subset, superset)
  }

  function DecodePositions(n: nat, superset: seq<RoutingKey>, s: seq<byte>): (r: Decoded<seq<RoutingKey>>)
    ensures r.Ok? ==> |r.value.0| == n
    ensures r.Ok? ==> forall i :: 0 <= i < n ==> r.value.0[i] in superset
    decreases n
  {
    if n == 0 then Ok(([], s))
    else
      var p :- DecodeVInt(s);
      if p.0 >= |superset| then Err(SubsetPositionOutOfRange)
      else
        var tail :- DecodePositions(n - 1, superset, p.1);
        Ok(([superset[p.0]] + tail.0, tail.1))
  }

  function DecodeSubset(superset: seq<RoutingKey>, s: seq<byte>): Decoded<seq<RoutingKey>>
  {
    var n :- DecodeVInt(s);
    DecodePositions(n.0, superset, n.1)
  }

  function PositionsSize(subset: seq<RoutingKey>, superset: seq<RoutingKey>): nat
    decreases |subset|
  {
    if |subset| == 0 then 0
    else SizeofUnsignedVInt(IndexOf(superset, subset[0])) + PositionsSize(subset[1..], superset)
  }

  function SerializedSubsetSize(subset: seq<RoutingKey>, superset: seq<RoutingKey>): nat
  {
    SizeofUnsignedVInt(|subset|) + PositionsSize(subset, superset)
  }

  lemma {:induction false} PositionsRoundTrip(subset: seq<RoutingKey>, superset: seq<RoutingKey>, rest: seq<byte>)
    requires forall i :: 0 <= i < |subset| ==> subset[i] in superset
    ensures DecodePositions(|subset|, superset, EncodePositions(subset, superset) + rest) == Ok((subset, rest))
    decreases |subset|
  {
    if |subset| > 0 {
      var p := IndexOf(superset, subset[0]);
      var tail := EncodePositions(subset[1..], superset) + rest;
      assert EncodePositions(subset, superset) + rest == EncodeVInt(p) + tail;
      VIntRoundTrip(p, tail);
      PositionsRoundTrip(subset[1..], superset, rest);
      assert DecodePositions(|subset|, superset, EncodeVInt(p) + tail)
          == Ok(([superset[p]] + subset[1..], rest));
      assert [subset[0]] + subset[1..] == subset;
    } else {
      assert EncodePositions(subset, superset) + rest == rest;
    }
  }

  /** A subset comes back from its positions, provided every element really is in the superset. */
  lemma SubsetRoundTrip(subset: seq<RoutingKey>, superset: seq<RoutingKey>, rest: seq<byte>)
    requires forall i :: 0 <= i < |subset| ==> subset[i] in superset
    ensures DecodeSubset(superset, EncodeSubset(subset, superset) + rest) == Ok((subset, rest))
  {
    var body := EncodePositions(subset, superset) + rest;
    assert EncodeSubset(subset, superset) + rest == EncodeVInt(|subset|) + body;
    VIntRoundTrip(|subset|, body);
    PositionsRoundTrip(subset, superset, rest);
  }

  lemma {:induction false} PositionsSizeIsLength(subset: seq<RoutingKey>, superset: seq<RoutingKey>)
    ensures |EncodePositions(subset, superset)| == PositionsSize(subset, superset)
    decreases |subset|
  {
    if |subset| > 0 {
      VIntSize(IndexOf(superset, subset[0]));
      PositionsSizeIsLength(subset[1..], superset);
    }
  }

  lemma SubsetSizeIsLength(subset: seq<RoutingKey>, superset: seq<RoutingKey>)
    ensures |EncodeSubset(subset, superset)| == SerializedSubsetSize(subset, superset)
  {
    VIntSize(|subset|);
    PositionsSizeIsLength(subset, superset);
  }

  // ---------------------------------------------------------------------------
  // participants: kind byte, then the keys or the ranges

  function EncodeParticipants(p: Participants): seq<byte>
  {
    match p
    case KeyParticipants(keys) => [0 as byte] + EncodeRoutingKeys(keys)
    case RangeParticipants(ranges) => [1 as byte] + EncodeVInt(|ranges|) + ConcatMap(Serialize, ranges)
  }

  function DecodeParticipants(s: seq<byte>): Decoded<Participants>
  {
    if |s| == 0 then Err(Truncated)
    else if s[0] == 0 then
      var keys :- DecodeRoutingKeys(s[1..]);
      Ok((KeyParticipants(keys.0), keys.1))
    else if s[0] == 1 then
      var n :- DecodeVInt(s[1..]);
      var ranges :- DecodeRun(Deserialize, n.0, n.1);
      Ok((RangeParticipants(ranges.0), ranges.1))
    else Err(UnknownTag)
  }

  function ParticipantsSize(p: Participants): nat
  {
    match p
    case KeyParticipants(keys) => 1 + RoutingKeysSize(keys)
    case RangeParticipants(ranges) => 1 + SizeofUnsignedVInt(|ranges|) + SumMap(SerializedSize, ranges)
  }

  /** What a covering must satisfy to survive the range re-validation on the way back. */
  predicate WireParticipants(p: Participants)
  {
    p.RangeParticipants? ==> forall i :: 0 <= i < |p.ranges| ==> SameTable(p.ranges[i])
  }

  lemma ParticipantsRoundTrip(p: Participants, rest: seq<byte>)
    requires WireParticipants(p)
    ensures DecodeParticipants(EncodeParticipants(p) + rest) == Ok((p, rest))
  {
    match p
    case KeyParticipants(keys) =>
      var tail := EncodeRoutingKeys(keys) + rest;
      var s := [0 as byte] + tail;
      assert EncodeParticipants(p) + rest == s;
      assert s[0] == 0 && s[1..] == tail;
      RoutingKeysRoundTrip(keys, rest);
    case RangeParticipants(ranges) =>
      var body := ConcatMap(Serialize, ranges) + rest;
      var tail := EncodeVInt(|ranges|) + body;
      var s := [1 as byte] + tail;
      assert EncodeParticipants(p) + rest == s;
      assert s[0] == 1 && s[1..] == tail;
      VIntRoundTrip(|ranges|, body);
      TokenRangesRoundTrip(ranges, rest);
  }

  lemma ParticipantsSizeIsLength(p: Participants)
    ensures |EncodeParticipants(p)| == ParticipantsSize(p)
  {
    match p
    case KeyParticipants(keys) =>
      RoutingKeysSizeIsLength(keys);
    case RangeParticipants(ranges) =>
      VIntSize(|ranges|);
      forall r: TokenRange ensures |Serialize(r)| == SerializedSize(r) {
        assert SerializedSize(r) == |Serialize(r)|;
      }
      ConcatMapLength(Serialize, SerializedSize, ranges);
  }
}
