/**
 * DepsSerializers: the counted loops that write, read and size Deps and
 * PartialDeps, each proved to write, read or size exactly the layout that
 * DepsWire defines. The round trips proved there then carry over to these
 * methods: what Serialize writes, Deserialize reads back.
 *
 * The range serializer is TokenRange's, the one the static initialiser plugs
 * in; the protocol version is not modelled (no branch depends on it).
 */
module DepsSerializers {
  import opened Wire
  import opened AccordPrimitives
  import opened TokenRanges
  import opened KeySerializers
  import opened AccordDeps
  import opened DepsWire
  import opened Streams

  // ---------------------------------------------------------------------------
  // serialize

  method SerializeKeyDepsWithoutKeys(kd: KeyDeps, out: DataOutput)
    modifies out
    ensures out.written == old(out.written) + EncodeKeyDepsBody(kd)
  {
    ghost var before := out.written;
    out.Write(EncodeVInt(|kd.txnIds|));
    out.WriteEach(EncodeTxnId, kd.txnIds);
    out.Write(EncodeVInt(|kd.keysToTxnIds|));
    out.WriteEach(EncodeVInt, kd.keysToTxnIds);
    AppendFour(before, EncodeVInt(|kd.txnIds|), ConcatMap(EncodeTxnId, kd.txnIds),
               EncodeVInt(|kd.keysToTxnIds|), ConcatMap(EncodeVInt, kd.keysToTxnIds));
  }

  /** The rangeDeps block of serializeWithoutKeys. */
  method SerializeRangeDeps(rd: RangeDeps, out: DataOutput)
    modifies out
    ensures out.written == old(out.written) + EncodeRangeDeps(rd)
  {
    ghost var before := out.written;
    out.Write(EncodeVInt(|rd.ranges|));
    out.WriteEach(Serialize, rd.ranges);
    ghost var rangesPart := out.written;
    out.Write(EncodeVInt(|rd.txnIds|));
    out.WriteEach(EncodeTxnId, rd.txnIds);
    out.Write(EncodeVInt(|rd.rangesToTxnIds|));
    out.WriteEach(EncodeVInt, rd.rangesToTxnIds);
    AppendFour(rangesPart, EncodeVInt(|rd.txnIds|), ConcatMap(EncodeTxnId, rd.txnIds),
               EncodeVInt(|rd.rangesToTxnIds|), ConcatMap(EncodeVInt, rd.rangesToTxnIds));
    AppendSix(before, EncodeVInt(|rd.ranges|), ConcatMap(Serialize, rd.ranges),
              EncodeVInt(|rd.txnIds|), ConcatMap(EncodeTxnId, rd.txnIds),
              EncodeVInt(|rd.rangesToTxnIds|), ConcatMap(EncodeVInt, rd.rangesToTxnIds));
  }

  /** The directKeyDeps block of serializeWithoutKeys: flag, keys as the flag says, body. */
  method SerializeDirectKeyDeps(d: Deps, out: DataOutput)
    modifies out
    ensures out.written == old(out.written) + EncodeDirectKeyDeps(d)
  {
    ghost var before := out.written;
    var keys := d.directKeyDeps.keys;
    var isSubset := IsSubset(keys, d.keyDeps.keys);
    out.Write(EncodeBoolean(isSubset));
    if isSubset {
      out.Write(EncodeSubset(keys, d.keyDeps.keys));
    } else {
      out.Write(EncodeRoutingKeys(keys));
    }
    assert out.written == before + EncodeBoolean(isSubset) + EncodeDirectKeys(isSubset, keys, d.keyDeps.keys);
    SerializeKeyDepsWithoutKeys(d.directKeyDeps, out);
    AppendThree(before, EncodeBoolean(isSubset), EncodeDirectKeys(isSubset, keys, d.keyDeps.keys), EncodeKeyDepsBody(d.directKeyDeps));
  }

  method SerializeWithoutKeys(d: Deps, out: DataOutput)
    modifies out
    ensures out.written == old(out.written) + EncodeWithoutKeys(d)
  {
    ghost var before := out.written;
    SerializeKeyDepsWithoutKeys(d.keyDeps, out);
    SerializeRangeDeps(d.rangeDeps, out);
    SerializeDirectKeyDeps(d, out);
    AppendThree(before, EncodeKeyDepsBody(d.keyDeps), EncodeRangeDeps(d.rangeDeps), EncodeDirectKeyDeps(d));
  }

  method SerializeDeps(d: Deps, out: DataOutput)
    modifies out
    ensures out.written == old(out.written) + EncodeDeps(d)
  {
    ghost var before := out.written;
    out.Write(EncodeRoutingKeys(d.keyDeps.keys));
    SerializeWithoutKeys(d, out);
    AppendTwo(before, EncodeRoutingKeys(d.keyDeps.keys), EncodeWithoutKeys(d));
  }

  method SerializeDepsWithSuperset(superset: Unseekables, d: Deps, out: DataOutput)
    modifies out
    ensures out.written == old(out.written) + EncodeDepsWithSuperset(superset, d)
  {
    ghost var before := out.written;
    if DomainOf(superset) == KeyDomain {
      out.Write(EncodeSubset(d.keyDeps.keys, superset.keys));
    } else {
      out.Write(EncodeRoutingKeys(d.keyDeps.keys));
    }
    assert out.written == before + EncodeKeysAgainst(superset, d.keyDeps.keys);
    SerializeWithoutKeys(d, out);
    AppendTwo(before, EncodeKeysAgainst(superset, d.keyDeps.keys), EncodeWithoutKeys(d));
  }

  /** The partialDeps override: the Deps encoding, then `covering`. */
  method SerializePartialDeps(pd: PartialDeps, out: DataOutput)
    modifies out
    ensures out.written == old(out.written) + EncodePartialDeps(pd)
  {
    ghost var before := out.written;
    SerializeDeps(pd.deps, out);
    out.Write(EncodeParticipants(pd.covering));
    AppendTwo(before, EncodeDeps(pd.deps), EncodeParticipants(pd.covering));
  }

  method SerializePartialDepsWithSuperset(superset: Unseekables, pd: PartialDeps, out: DataOutput)
    modifies out
    ensures out.written == old(out.written) + EncodePartialDepsWithSuperset(superset, pd)
  {
    ghost var before := out.written;
    SerializeDepsWithSuperset(superset, pd.deps, out);
    out.Write(EncodeParticipants(pd.covering));
    AppendTwo(before, EncodeDepsWithSuperset(superset, pd.deps), EncodeParticipants(pd.covering));
  }

  // ---------------------------------------------------------------------------
  // deserialize

  /** deserializeKeyDeps: both arrays are read, then KeyDeps is built around the given keys. */
  method DeserializeKeyDeps(keys: seq<RoutingKey>, input: DataInput) returns (r: Result<KeyDeps>)
    modifies input
    ensures Follows(r, DecodeKeyDepsBody(keys, old(input.remaining)), input.remaining)
  {
    var txnIdCount :- input.Read(ReadCount);
    var txnIds :- input.ReadEach(DecodeTxnId, txnIdCount);
    var keysToTxnIdsCount :- input.Read(ReadCount);
    var keysToTxnIds :- input.ReadEach(ReadUnsignedVInt32, keysToTxnIdsCount);
    r := Ok(KeyDeps(keys, txnIds, keysToTxnIds));
  }

  /** The rangeDeps block of deserializeWithoutKeys. */
  method DeserializeRangeDeps(input: DataInput) returns (r: Result<RangeDeps>)
    modifies input
    ensures Follows(r, DecodeRangeDeps(old(input.remaining)), input.remaining)
  {
    var rangeCount :- input.Read(ReadCount);
    var ranges :- input.ReadEach(Deserialize, rangeCount);
    var txnIdCount :- input.Read(ReadCount);
    var txnIds :- input.ReadEach(DecodeTxnId, txnIdCount);
    var rangesToTxnIdsCount :- input.Read(ReadCount);
    var rangesToTxnIds :- input.ReadEach(ReadUnsignedVInt32, rangesToTxnIdsCount);
    r := Ok(RangeDeps(ranges, txnIds, rangesToTxnIds));
  }

  /** The directKeyDeps block of deserializeWithoutKeys. */
  method DeserializeDirectKeyDeps(keys: seq<RoutingKey>, input: DataInput) returns (r: Result<KeyDeps>)
    modifies input
    ensures Follows(r, DecodeDirectKeyDeps(keys, old(input.remaining)), input.remaining)
  {
    var isSubset :- input.Read(DecodeBoolean);
    var directKeys;
    if isSubset {
      directKeys :- input.Read(s => DecodeSubset(keys, s));
    } else {
      directKeys :- input.Read(DecodeRoutingKeys);
    }
    r := DeserializeKeyDeps(directKeys, input);
  }

  method DeserializeWithoutKeys(keys: seq<RoutingKey>, input: DataInput) returns (r: Result<Deps>)
    modifies input
    ensures Follows(r, DecodeWithoutKeys(keys, old(input.remaining)), input.remaining)
  {
    var keyDeps :- DeserializeKeyDeps(keys, input);
    var rangeDeps :- DeserializeRangeDeps(input);
    var directKeyDeps :- DeserializeDirectKeyDeps(keys, input);
    r := Ok(Deps(keyDeps, rangeDeps, directKeyDeps));
  }

  method DeserializeDeps(input: DataInput) returns (r: Result<Deps>)
    modifies input
    ensures Follows(r, DecodeDeps(old(input.remaining)), input.remaining)
  {
    var keys :- input.Read(DecodeRoutingKeys);
    r := DeserializeWithoutKeys(keys, input);
  }

  method DeserializeDepsWithSuperset(superset: Unseekables, input: DataInput) returns (r: Result<Deps>)
    modifies input
    ensures Follows(r, DecodeDepsWithSuperset(superset, old(input.remaining)), input.remaining)
  {
    var keys;
    if DomainOf(superset) == KeyDomain {
      keys :- input.Read(s => DecodeSubset(superset.keys, s));
    } else {
      keys :- input.Read(DecodeRoutingKeys);
    }
    r := DeserializeWithoutKeys(keys, input);
  }

  /** The partialDeps hook: after the Deps fields, `covering` is read. */
  method DeserializePartialDeps(input: DataInput) returns (r: Result<PartialDeps>)
    modifies input
    ensures Follows(r, DecodePartialDeps(old(input.remaining)), input.remaining)
  {
    var deps :- DeserializeDeps(input);
    var covering :- input.Read(DecodeParticipants);
    r := Ok(PartialDeps(covering, deps));
  }

  method DeserializePartialDepsWithSuperset(superset: Unseekables, input: DataInput) returns (r: Result<PartialDeps>)
    modifies input
    ensures Follows(r, DecodePartialDepsWithSuperset(superset, old(input.remaining)), input.remaining)
  {
    var deps :- DeserializeDepsWithSuperset(superset, input);
    var covering :- input.Read(DecodeParticipants);
    r := Ok(PartialDeps(covering, deps));
  }

  // ---------------------------------------------------------------------------
  // serializedSize: computed apart from the bytes, and equal to their number

  lemma TxnIdSizes()
    ensures forall id :: |EncodeTxnId(id)| == TxnIdSize(id)
  {
    forall id: TxnId ensures |EncodeTxnId(id)| == TxnIdSize(id) {
      TxnIdSizeIsLength(id);
    }
  }

  lemma VIntSizes()
    ensures forall n :: |EncodeVInt(n)| == SizeofUnsignedVInt(n)
  {
    forall n: nat ensures |EncodeVInt(n)| == SizeofUnsignedVInt(n) {
      VIntSize(n);
    }
  }

  lemma RangeSizes()
    ensures forall r :: |Serialize(r)| == SerializedSize(r)
  {
    forall r: TokenRange ensures |Serialize(r)| == SerializedSize(r) {
      assert SerializedSize(r) == |Serialize(r)|;
    }
  }

  method SerializedSizeOfKeyDepsWithoutKeys(kd: KeyDeps) returns (size: nat)
    ensures size == |EncodeKeyDepsBody(kd)|
  {
    TxnIdSizes();
    VIntSizes();
    size := SizeofUnsignedVInt(|kd.txnIds|);
    var txnIdsSize := SizeEach(EncodeTxnId, TxnIdSize, kd.txnIds);
    size := size + txnIdsSize;
    size := size + SizeofUnsignedVInt(|kd.keysToTxnIds|);
    var mappingSize := SizeEach(EncodeVInt, SizeofUnsignedVInt, kd.keysToTxnIds);
    size := size + mappingSize;
  }

  /** The rangeDeps block of serializedSizeWithoutKeys. */
  method SerializedSizeOfRangeDeps(rd: RangeDeps) returns (size: nat)
    ensures size == |EncodeRangeDeps(rd)|
  {
    RangeSizes();
    TxnIdSizes();
    VIntSizes();
    size := SizeofUnsignedVInt(|rd.ranges|);
    var rangesSize := SizeEach(Serialize, SerializedSize, rd.ranges);
    size := size + rangesSize;
    size := size + SizeofUnsignedVInt(|rd.txnIds|);
    var txnIdsSize := SizeEach(EncodeTxnId, TxnIdSize, rd.txnIds);
    size := size + txnIdsSize;
    size := size + SizeofUnsignedVInt(|rd.rangesToTxnIds|);
    var mappingSize := SizeEach(EncodeVInt, SizeofUnsignedVInt, rd.rangesToTxnIds);
    size := size + mappingSize;
  }

  /** The directKeyDeps block of serializedSizeWithoutKeys: one byte for the flag, then keys and body. */
  method SerializedSizeOfDirectKeyDeps(d: Deps) returns (size: nat)
    ensures size == |EncodeDirectKeyDeps(d)|
  {
    var keys := d.directKeyDeps.keys;
    var isSubset := IsSubset(keys, d.keyDeps.keys);
    size := 1;
    if isSubset {
      SubsetSizeIsLength(keys, d.keyDeps.keys);
      size := size + SerializedSubsetSize(keys, d.keyDeps.keys);
    } else {
      RoutingKeysSizeIsLength(keys);
      size := size + RoutingKeysSize(keys);
    }
    var bodySize := SerializedSizeOfKeyDepsWithoutKeys(d.directKeyDeps);
    size := size + bodySize;
  }

  method SerializedSizeWithoutKeys(d: Deps) returns (size: nat)
    ensures size == |EncodeWithoutKeys(d)|
  {
    size := SerializedSizeOfKeyDepsWithoutKeys(d.keyDeps);
    var rangeSize := SerializedSizeOfRangeDeps(d.rangeDeps);
    size := size + rangeSize;
    var directSize := SerializedSizeOfDirectKeyDeps(d);
    size := size + directSize;
  }

  method SerializedSizeDeps(d: Deps) returns (size: nat)
    ensures size == |EncodeDeps(d)|
  {
    RoutingKeysSizeIsLength(d.keyDeps.keys);
    size := RoutingKeysSize(d.keyDeps.keys);
    var rest := SerializedSizeWithoutKeys(d);
    size := size + rest;
  }

  method SerializedSizeDepsWithSuperset(superset: Unseekables, d: Deps) returns (size: nat)
    ensures size == |EncodeDepsWithSuperset(superset, d)|
  {
    if DomainOf(superset) == KeyDomain {
      SubsetSizeIsLength(d.keyDeps.keys, superset.keys);
      size := SerializedSubsetSize(d.keyDeps.keys, superset.keys);
    } else {
      RoutingKeysSizeIsLength(d.keyDeps.keys);
      size := RoutingKeysSize(d.keyDeps.keys);
    }
    var rest := SerializedSizeWithoutKeys(d);
    size := size + rest;
  }

  method SerializedSizePartialDeps(pd: PartialDeps) returns (size: nat)
    ensures size == |EncodePartialDeps(pd)|
  {
    size := SerializedSizeDeps(pd.deps);
    ParticipantsSizeIsLength(pd.covering);
    size := size + ParticipantsSize(pd.covering);
  }

  method SerializedSizePartialDepsWithSuperset(superset: Unseekables, pd: PartialDeps) returns (size: nat)
    ensures size == |EncodePartialDepsWithSuperset(superset, pd)|
  {
    size := SerializedSizeDepsWithSuperset(superset, pd.deps);
    ParticipantsSizeIsLength(pd.covering);
    size := size + ParticipantsSize(pd.covering);
  }

  // ---------------------------------------------------------------------------
  // The methods together: a Deps written to a fresh stream and read back

  method RoundTripDeps(d: Deps) returns (r: Result<Deps>, written: seq<byte>, size: nat)
    requires WireDeps(d)
    ensures r == Ok(d)
    ensures size == |written|
  {
    var out := new DataOutput();
    SerializeDeps(d, out);
    written := out.written;
    assert written == EncodeDeps(d);
    size := SerializedSizeDeps(d);
    DepsRoundTrip(d, []);
    assert EncodeDeps(d) + [] == EncodeDeps(d);
    assert DecodeDeps(written) == Ok((d, []));
    var input := new DataInput(written);
    r := DeserializeDeps(input);
  }

  /** The same for a PartialDeps written against a superset its keys lie in. */
  method RoundTripPartialDepsWithSuperset(superset: Unseekables, pd: PartialDeps)
    returns (r: Result<PartialDeps>, written: seq<byte>, size: nat)
    requires WirePartialDeps(pd) && KeysWithin(superset, pd.deps)
    ensures r == Ok(pd)
    ensures size == |written|
  {
    var out := new DataOutput();
    SerializePartialDepsWithSuperset(superset, pd, out);
    written := out.written;
    assert written == EncodePartialDepsWithSuperset(superset, pd);
    size := SerializedSizePartialDepsWithSuperset(superset, pd);
    PartialDepsWithSupersetRoundTrip(superset, pd, []);
    assert written + [] == written;
    assert DecodePartialDepsWithSuperset(superset, written) == Ok((pd, []));
    var input := new DataInput(written);
    r := DeserializePartialDepsWithSuperset(superset, input);
  }
}
