/**
 * The byte layout of DepsSerializers, as functions: what each serialize path
 * writes, what each deserialize path reads back, and the isSubset fold that
 * picks the encoding of directKeyDeps. The round-trip lemmas here are the
 * properties of the layout; the methods of DepsSerializers, which follow the
 * Java loops, are proved to write, read and size exactly these bytes.
 */
module DepsWire {
  import opened Wire
  import opened AccordPrimitives
  import opened TokenRanges
  import opened KeySerializers
  import opened AccordDeps

  // ---------------------------------------------------------------------------
  // isSubset: fold over the keys of `test` found in `superset`, counting them

  function IntersectionCount(test: seq<RoutingKey>, superset: seq<RoutingKey>): (c: nat)
    ensures c <= |test|
    decreases |test|
  {
    if |test| == 0 then 0
    else (if test[0] in superset then 1 else 0) + IntersectionCount(test[1..], superset)
  }

  /** The count reaches test.size() exactly when every key of test is in superset. */
  lemma {:induction false} FullCountIff(test: seq<RoutingKey>, superset: seq<RoutingKey>)
    ensures IntersectionCount(test, superset) == |test| <==> forall i :: 0 <= i < |test| ==> test[i] in superset
    decreases |test|
  {
    if |test| > 0 {
      FullCountIff(test[1..], superset);
      assert forall i :: 1 <= i < |test| ==> test[i] == test[1..][i - 1];
      if forall i :: 0 <= i < |test| ==> test[i] in superset {
        assert forall j :: 0 <= j < |test[1..]| ==> test[1..][j] == test[j + 1];
      }
    }
  }

  /** isSubset: every key of test occurs in superset. */
  function IsSubset(test: seq<RoutingKey>, superset: seq<RoutingKey>): (b: bool)
    ensures b <==> forall i :: 0 <= i < |test| ==> test[i] in superset
  {
    FullCountIff(test, superset);
    IntersectionCount(test, superset) == |test|
  }

  // ---------------------------------------------------------------------------
  // Runs of transaction ids and of mapping ints


  lemma TxnIdRunRoundTrip(ids: seq<TxnId>, rest: seq<byte>)
    ensures DecodeRun(DecodeTxnId, |ids|, ConcatMap(EncodeTxnId, ids) + rest) == Ok((ids, rest))
  {
    forall i, tail | 0 <= i < |ids|
      ensures DecodeTxnId(EncodeTxnId(ids[i]) + tail) == Ok((ids[i], tail))
    {
      TxnIdRoundTrip(ids[i], tail);
    }
    DecodeRunRoundTrip(EncodeTxnId, DecodeTxnId, ids, rest);
  }

  lemma UInt32RunRoundTrip(vs: seq<nat>, rest: seq<byte>)
    requires forall i :: 0 <= i < |vs| ==> vs[i] < UINT32_LIMIT
    ensures DecodeRun(ReadUnsignedVInt32, |vs|, ConcatMap(EncodeVInt, vs) + rest) == Ok((vs, rest))
  {
    forall i, tail | 0 <= i < |vs|
      ensures ReadUnsignedVInt32(EncodeVInt(vs[i]) + tail) == Ok((vs[i], tail))
    {
      UInt32RoundTrip(vs[i], tail);
    }
    DecodeRunRoundTrip(EncodeVInt, ReadUnsignedVInt32, vs, rest);
  }

  // ---------------------------------------------------------------------------
  // keyDeps body: txnId count, txnIds, mapping count, mapping ints

  function EncodeKeyDepsBody(kd: KeyDeps): seq<byte>
  {
    EncodeVInt(|kd.txnIds|) + ConcatMap(EncodeTxnId, kd.txnIds)
    + EncodeVInt(|kd.keysToTxnIds|) + ConcatMap(EncodeVInt, kd.keysToTxnIds)
  }

  function DecodeKeyDepsBody(keys: seq<RoutingKey>, s: seq<byte>): Decoded<KeyDeps>
  {
    var txnIdCount :- ReadCount(s);
    var txnIds :- DecodeRun(DecodeTxnId, txnIdCount.0, txnIdCount.1);
    var mappingCount :- ReadCount(txnIds.1);
    var mapping :- DecodeRun(ReadUnsignedVInt32, mappingCount.0, mappingCount.1);
    Ok((KeyDeps(keys, txnIds.0, mapping.0), mapping.1))
  }

  lemma KeyDepsBodyRoundTrip(kd: KeyDeps, rest: seq<byte>)
    requires WireKeyDeps(kd)
    ensures DecodeKeyDepsBody(kd.keys, EncodeKeyDepsBody(kd) + rest) == Ok((kd, rest))
  {
    var idCount, ids := EncodeVInt(|kd.txnIds|), ConcatMap(EncodeTxnId, kd.txnIds);
    var mappingCount, mapping := EncodeVInt(|kd.keysToTxnIds|), ConcatMap(EncodeVInt, kd.keysToTxnIds);
    var mappingBytes := mapping + rest;
    var afterIds := mappingCount + mappingBytes;
    var idBytes := ids + afterIds;
    AppendFour(idCount, ids, mappingCount, mapping, rest);
    AppendThree(ids, mappingCount, mapping, rest);
    AppendTwo(mappingCount, mapping, rest);
    CountRoundTrip(|kd.txnIds|, idBytes);
    TxnIdRunRoundTrip(kd.txnIds, afterIds);
    CountRoundTrip(|kd.keysToTxnIds|, mappingBytes);
    UInt32RunRoundTrip(kd.keysToTxnIds, rest);
  }

  // ---------------------------------------------------------------------------
  // rangeDeps: range count, ranges, txnId count, txnIds, mapping count, mapping ints

  function EncodeRangeDeps(rd: RangeDeps): seq<byte>
  {
    EncodeVInt(|rd.ranges|) + ConcatMap(Serialize, rd.ranges)
    + EncodeVInt(|rd.txnIds|) + ConcatMap(EncodeTxnId, rd.txnIds)
    + EncodeVInt(|rd.rangesToTxnIds|) + ConcatMap(EncodeVInt, rd.rangesToTxnIds)
  }

  function DecodeRangeDeps(s: seq<byte>): Decoded<RangeDeps>
  {
    var rangeCount :- ReadCount(s);
    var ranges :- DecodeRun(Deserialize, rangeCount.0, rangeCount.1);
    var txnIdCount :- ReadCount(ranges.1);
    var txnIds :- DecodeRun(DecodeTxnId, txnIdCount.0, txnIdCount.1);
    var mappingCount :- ReadCount(txnIds.1);
    var mapping :- DecodeRun(ReadUnsignedVInt32, mappingCount.0, mappingCount.1);
    Ok((RangeDeps(ranges.0, txnIds.0, mapping.0), mapping.1))
  }

  lemma RangeDepsRoundTrip(rd: RangeDeps, rest: seq<byte>)
    requires WireRangeDeps(rd)
    ensures DecodeRangeDeps(EncodeRangeDeps(rd) + rest) == Ok((rd, rest))
  {
    var rangeCount, ranges := EncodeVInt(|rd.ranges|), ConcatMap(Serialize, rd.ranges);
    var idCount, ids := EncodeVInt(|rd.txnIds|), ConcatMap(EncodeTxnId, rd.txnIds);
    var mappingCount, mapping := EncodeVInt(|rd.rangesToTxnIds|), ConcatMap(EncodeVInt, rd.rangesToTxnIds);
    var mappingBytes := mapping + rest;
    var afterIds := mappingCount + mappingBytes;
    var idBytes := ids + afterIds;
    var afterRanges := idCount + idBytes;
    var rangeBytes := ranges + afterRanges;
    AppendSix(rangeCount, ranges, idCount, ids, mappingCount, mapping, rest);
    AppendFive(ranges, idCount, ids, mappingCount, mapping, rest);
    AppendFour(idCount, ids, mappingCount, mapping, rest);
    AppendThree(ids, mappingCount, mapping, rest);
    AppendTwo(mappingCount, mapping, rest);
    CountRoundTrip(|rd.ranges|, rangeBytes);
    TokenRangesRoundTrip(rd.ranges, afterRanges);
    CountRoundTrip(|rd.txnIds|, idBytes);
    TxnIdRunRoundTrip(rd.txnIds, afterIds);
    CountRoundTrip(|rd.rangesToTxnIds|, mappingBytes);
    UInt32RunRoundTrip(rd.rangesToTxnIds, rest);
  }

  // ---------------------------------------------------------------------------
  // directKeyDeps: subset flag, its keys (positions in keyDeps.keys, or in full), its body

  /** The direct keys as the flag chose: positions in keyDeps' keys, or the full list. */
  function EncodeDirectKeys(isSubset: bool, directKeys: seq<RoutingKey>, keys: seq<RoutingKey>): seq<byte>
  {
    if isSubset then EncodeSubset(directKeys, keys) else EncodeRoutingKeys(directKeys)
  }

  function DecodeDirectKeys(isSubset: bool, keys: seq<RoutingKey>, s: seq<byte>): Decoded<seq<RoutingKey>>
  {
    if isSubset then DecodeSubset(keys, s) else DecodeRoutingKeys(s)
  }

  function EncodeDirectKeyDeps(d: Deps): seq<byte>
  {
    var flag := IsSubset(d.directKeyDeps.keys, d.keyDeps.keys);
    EncodeBoolean(flag)
    + EncodeDirectKeys(flag, d.directKeyDeps.keys, d.keyDeps.keys)
    + EncodeKeyDepsBody(d.directKeyDeps)
  }

  function DecodeDirectKeyDeps(keys: seq<RoutingKey>, s: seq<byte>): Decoded<KeyDeps>
  {
    var flag :- DecodeBoolean(s);
    var directKeys :- DecodeDirectKeys(flag.0, keys, flag.1);
    DecodeKeyDepsBody(directKeys.0, directKeys.1)
  }

  /**
   * The flag byte is set exactly when every direct key is one of keyDeps'
   * keys, so positions are written only for keys the reader can look up.
   */
  lemma SubsetFlagAgreement(d: Deps)
    ensures |EncodeDirectKeyDeps(d)| > 0
    ensures EncodeDirectKeyDeps(d)[0] != 0
        <==> forall i :: 0 <= i < |d.directKeyDeps.keys| ==> d.directKeyDeps.keys[i] in d.keyDeps.keys
  {
  }

  /** Either branch reads back what it wrote, as long as the subset branch is taken only for a subset. */
  lemma DirectKeysRoundTrip(isSubset: bool, directKeys: seq<RoutingKey>, keys: seq<RoutingKey>, rest: seq<byte>)
    requires isSubset ==> IsSubset(directKeys, keys)
    ensures DecodeDirectKeys(isSubset, keys, EncodeDirectKeys(isSubset, directKeys, keys) + rest)
         == Ok((directKeys, rest))
  {
    if isSubset {
      SubsetRoundTrip(directKeys, keys, rest);
    } else {
      RoutingKeysRoundTrip(directKeys, rest);
    }
  }

  /** The decoder reads the flag and takes the branch the encoder took. */
  lemma DirectKeyDepsRoundTrip(d: Deps, rest: seq<byte>)
    requires WireKeyDeps(d.directKeyDeps)
    ensures DecodeDirectKeyDeps(d.keyDeps.keys, EncodeDirectKeyDeps(d) + rest) == Ok((d.directKeyDeps, rest))
  {
    var direct := d.directKeyDeps;
    var flag := IsSubset(direct.keys, d.keyDeps.keys);
    var keys, body := EncodeDirectKeys(flag, direct.keys, d.keyDeps.keys), EncodeKeyDepsBody(direct);
    var bodyBytes := body + rest;
    var keyBytes := keys + bodyBytes;
    AppendThree(EncodeBoolean(flag), keys, body, rest);
    AppendTwo(keys, body, rest);
    BooleanRoundTrip(flag, keyBytes);
    DirectKeysRoundTrip(flag, direct.keys, d.keyDeps.keys, bodyBytes);
    KeyDepsBodyRoundTrip(direct, rest);
  }

  // ---------------------------------------------------------------------------
  // Everything after the keyDeps keys, in the fixed order keyDeps, rangeDeps, directKeyDeps

  function EncodeWithoutKeys(d: Deps): seq<byte>
  {
    EncodeKeyDepsBody(d.keyDeps) + EncodeRangeDeps(d.rangeDeps) + EncodeDirectKeyDeps(d)
  }

  function DecodeWithoutKeys(keys: seq<RoutingKey>, s: seq<byte>): Decoded<Deps>
  {
    var keyDeps :- DecodeKeyDepsBody(keys, s);
    var rangeDeps :- DecodeRangeDeps(keyDeps.1);
    var directKeyDeps :- DecodeDirectKeyDeps(keys, rangeDeps.1);
    Ok((Deps(keyDeps.0, rangeDeps.0, directKeyDeps.0), directKeyDeps.1))
  }

  lemma WithoutKeysRoundTrip(d: Deps, rest: seq<byte>)
    requires WireDeps(d)
    ensures DecodeWithoutKeys(d.keyDeps.keys, EncodeWithoutKeys(d) + rest) == Ok((d, rest))
  {
    var directBytes := EncodeDirectKeyDeps(d) + rest;
    var rangeBytes := EncodeRangeDeps(d.rangeDeps) + directBytes;
    AppendThree(EncodeKeyDepsBody(d.keyDeps), EncodeRangeDeps(d.rangeDeps), EncodeDirectKeyDeps(d), rest);
    AppendTwo(EncodeRangeDeps(d.rangeDeps), EncodeDirectKeyDeps(d), rest);
    KeyDepsBodyRoundTrip(d.keyDeps, rangeBytes);
    RangeDepsRoundTrip(d.rangeDeps, directBytes);
    DirectKeyDepsRoundTrip(d, rest);
    WithoutKeysSteps(d.keyDeps.keys, EncodeKeyDepsBody(d.keyDeps) + rangeBytes, d.keyDeps, rangeBytes,
                     d.rangeDeps, directBytes, d.directKeyDeps, rest);
  }

  /** The three reads of deserializeWithoutKeys, chained. */
  lemma WithoutKeysSteps(keys: seq<RoutingKey>, s: seq<byte>, kd: KeyDeps, s1: seq<byte>,
                         rd: RangeDeps, s2: seq<byte>, dd: KeyDeps, rest: seq<byte>)
    requires DecodeKeyDepsBody(keys, s) == Ok((kd, s1))
    requires DecodeRangeDeps(s1) == Ok((rd, s2))
    requires DecodeDirectKeyDeps(keys, s2) == Ok((dd, rest))
    ensures DecodeWithoutKeys(keys, s) == Ok((Deps(kd, rd, dd), rest))
  {
  }

  // ---------------------------------------------------------------------------
  // Deps: the keyDeps keys in full, or against a caller's superset

  function EncodeDeps(d: Deps): seq<byte>
  {
    EncodeRoutingKeys(d.keyDeps.keys) + EncodeWithoutKeys(d)
  }

  function DecodeDeps(s: seq<byte>): Decoded<Deps>
  {
    var keys :- DecodeRoutingKeys(s);
    DecodeWithoutKeys(keys.0, keys.1)
  }

  /** Positions in the superset when its domain is Key, the full list otherwise. */
  function EncodeKeysAgainst(superset: Unseekables, keys: seq<RoutingKey>): seq<byte>
  {
    if DomainOf(superset) == KeyDomain then EncodeSubset(keys, superset.keys) else EncodeRoutingKeys(keys)
  }

  function DecodeKeysAgainst(superset: Unseekables, s: seq<byte>): Decoded<seq<RoutingKey>>
  {
    if DomainOf(superset) == KeyDomain then DecodeSubset(superset.keys, s) else DecodeRoutingKeys(s)
  }

  function EncodeDepsWithSuperset(superset: Unseekables, d: Deps): seq<byte>
  {
    EncodeKeysAgainst(superset, d.keyDeps.keys) + EncodeWithoutKeys(d)
  }

  function DecodeDepsWithSuperset(superset: Unseekables, s: seq<byte>): Decoded<Deps>
  {
    var keys :- DecodeKeysAgainst(superset, s);
    DecodeWithoutKeys(keys.0, keys.1)
  }

  lemma DepsRoundTrip(d: Deps, rest: seq<byte>)
    requires WireDeps(d)
    ensures DecodeDeps(EncodeDeps(d) + rest) == Ok((d, rest))
  {
    var body := EncodeWithoutKeys(d) + rest;
    AppendTwo(EncodeRoutingKeys(d.keyDeps.keys), EncodeWithoutKeys(d), rest);
    RoutingKeysRoundTrip(d.keyDeps.keys, body);
    WithoutKeysRoundTrip(d, rest);
  }

  /** Given the same superset on both sides, and keys that really lie in it. */
  lemma DepsWithSupersetRoundTrip(superset: Unseekables, d: Deps, rest: seq<byte>)
    requires WireDeps(d) && KeysWithin(superset, d)
    ensures DecodeDepsWithSuperset(superset, EncodeDepsWithSuperset(superset, d) + rest) == Ok((d, rest))
  {
    var body := EncodeWithoutKeys(d) + rest;
    AppendTwo(EncodeKeysAgainst(superset, d.keyDeps.keys), EncodeWithoutKeys(d), rest);
    if DomainOf(superset) == KeyDomain {
      SubsetRoundTrip(d.keyDeps.keys, superset.keys, body);
    } else {
      RoutingKeysRoundTrip(d.keyDeps.keys, body);
    }
    WithoutKeysRoundTrip(d, rest);
  }

  /** A range-domain superset changes nothing: the keys are written in full, as without one. */
  lemma RangeSupersetIsPlain(ranges: seq<TokenRange>, d: Deps)
    ensures EncodeDepsWithSuperset(RangeUnseekables(ranges), d) == EncodeDeps(d)
  {
  }

  // ---------------------------------------------------------------------------
  // PartialDeps: the Deps encoding, then `covering`

  function EncodePartialDeps(pd: PartialDeps): seq<byte>
  {
    EncodeDeps(pd.deps) + EncodeParticipants(pd.covering)
  }

  function EncodePartialDepsWithSuperset(superset: Unseekables, pd: PartialDeps): seq<byte>
  {
    EncodeDepsWithSuperset(superset, pd.deps) + EncodeParticipants(pd.covering)
  }

  function DecodePartialDeps(s: seq<byte>): Decoded<PartialDeps>
  {
    var deps :- DecodeDeps(s);
    var covering :- DecodeParticipants(deps.1);
    Ok((PartialDeps(covering.0, deps.0), covering.1))
  }

  function DecodePartialDepsWithSuperset(superset: Unseekables, s: seq<byte>): Decoded<PartialDeps>
  {
    var deps :- DecodeDepsWithSuperset(superset, s);
    var covering :- DecodeParticipants(deps.1);
    Ok((PartialDeps(covering.0, deps.0), covering.1))
  }

  lemma PartialDepsRoundTrip(pd: PartialDeps, rest: seq<byte>)
    requires WirePartialDeps(pd)
    ensures DecodePartialDeps(EncodePartialDeps(pd) + rest) == Ok((pd, rest))
  {
    var tail := EncodeParticipants(pd.covering) + rest;
    AppendTwo(EncodeDeps(pd.deps), EncodeParticipants(pd.covering), rest);
    DepsRoundTrip(pd.deps, tail);
    ParticipantsRoundTrip(pd.covering, rest);
  }

  lemma PartialDepsWithSupersetRoundTrip(superset: Unseekables, pd: PartialDeps, rest: seq<byte>)
    requires WirePartialDeps(pd) && KeysWithin(superset, pd.deps)
    ensures DecodePartialDepsWithSuperset(superset, EncodePartialDepsWithSuperset(superset, pd) + rest)
         == Ok((pd, rest))
  {
    var tail := EncodeParticipants(pd.covering) + rest;
    AppendTwo(EncodeDepsWithSuperset(superset, pd.deps), EncodeParticipants(pd.covering), rest);
    DepsWithSupersetRoundTrip(superset, pd.deps, tail);
    ParticipantsRoundTrip(pd.covering, rest);
  }
}
