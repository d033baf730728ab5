/**
 * The dependency structures the codec carries (accord.primitives KeyDeps,
 * RangeDeps, Deps and PartialDeps), as the parallel arrays the serializer
 * support exposes: the keys or ranges, the transaction ids, and the flat int
 * array that maps one to the other. SerializerSupport.create builds them from
 * these arrays without re-validating them, so no ordering invariant is
 * assumed here.
 */
module AccordDeps {
  import opened Wire
  import opened AccordPrimitives
  import opened TokenRanges
  import opened KeySerializers

  datatype KeyDeps = KeyDeps(keys: seq<RoutingKey>, txnIds: seq<TxnId>, keysToTxnIds: seq<nat>)

  datatype RangeDeps = RangeDeps(ranges: seq<TokenRange>, txnIds: seq<TxnId>, rangesToTxnIds: seq<nat>)

  datatype Deps = Deps(keyDeps: KeyDeps, rangeDeps: RangeDeps, directKeyDeps: KeyDeps)

  datatype PartialDeps = PartialDeps(covering: Participants, deps: Deps)

  /**
   * What Java's types already guarantee of a KeyDeps: its arrays are shorter
   * than 2^31 and the mapping entries are 32-bit ints (read here as unsigned,
   * as writeUnsignedVInt32 writes them).
   */
  predicate WireKeyDeps(kd: KeyDeps)
  {
    && |kd.txnIds| < INT32_LIMIT
    && |kd.keysToTxnIds| < INT32_LIMIT
    && forall i :: 0 <= i < |kd.keysToTxnIds| ==> kd.keysToTxnIds[i] < UINT32_LIMIT
  }

  /** The same for RangeDeps, plus what TokenRange's decoder re-checks: ranges inside one table. */
  predicate WireRangeDeps(rd: RangeDeps)
  {
    && |rd.ranges| < INT32_LIMIT
    && |rd.txnIds| < INT32_LIMIT
    && |rd.rangesToTxnIds| < INT32_LIMIT
    && (forall i :: 0 <= i < |rd.rangesToTxnIds| ==> rd.rangesToTxnIds[i] < UINT32_LIMIT)
    && (forall i :: 0 <= i < |rd.ranges| ==> SameTable(rd.ranges[i]))
  }

  predicate WireDeps(d: Deps)
  {
    WireKeyDeps(d.keyDeps) && WireRangeDeps(d.rangeDeps) && WireKeyDeps(d.directKeyDeps)
  }

  predicate WirePartialDeps(pd: PartialDeps)
  {
    WireDeps(pd.deps) && WireParticipants(pd.covering)
  }

  /**
   * The caller's promise for superset-relative encoding: with a key-domain
   * superset, every key of keyDeps is in it. Nothing in the codec checks this.
   */
  predicate KeysWithin(superset: Unseekables, d: Deps)
  {
    superset.KeyUnseekables? ==>
      forall i :: 0 <= i < |d.keyDeps.keys| ==> d.keyDeps.keys[i] in superset.keys
  }
}
