# Accord dependency codec and safe-state wrappers, in Dafny

This project models a slice of Cassandra's Accord integration:

- **DepsSerializers**: the binary codec for a transaction's dependency graph.
  - A `Deps` holds three parts: `keyDeps` (routing keys, transaction ids and the flat mapping between them), `rangeDeps` (the same over token ranges) and `directKeyDeps`.
  - A `PartialDeps` adds the `covering` participants.
  - Each graph can be written with its keys in full, or as positions in a superset of keys the reader already holds.
  - The `directKeyDeps` keys are written as positions in `keyDeps`' keys whenever they form a subset of them.
- **AccordSafeCommand**: the per-execution guard around a cached command record.
  - It tracks an `original` snapshot, a `current` working value and an `invalidated` flag.
  - It hands the journal the `(original, current)` delta.
- **TokenRange**: the same-table key range, its constructors and queries, and its serializer, whose decoder re-validates the range.
- **AbstractSerialized**: a value stored as bytes, with a lazily filled decode cache.
- **MessagingUtils.tryAliveFirst**: an iterator that offers alive peers first, then every peer round-robin.
- **RoutesSearcher.consume**: the store and txn-id window filter over the route index's search results.

Layout:

- `wire.dfy` (`Wire`): bytes, the `Result` of a decoder, and the unsigned VInt.
  - It also holds the 32-bit reads: `readUnsignedVInt32`, and a count that must fit a Java array length.
  - It also holds the generic run encoders and decoders behind every counted loop.
- `accord_primitives.dfy` (`AccordPrimitives`): routing keys, timestamps and transaction ids. The codecs of these live outside the modelled files and are given stand-in layouts here.
- `key_serializers.dfy` (`KeySerializers`): the routing-key list, subset-by-position and participants codecs the dependency codec calls. These are stand-in layouts too.
- `deps.dfy` (`AccordDeps`): the dependency data types, and what Java's types guarantee of them.
- `deps_wire.dfy` (`DepsWire`): the byte layout of every DepsSerializers path as functions, and `isSubset`. The round-trip lemmas live here.
- `streams.dfy` (`Streams`): `DataOutputPlus` and `DataInputPlus` as classes holding bytes. Their counted loops are proved against the run functions.
- `deps_serializers.dfy` (`DepsSerializers`): the serialize, deserialize and serializedSize methods, each proved to write, read or count exactly the layout in `DepsWire`.
- `token_range.dfy` (`TokenRanges`), `accord_safe_command.dfy` (`SafeCommand`), `abstract_serialized.dfy` (`Serialized`), `messaging_utils.dfy` (`MessagingUtils`), `routes_searcher.dfy` (`RoutesSearcher`), and `optional.dfy` (`Optional`, Java's nullable references).

Three facts about AccordSafeCommand's code shape its model:

- `preExecute` does not check that the wrapper is still unacquired. Each call takes a fresh snapshot, so `original` is not captured only once.
- `set` is accepted before `preExecute`.
- The wrapper has no explicit lifecycle tag: only `invalidated` is guarded.

## Model

| member | source | states |
|---|---|---|
| DepsWire.IntersectionCount | src/java/org/apache/cassandra/service/accord/serializers/DepsSerializers.java:330-333 | the fold counts at most `test.size()` keys |
| DepsWire.FullCountIff | src/java/org/apache/cassandra/service/accord/serializers/DepsSerializers.java:330-333 | the fold's count reaches `test.size()` exactly when every key of `test` occurs in `superset` |
| DepsWire.IsSubset | src/java/org/apache/cassandra/service/accord/serializers/DepsSerializers.java:330-333 | `isSubset(test, superset)` holds exactly when every key of `test` occurs in `superset`, in both directions |
| DepsWire.SubsetFlagAgreement | src/java/org/apache/cassandra/service/accord/serializers/DepsSerializers.java:148-153 | the flag byte written before directKeyDeps' keys is non-zero exactly when every direct key is among keyDeps' keys |
| DepsWire.TxnIdRunRoundTrip | src/java/org/apache/cassandra/service/accord/serializers/DepsSerializers.java:183-186 | a counted run of transaction ids reads back as written, leaving what follows |
| DepsWire.UInt32RunRoundTrip | src/java/org/apache/cassandra/service/accord/serializers/DepsSerializers.java:188-191 | a counted run of mapping ints below 2^32 reads back as written |
| DepsWire.KeyDepsBodyRoundTrip | src/java/org/apache/cassandra/service/accord/serializers/DepsSerializers.java:301-314 | deserializeKeyDeps reads back what serializeKeyDepsWithoutKeys wrote, rebuilt around the given keys |
| DepsWire.RangeDepsRoundTrip | src/java/org/apache/cassandra/service/accord/serializers/DepsSerializers.java:176-194 | the rangeDeps block reads back as written when every range lies in one table |
| DepsWire.DirectKeysRoundTrip | src/java/org/apache/cassandra/service/accord/serializers/DepsSerializers.java:199 | both branches for the direct keys read back, the position branch only when the keys form a subset |
| DepsWire.DirectKeyDepsRoundTrip | src/java/org/apache/cassandra/service/accord/serializers/DepsSerializers.java:196-201 | the reader takes the branch the writer's flag chose and recovers directKeyDeps |
| DepsWire.WithoutKeysRoundTrip | src/java/org/apache/cassandra/service/accord/serializers/DepsSerializers.java:172-204 | everything after the keys reads back as the same Deps, given keyDeps' keys |
| DepsWire.DepsRoundTrip | src/java/org/apache/cassandra/service/accord/serializers/DepsSerializers.java:92-97 | `deserialize(serialize(d)) == d`, whatever bytes follow, for every Deps meeting `WireDeps`: counts below 2^31, mapping ints below 2^32, every range in one table |
| DepsWire.DepsWithSupersetRoundTrip | src/java/org/apache/cassandra/service/accord/serializers/DepsSerializers.java:99-106 | with the same superset on both sides, and keys inside it when it is a key superset, the Deps comes back |
| DepsWire.RangeSupersetIsPlain | src/java/org/apache/cassandra/service/accord/serializers/DepsSerializers.java:84-90 | a range-domain superset produces exactly the plain encoding |
| DepsWire.PartialDepsRoundTrip | src/java/org/apache/cassandra/service/accord/serializers/DepsSerializers.java:261-273 | a PartialDeps, covering included, reads back as written |
| DepsWire.PartialDepsWithSupersetRoundTrip | src/java/org/apache/cassandra/service/accord/serializers/DepsSerializers.java:275-280 | the same through the superset-relative path |
| DepsSerializers.SerializeKeyDepsWithoutKeys | src/java/org/apache/cassandra/service/accord/serializers/DepsSerializers.java:159-170 | appends exactly the keyDeps body layout: counts, txn ids, mapping ints |
| DepsSerializers.SerializeRangeDeps | src/java/org/apache/cassandra/service/accord/serializers/DepsSerializers.java:130-146 | appends exactly the rangeDeps layout |
| DepsSerializers.SerializeDirectKeyDeps | src/java/org/apache/cassandra/service/accord/serializers/DepsSerializers.java:148-156 | appends the subset flag, the direct keys as the flag says, then their body |
| DepsSerializers.SerializeWithoutKeys | src/java/org/apache/cassandra/service/accord/serializers/DepsSerializers.java:126-157 | appends keyDeps body, rangeDeps and directKeyDeps, in that order |
| DepsSerializers.SerializeDeps | src/java/org/apache/cassandra/service/accord/serializers/DepsSerializers.java:77-82 | appends the keys in full, then the rest; the output is what DeserializeDeps reads back |
| DepsSerializers.SerializeDepsWithSuperset | src/java/org/apache/cassandra/service/accord/serializers/DepsSerializers.java:84-90 | appends the keys as positions when the superset is of the key domain, in full otherwise |
| DepsSerializers.SerializePartialDeps | src/java/org/apache/cassandra/service/accord/serializers/DepsSerializers.java:268-273 | appends the Deps encoding, then `covering` |
| DepsSerializers.SerializePartialDepsWithSuperset | src/java/org/apache/cassandra/service/accord/serializers/DepsSerializers.java:275-280 | appends the superset-relative Deps encoding, then `covering` |
| DepsSerializers.DeserializeKeyDeps | src/java/org/apache/cassandra/service/accord/serializers/DepsSerializers.java:301-314 | returns and consumes what the keyDeps body decoder reads, or throws its failure |
| DepsSerializers.DeserializeRangeDeps | src/java/org/apache/cassandra/service/accord/serializers/DepsSerializers.java:176-194 | fills the three arrays as the rangeDeps decoder reads them; cross-table ranges and oversized counts throw |
| DepsSerializers.DeserializeDirectKeyDeps | src/java/org/apache/cassandra/service/accord/serializers/DepsSerializers.java:196-201 | reads the flag, the keys by position or in full, then the body |
| DepsSerializers.DeserializeWithoutKeys | src/java/org/apache/cassandra/service/accord/serializers/DepsSerializers.java:172-204 | reads keyDeps, rangeDeps and directKeyDeps as the layout decoder does |
| DepsSerializers.DeserializeDeps | src/java/org/apache/cassandra/service/accord/serializers/DepsSerializers.java:92-97 | reads the keys, then the rest, as DecodeDeps does; with DepsRoundTrip, it inverts SerializeDeps |
| DepsSerializers.DeserializeDepsWithSuperset | src/java/org/apache/cassandra/service/accord/serializers/DepsSerializers.java:99-106 | reads the keys by position in a key superset, in full otherwise |
| DepsSerializers.DeserializePartialDeps | src/java/org/apache/cassandra/service/accord/serializers/DepsSerializers.java:261-266 | after the Deps fields, reads `covering` |
| DepsSerializers.DeserializePartialDepsWithSuperset | src/java/org/apache/cassandra/service/accord/serializers/DepsSerializers.java:259-266 | the superset-relative Deps read, then `covering` |
| DepsSerializers.SerializedSizeOfKeyDepsWithoutKeys | src/java/org/apache/cassandra/service/accord/serializers/DepsSerializers.java:316-328 | the computed size equals the number of bytes serializeKeyDepsWithoutKeys writes |
| DepsSerializers.SerializedSizeOfRangeDeps | src/java/org/apache/cassandra/service/accord/serializers/DepsSerializers.java:210-226 | equals the length of the rangeDeps block |
| DepsSerializers.SerializedSizeOfDirectKeyDeps | src/java/org/apache/cassandra/service/accord/serializers/DepsSerializers.java:228-233 | one byte for the flag plus the chosen key encoding and the body: the block's length |
| DepsSerializers.SerializedSizeWithoutKeys | src/java/org/apache/cassandra/service/accord/serializers/DepsSerializers.java:206-235 | equals the length of everything after the keys |
| DepsSerializers.SerializedSizeDeps | src/java/org/apache/cassandra/service/accord/serializers/DepsSerializers.java:108-114 | equals the length of the plain encoding |
| DepsSerializers.SerializedSizeDepsWithSuperset | src/java/org/apache/cassandra/service/accord/serializers/DepsSerializers.java:116-124 | equals the length of the superset-relative encoding |
| DepsSerializers.SerializedSizePartialDeps | src/java/org/apache/cassandra/service/accord/serializers/DepsSerializers.java:282-287 | equals the length of the PartialDeps encoding |
| DepsSerializers.SerializedSizePartialDepsWithSuperset | src/java/org/apache/cassandra/service/accord/serializers/DepsSerializers.java:289-294 | equals the length of the superset-relative PartialDeps encoding |
| DepsSerializers.RoundTripDeps | src/java/org/apache/cassandra/service/accord/serializers/DepsSerializers.java:77-114 | a Deps written to a fresh stream reads back equal, and serializedSize is the number of bytes written |
| DepsSerializers.RoundTripPartialDepsWithSuperset | src/java/org/apache/cassandra/service/accord/serializers/DepsSerializers.java:259-295 | the same for a PartialDeps written against a superset holding its keys |
| Streams.DataOutput.WriteEach | src/java/org/apache/cassandra/service/accord/serializers/DepsSerializers.java:163-164 | the counted write loop appends each item's bytes in order |
| Streams.DataInput.ReadEach | src/java/org/apache/cassandra/service/accord/serializers/DepsSerializers.java:304-306 | the array-filling read loop returns the items the run decoder reads, or its first failure |
| Streams.SizeEach | src/java/org/apache/cassandra/service/accord/serializers/DepsSerializers.java:320-321 | the size loop sums to the length of the run the write loop produces |
| Wire.ReadCount | src/java/org/apache/cassandra/service/accord/serializers/DepsSerializers.java:303-304 | a count read for `new T[count]` is below 2^31; larger values fail as a negative array size |
| TokenRanges.Create | src/java/org/apache/cassandra/service/accord/TokenRange.java:45-51 | succeeds exactly when both endpoints share a table, with those endpoints; otherwise fails |
| TokenRanges.CreateUnsafe | src/java/org/apache/cassandra/service/accord/TokenRange.java:53-56 | builds the range unchecked; it lies in one table exactly when `create` would accept it |
| TokenRanges.Table | src/java/org/apache/cassandra/service/accord/TokenRange.java:58-61 | the start's table, which is also the end's for a validated range |
| TokenRanges.IsFullRange | src/java/org/apache/cassandra/service/accord/TokenRange.java:75-78 | holds exactly when both endpoints are sentinels |
| TokenRanges.WithTable | src/java/org/apache/cassandra/service/accord/TokenRange.java:80-84 | both endpoints move to table t, keeping their kinds, so fullness is kept |
| TokenRanges.FullRange | src/java/org/apache/cassandra/service/accord/TokenRange.java:86-89 | min sentinel to max sentinel of table t: a full, single-table range |
| TokenRanges.ToKeyspaceRange | src/java/org/apache/cassandra/service/accord/TokenRange.java:97-105 | a sentinel endpoint becomes the minimum token, any other its own token |
| TokenRanges.KeyspaceRangeOfFullRange | src/java/org/apache/cassandra/service/accord/TokenRange.java:97-105 | a full range maps to (min, min], and moving a range to another table does not change its keyspace range |
| TokenRanges.Serialize | src/java/org/apache/cassandra/service/accord/TokenRange.java:113-117 | writes the start, then the end; a single-table range's bytes deserialize back to it with nothing left over, and any other range's bytes are refused with CrossTableRange |
| TokenRanges.SerializedSize | src/java/org/apache/cassandra/service/accord/TokenRange.java:132-137 | the sum of the endpoints' sizes is the length of what serialize writes |
| TokenRanges.Deserialize | src/java/org/apache/cassandra/service/accord/TokenRange.java:125-130 | reads both endpoints and re-validates through `create`, so only single-table ranges come out |
| TokenRanges.Skip | src/java/org/apache/cassandra/service/accord/TokenRange.java:119-123 | when skip fails, deserialize fails the same way; when it succeeds, deserialize stops at the same place or refuses the range's tables |
| TokenRanges.SerializerRoundTrip | src/java/org/apache/cassandra/service/accord/TokenRange.java:126-130 | single-table ranges read back as written; cross-table ones are refused by the re-validation |
| TokenRanges.SkipPassesOver | src/java/org/apache/cassandra/service/accord/TokenRange.java:119-123 | skip passes over any written range, even one deserialize refuses, and stops where deserialize would |
| TokenRanges.TokenRangesRoundTrip | src/java/org/apache/cassandra/service/accord/serializers/DepsSerializers.java:178-181 | a counted run of single-table ranges reads back as written |
| SafeCommand.AccordSafeCommand.constructor | src/java/org/apache/cassandra/service/accord/AccordSafeCommand.java:56-67 | a new wrapper is bound to its entry and key, with no original, no current, not invalidated |
| SafeCommand.AccordSafeCommand.Global | src/java/org/apache/cassandra/service/accord/AccordSafeCommand.java:95-100 | the bound entry, or IllegalState once invalidated |
| SafeCommand.AccordSafeCommand.Current | src/java/org/apache/cassandra/service/accord/AccordSafeCommand.java:102-107 | the working value, or IllegalState once invalidated |
| SafeCommand.AccordSafeCommand.Set | src/java/org/apache/cassandra/service/accord/AccordSafeCommand.java:109-115 | replaces only `current`; an invalidated wrapper throws and is left unchanged |
| SafeCommand.AccordSafeCommand.Original | src/java/org/apache/cassandra/service/accord/AccordSafeCommand.java:117-122 | the snapshot, or IllegalState once invalidated |
| SafeCommand.AccordSafeCommand.Update | src/java/org/apache/cassandra/service/accord/AccordSafeCommand.java:124-127 | the (original, current) pair, unguarded, so it still answers after invalidation |
| SafeCommand.AccordSafeCommand.PreExecute | src/java/org/apache/cassandra/service/accord/AccordSafeCommand.java:129-137 | snapshot := the entry's value; current := snapshot when the record exists, otherwise the uninitialised hook runs (exactly once) and current is what it installs; throws, changing nothing, when invalidated |
| SafeCommand.AccordSafeCommand.Uninitialised | src/java/org/apache/cassandra/service/accord/AccordSafeCommand.java:135-136 | the hook installs its value for this txnId as `current`, leaving the snapshot and the flag alone |
| SafeCommand.AccordSafeCommand.Invalidate | src/java/org/apache/cassandra/service/accord/AccordSafeCommand.java:139-143 | sets the flag unconditionally and leaves the snapshot, the working value and the hook count unchanged |
| SafeCommand.AccordSafeCommand.Invalidated | src/java/org/apache/cassandra/service/accord/AccordSafeCommand.java:145-149 | reports the flag |
| SafeCommand.AccordSafeCommand.Equals | src/java/org/apache/cassandra/service/accord/AccordSafeCommand.java:69-76 | two wrappers are equal exactly when they would hand the journal the same delta |
| SafeCommand.AccordSafeCommand.HashCode | src/java/org/apache/cassandra/service/accord/AccordSafeCommand.java:78-82 | always throws UnsupportedOperation |
| SafeCommand.CacheEntry.GetExclusive | src/java/org/apache/cassandra/service/accord/AccordSafeCommand.java:133 | hands back the entry's current value |
| SafeCommand.EqualsIsEquivalence | src/java/org/apache/cassandra/service/accord/AccordSafeCommand.java:69-76 | wrapper equality is reflexive, symmetric and transitive |
| SafeCommand.ExecutionStep | src/java/org/apache/cassandra/service/accord/AccordSafeCommand.java:124-143 | acquire, set, read the delta, invalidate: the delta is (entry value, new value), and later access throws |
| Serialized.AbstractSerialized.FromBytes | src/java/org/apache/cassandra/service/accord/txn/AbstractSerialized.java:38-41 | keeps the subclass, the codec and the bytes, and leaves the cache empty |
| Serialized.AbstractSerialized.FromValue | src/java/org/apache/cassandra/service/accord/txn/AbstractSerialized.java:43-47 | stores the value's encoding (null for null) and caches the value; with a round-tripping codec the cache agrees with the bytes |
| Serialized.AbstractSerialized.Get | src/java/org/apache/cassandra/service/accord/txn/AbstractSerialized.java:74-80 | the cached value if any, else the decoded bytes, then cached; null with no bytes; a consistent object answers what its bytes stand for |
| Serialized.AbstractSerialized.Unmemoize | src/java/org/apache/cassandra/service/accord/txn/AbstractSerialized.java:82-85 | empties only the cache; bytes are immutable, so a later get re-derives the value |
| Serialized.AbstractSerialized.Bytes | src/java/org/apache/cassandra/service/accord/txn/AbstractSerialized.java:87-90 | the stored bytes |
| Serialized.AbstractSerialized.Equals | src/java/org/apache/cassandra/service/accord/txn/AbstractSerialized.java:49-58 | equal exactly when the other is of the same subclass (`getClass()`) and holds equal bytes; the cache is not read |
| Serialized.AbstractSerialized.HashCode | src/java/org/apache/cassandra/service/accord/txn/AbstractSerialized.java:60-64 | a Java int, and 0 with no bytes |
| Serialized.BufferHash | src/java/org/apache/cassandra/service/accord/txn/AbstractSerialized.java:63 | the buffer hash is always a Java int |
| Serialized.HashAgreesWithEquals | src/java/org/apache/cassandra/service/accord/txn/AbstractSerialized.java:49-64 | equal objects have equal hashes, whatever either has cached |
| Serialized.StoreAndReload | src/java/org/apache/cassandra/service/accord/txn/AbstractSerialized.java:43-85 | a value stored, unmemoized and read again comes back unchanged |
| MessagingUtils.AliveFirstIterator.constructor | src/java/org/apache/cassandra/net/MessagingUtils.java:36-38 | first run, at the start, emptiness fixed from the peer list |
| MessagingUtils.AliveFirstIterator.HasNext | src/java/org/apache/cassandra/net/MessagingUtils.java:40-43 | true exactly for a non-empty peer list, and never changes |
| MessagingUtils.AliveFirstIterator.Next | src/java/org/apache/cassandra/net/MessagingUtils.java:45-64 | first run: the next alive peer, or, once the pass ends, the first run is over for good and round-robin starts; afterwards peers in round-robin order; results are always peers; None (the NoSuchElementException) exactly when there are no peers |
| MessagingUtils.FirstAliveFrom | src/java/org/apache/cassandra/net/MessagingUtils.java:50-55 | the first-pass scan stops within the list or at its end |
| MessagingUtils.FirstAliveFromIsFirst | src/java/org/apache/cassandra/net/MessagingUtils.java:50-55 | the scan stops at the first alive peer, and at the end when there is none |
| MessagingUtils.FirstAliveFromSkipsOnlyDead | src/java/org/apache/cassandra/net/MessagingUtils.java:50-55 | every peer the scan skips is down, and the one it stops at is up |
| MessagingUtils.Resume | src/java/org/apache/cassandra/net/MessagingUtils.java:60-63 | the round-robin position restarts at 0 at the end of the list |
| MessagingUtils.FirstCandidate | src/java/org/apache/cassandra/net/MessagingUtils.java:32-64 | a fresh iterator offers the first alive peer, or the first peer when none is alive |
| RoutesSearcher.Selected | src/java/org/apache/cassandra/index/accord/RoutesSearcher.java:169-178 | every id passed on lies in [min, max), and there are at most as many as entries |
| RoutesSearcher.WindowIsHalfOpen | src/java/org/apache/cassandra/index/accord/RoutesSearcher.java:175 | minTxnId is in a non-empty window, maxTxnId never |
| RoutesSearcher.SelectedMembers | src/java/org/apache/cassandra/index/accord/RoutesSearcher.java:174-176 | an id is passed on exactly when an entry of the requested store carries it and it is in the window |
| RoutesSearcher.SelectedAppend | src/java/org/apache/cassandra/index/accord/RoutesSearcher.java:171-177 | iterator order is kept: the ids of a + b are those of a, then those of b |
| RoutesSearcher.SelectedKeepsDuplicates | src/java/org/apache/cassandra/index/accord/RoutesSearcher.java:175-176 | an entry seen twice is passed on twice |
| RoutesSearcher.TxnIdConsumer.Accept | src/java/org/apache/cassandra/index/accord/RoutesSearcher.java:176 | appends the id to what the consumer has accepted |
| RoutesSearcher.Consume | src/java/org/apache/cassandra/index/accord/RoutesSearcher.java:169-178 | the consumer receives exactly the selected ids, in order |
| RoutesSearcher.Intersects | src/java/org/apache/cassandra/index/accord/RoutesSearcher.java:153-159 | consume over what the range search yields |
| RoutesSearcher.IntersectsTokenRange | src/java/org/apache/cassandra/index/accord/RoutesSearcher.java:148-151 | the same as the key-pair overload on the range's start and end |
| RoutesSearcher.CollectIntersecting | src/java/org/apache/cassandra/index/accord/RoutesSearcher.java:148-178 | a TokenRange query yields the selected ids, each with min <= id < max |

## Left out

- Foreign serializers are stand-ins. The byte layouts of `AccordRoutingKey.serializer`, `CommandSerializers.txnId`, `KeySerializers.routingKeys`, `serializeSubset`/`deserializeSubset`, `KeySerializers.participants` and Cassandra's VInt coding are defined outside the modelled files. Each is given a stand-in layout here, with a round-trip lemma and a size lemma. The dependency codec's proofs use only those lemmas; the stand-in bytes are not Cassandra's bytes.
- `NullableSerializer` and the `nullableDeps` / `nullablePartialDeps` wrappers are not modelled.
- The protocol version is not modelled: it is only threaded through to the sub-serializers.
- The range serializer is pluggable in `Impl`; here it is fixed to `TokenRange.serializer`, the one the static initialiser installs.
- `KeyDeps` / `RangeDeps` `SerializerSupport.create` build the structures from the arrays without validation. The mapping arrays' index layout belongs to the Accord library. Sortedness and index ranges are neither checked nor modelled.
- Mapping ints are Java `int`s written and read as unsigned 32-bit VInts. Here they are naturals below 2^32. Java's negative reading of values at or above 2^31 is not modelled.
- `RoutesSearcher.Consume` and `RoutesSearcher.Intersects` take the iterator or the search as a sequence or a function. `searchRange`, `searchKey`, the row filters, `close()`, and the `Entry` object that the iterators overwrite on each `next()` are not modelled; entries are values here. The `intersects(storeId, key, ...)` overload is search-then-consume like the range overload and is not modelled separately.
- `DepsSerializers.DeserializeDeps` and the other deserialize methods say nothing about how much input was consumed when they throw, because the stream position after an exception is unspecified.
- `TokenRange.newRange` is the same construction as `createUnsafe` and is not a separate member. `start()`, `end()` and `toString` are not modelled.
- `TokenRanges.ToKeyspaceRange` takes the partitioner's minimum token as a parameter, because the partitioner is global configuration.
- `DebugAccordSafeCommand`, its `Ref` leak tracking, and `toString` of both wrapper classes are left out.
- `SafeCommand.CacheEntry.GetExclusive` returns the entry's value. Exclusivity, blocking and release belong to the cache manager, outside the modelled files.
- `SafeCommand.AccordSafeCommand.Uninitialised` stands for the superclass's `uninitialised()` hook, which is not part of this model: it is given as a parameter, the working value the hook installs for a txnId, and the model says nothing else about it. `isUnset()` is read as "the acquired value is null".
- `SafeCommand.AccordSafeCommand.Equals` does not model the `getClass()` comparison, because only one wrapper class is modelled.
- `Serialized.AbstractSerialized.HashCode` hashes the whole byte sequence. A ByteBuffer's position and limit are not modelled.
- The subclass's `serializer()` is a codec fixed at construction.
- `MessagingUtils.AliveFirstIterator.Next` assumes that every call to `peers.iterator()` yields the same peers in the same order. The failure detector's answers are fixed for the span of one call.
