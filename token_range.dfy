/**
 * TokenRange: an end-inclusive range between two routing keys that is meant
 * to stay inside one table, with its validating and unchecked constructors,
 * its queries and its two-field serializer.
 */
module TokenRanges {
  import opened Wire
  import opened AccordPrimitives

  datatype TokenRange = TokenRange(start: RoutingKey, end: RoutingKey)

  /** The invariant `create` enforces: both endpoints belong to the same table. */
  predicate SameTable(r: TokenRange)
  {
    r.start.table == r.end.table
  }

  /** create: refuses endpoints of two tables (IllegalArgumentException), else builds the range. */
  function Create(start: RoutingKey, end: RoutingKey): (r: Result<TokenRange>)
    ensures r.Ok? <==> start.table == end.table
    ensures r.Ok? ==> SameTable(r.value) && r.value.start == start && r.value.end == end
    ensures r.Err? ==> r.failure == CrossTableRange
  {
    if start.table == end.table then Ok(TokenRange(start, end)) else Err(CrossTableRange)
  }

  /** createUnsafe: no check at all, so the result may span two tables. */
  function CreateUnsafe(start: RoutingKey, end: RoutingKey): (r: TokenRange)
    ensures r.start == start && r.end == end
    ensures SameTable(r) <==> Create(start, end).Ok?
  {
    TokenRange(start, end)
  }

  /** table(): the start endpoint's table. */
  function Table(r: TokenRange): (t: TableId)
    ensures SameTable(r) ==> t == r.end.table
  {
    r.start.table
  }

  function IsFullRange(r: TokenRange): (b: bool)
    ensures b <==> r.start.SentinelKey? && r.end.SentinelKey?
  {
    r.start.Kind() == SentinelKind && r.end.Kind() == SentinelKind
  }

  /** withTable: both endpoints moved to table t; only the table changes. */
  function WithTable(r: TokenRange, t: TableId): (w: TokenRange)
    ensures Table(w) == t && SameTable(w)
    ensures IsFullRange(w) == IsFullRange(r)
    ensures w.start.Kind() == r.start.Kind() && w.end.Kind() == r.end.Kind()
  {
    TokenRange(r.start.WithTable(t), r.end.WithTable(t))
  }

  /** fullRange: from the minimum to the maximum sentinel of one table. */
  function FullRange(t: TableId): (r: TokenRange)
    ensures IsFullRange(r) && SameTable(r) && Table(r) == t
    ensures r.start.isMin && !r.end.isMin
  {
    TokenRange(MinSentinel(t), MaxSentinel(t))
  }

  /** The dht.Range<Token> that toKeyspaceRange builds. */
  datatype KeyspaceRange = KeyspaceRange(left: Token, right: Token)

  /** A sentinel stands for the partitioner's minimum token, any other key for its own token. */
  function EndpointToken(k: RoutingKey, minimumToken: Token): Token
  {
    if k.SentinelKey? then minimumToken else k.token
  }

  /**
   * toKeyspaceRange. The partitioner is global configuration, so its minimum
   * token is a parameter here.
   */
  function ToKeyspaceRange(r: TokenRange, minimumToken: Token): (kr: KeyspaceRange)
    ensures r.start.TokenKey? ==> kr.left == r.start.token
    ensures r.start.SentinelKey? ==> kr.left == minimumToken
    ensures r.end.TokenKey? ==> kr.right == r.end.token
    ensures r.end.SentinelKey? ==> kr.right == minimumToken
  {
    KeyspaceRange(EndpointToken(r.start, minimumToken), EndpointToken(r.end, minimumToken))
  }

  /** Any full range becomes the whole ring (min, min], and the table plays no part. */
  lemma KeyspaceRangeOfFullRange(t: TableId, r: TokenRange, u: TableId, minimumToken: Token)
    ensures ToKeyspaceRange(FullRange(t), minimumToken) == KeyspaceRange(minimumToken, minimumToken)
    ensures ToKeyspaceRange(WithTable(r, u), minimumToken) == ToKeyspaceRange(r, minimumToken)
  {
  }

  // ---------------------------------------------------------------------------
  // TokenRange.Serializer: start, then end

  /** The bytes of a range on their own read back as that range, or as the re-validation's refusal. */
  function Serialize(r: TokenRange): (s: seq<byte>)
    ensures SameTable(r) ==> Deserialize(s) == Ok((r, []))
    ensures !SameTable(r) ==> Deserialize(s) == Err(CrossTableRange)
  {
    RoutingKeyRoundTrip(r.start, EncodeRoutingKey(r.end));
    RoutingKeyRoundTrip(r.end, []);
    assert EncodeRoutingKey(r.end) + [] == EncodeRoutingKey(r.end);
    EncodeRoutingKey(r.start) + EncodeRoutingKey(r.end)
  }

  /** The sum of the endpoints' sizes is the length of what serialize writes. */
  function SerializedSize(r: TokenRange): (n: nat)
    ensures n == |Serialize(r)|
  {
    RoutingKeySizeIsLength(r.start);
    RoutingKeySizeIsLength(r.end);
    RoutingKeySize(r.start) + RoutingKeySize(r.end)
  }

  /** Reads both endpoints, then goes through the validating `create`: only single-table ranges come out. */
  function Deserialize(s: seq<byte>): (d: Decoded<TokenRange>)
    ensures d.Ok? ==> SameTable(d.value.0)
  {
    var start :- DecodeRoutingKey(s);
    var end :- DecodeRoutingKey(start.1);
    var r :- Create(start.0, end.0);
    Ok((r, end.1))
  }

  /** Ranges inside one table come back as they were; the others are refused by the re-validation. */
  lemma SerializerRoundTrip(r: TokenRange, rest: seq<byte>)
    ensures SameTable(r) ==> Deserialize(Serialize(r) + rest) == Ok((r, rest))
    ensures !SameTable(r) ==> Deserialize(Serialize(r) + rest) == Err(CrossTableRange)
  {
    assert Serialize(r) + rest == EncodeRoutingKey(r.start) + (EncodeRoutingKey(r.end) + rest);
    RoutingKeyRoundTrip(r.start, EncodeRoutingKey(r.end) + rest);
    RoutingKeyRoundTrip(r.end, rest);
  }

  /**
   * skip: both endpoints are read past, with no table check. When it fails,
   * deserialize fails the same way; when it succeeds, deserialize either stops
   * at the same place or refuses the range's tables.
   */
  function Skip(s: seq<byte>): (r: Result<seq<byte>>)
    ensures r.Err? ==> Deserialize(s) == Err(r.failure)
    ensures r.Ok? ==> Deserialize(s).Ok? || Deserialize(s) == Err(CrossTableRange)
    ensures Deserialize(s).Ok? ==> r == Ok(Deserialize(s).value.1)
  {
    var start :- DecodeRoutingKey(s);
    var end :- DecodeRoutingKey(start.1);
    Ok(end.1)
  }

  /** skip passes over any written range, even one that deserialize would refuse. */
  lemma SkipPassesOver(r: TokenRange, rest: seq<byte>)
    ensures Skip(Serialize(r) + rest) == Ok(rest)
    ensures Deserialize(Serialize(r) + rest).Ok? ==> Deserialize(Serialize(r) + rest).value.1 == rest
  {
    assert Serialize(r) + rest == EncodeRoutingKey(r.start) + (EncodeRoutingKey(r.end) + rest);
    RoutingKeyRoundTrip(r.start, EncodeRoutingKey(r.end) + rest);
    RoutingKeyRoundTrip(r.end, rest);
  }

  // ---------------------------------------------------------------------------
  // A run of n ranges, as written by the counted loops that use this serializer

  lemma TokenRangesRoundTrip(ranges: seq<TokenRange>, rest: seq<byte>)
    requires forall i :: 0 <= i < |ranges| ==> SameTable(ranges[i])
    ensures DecodeRun(Deserialize, |ranges|, ConcatMap(Serialize, ranges) + rest) == Ok((ranges, rest))
  {
    forall i, tail | 0 <= i < |ranges|
      ensures Deserialize(Serialize(ranges[i]) + tail) == Ok((ranges[i], tail))
    {
      SerializerRoundTrip(ranges[i], tail);
    }
    DecodeRunRoundTrip(Serialize, Deserialize, ranges, rest);
  }
}
