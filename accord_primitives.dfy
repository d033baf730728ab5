/**
 * The Accord and Cassandra value types the modelled code passes around:
 * tables, tokens, routing keys (AccordRoutingKey) and timestamps / transaction
 * ids, with stand-in byte layouts for their own serializers
 * (AccordRoutingKey.serializer, CommandSerializers.txnId). Those serializers are
 * outside the modelled files; what the rest of the model uses of them is their
 * round-trip and size lemmas.
 */
module AccordPrimitives {
  import opened Wire

  type TableId = nat
  /** A partitioner token (Murmur3 tokens are signed). */
  type Token = int

  datatype RoutingKeyKind = TokenKind | SentinelKind

  /**
   * AccordRoutingKey: a token inside one table, or one of the two sentinels
   * bounding a table's token space.
   */
  datatype RoutingKey =
    | TokenKey(table: TableId, token: Token)
    | SentinelKey(table: TableId, isMin: bool)
  {
    function Kind(): RoutingKeyKind
    {
      if TokenKey? then TokenKind else SentinelKind
    }

    /** The same key moved to another table. */
    function WithTable(t: TableId): (k: RoutingKey)
      ensures k.table == t && k.Kind() == Kind()
    {
      match this
      case TokenKey(_, token) => TokenKey(t, token)
      case SentinelKey(_, isMin) => SentinelKey(t, isMin)
    }
  }

  /** SentinelKey.min(table) and SentinelKey.max(table). */
  function MinSentinel(t: TableId): RoutingKey { SentinelKey(t, true) }
  function MaxSentinel(t: TableId): RoutingKey { SentinelKey(t, false) }

  // Stand-in layout: kind byte, table, then the token or the min/max flag.
  function EncodeRoutingKey(k: RoutingKey): seq<byte>
  {
    match k
    case TokenKey(t, token) => [0 as byte] + EncodeVInt(t) + EncodeSignedVInt(token)
    case SentinelKey(t, isMin) => [1 as byte] + EncodeVInt(t) + EncodeBoolean(isMin)
  }

  function DecodeRoutingKey(s: seq<byte>): Decoded<RoutingKey>
  {
    if |s| == 0 then Err(Truncated)
    else if s[0] == 0 then
      var t :- DecodeVInt(s[1..]);
      var token :- DecodeSignedVInt(t.1);
      Ok((TokenKey(t.0, token.0), token.1))
    else if s[0] == 1 then
      var t :- DecodeVInt(s[1..]);
      var isMin :- DecodeBoolean(t.1);
      Ok((SentinelKey(t.0, isMin.0), isMin.1))
    else Err(UnknownTag)
  }

  function RoutingKeySize(k: RoutingKey): nat
  {
    match k
    case TokenKey(t, token) => 1 + SizeofUnsignedVInt(t) + SizeofUnsignedVInt(ZigZag(token))
    case SentinelKey(t, _) => 1 + SizeofUnsignedVInt(t) + 1
  }

  lemma RoutingKeyRoundTrip(k: RoutingKey, rest: seq<byte>)
    ensures DecodeRoutingKey(EncodeRoutingKey(k) + rest) == Ok((k, rest))
  {
    match k
    case TokenKey(t, token) => TokenKeyRoundTrip(t, token, rest);
    case SentinelKey(t, isMin) => SentinelKeyRoundTrip(t, isMin, rest);
  }

  lemma TokenKeyRoundTrip(t: TableId, token: Token, rest: seq<byte>)
    ensures DecodeRoutingKey(EncodeRoutingKey(TokenKey(t, token)) + rest) == Ok((TokenKey(t, token), rest))
  {
    var after := EncodeSignedVInt(token) + rest;
    var tail := EncodeVInt(t) + after;
    assert EncodeRoutingKey(TokenKey(t, token)) + rest == [0 as byte] + tail;
    VIntRoundTrip(t, after);
    SignedVIntRoundTrip(token, rest);
    DecodeTokenTagged(tail, t, after, token, rest);
  }

  /** The token branch of the decoder, with the two fields' decoding given. */
  lemma DecodeTokenTagged(tail: seq<byte>, t: TableId, after: seq<byte>, token: Token, rest: seq<byte>)
    requires DecodeVInt(tail) == Ok((t, after))
    requires DecodeSignedVInt(after) == Ok((token, rest))
    ensures DecodeRoutingKey([0 as byte] + tail) == Ok((TokenKey(t, token), rest))
  {
    assert ([0 as byte] + tail)[1..] == tail;
  }

  lemma SentinelKeyRoundTrip(t: TableId, isMin: bool, rest: seq<byte>)
    ensures DecodeRoutingKey(EncodeRoutingKey(SentinelKey(t, isMin)) + rest) == Ok((SentinelKey(t, isMin), rest))
  {
    var tail := EncodeVInt(t) + (EncodeBoolean(isMin) + rest);
    var s := [1 as byte] + tail;
    assert EncodeRoutingKey(SentinelKey(t, isMin)) + rest == s;
    assert s[0] == 1 && s[1..] == tail;
    VIntRoundTrip(t, EncodeBoolean(isMin) + rest);
    BooleanRoundTrip(isMin, rest);
  }

  lemma RoutingKeySizeIsLength(k: RoutingKey)
    ensures |EncodeRoutingKey(k)| == RoutingKeySize(k)
  {
    match k
    case TokenKey(t, token) =>
      VIntSize(t);
      VIntSize(ZigZag(token));
    case SentinelKey(t, _) =>
      VIntSize(t);
  }

  /**
   * accord.primitives.Timestamp, reduced to the three words it is ordered by.
   * A TxnId is a Timestamp that names a transaction.
   */
  datatype Timestamp = Timestamp(msb: nat, lsb: nat, node: nat)
  type TxnId = Timestamp

  /** Lexicographic over (msb, lsb, node), with the sign convention of compareTo. */
  function CompareTimestamps(a: Timestamp, b: Timestamp): (c: int)
    ensures c == 0 <==> a == b
    ensures -1 <= c <= 1
  {
    if a.msb != b.msb then (if a.msb < b.msb then -1 else 1)
    else if a.lsb != b.lsb then (if a.lsb < b.lsb then -1 else 1)
    else if a.node != b.node then (if a.node < b.node then -1 else 1)
    else 0
  }

  lemma CompareAntisymmetric(a: Timestamp, b: Timestamp)
    ensures CompareTimestamps(a, b) == -CompareTimestamps(b, a)
  {
  }

  // Stand-in layout: the three words as unsigned VInts.
  function EncodeTxnId(id: TxnId): seq<byte>
  {
    EncodeVInt(id.msb) + EncodeVInt(id.lsb) + EncodeVInt(id.node)
  }

  function DecodeTxnId(s: seq<byte>): Decoded<TxnId>
  {
    var msb :- DecodeVInt(s);
    var lsb :- DecodeVInt(msb.1);
    var node :- DecodeVInt(lsb.1);
    Ok((Timestamp(msb.0, lsb.0, node.0), node.1))
  }

  function TxnIdSize(id: TxnId): nat
  {
    SizeofUnsignedVInt(id.msb) + SizeofUnsignedVInt(id.lsb) + SizeofUnsignedVInt(id.node)
  }

  lemma TxnIdRoundTrip(id: TxnId, rest: seq<byte>)
    ensures DecodeTxnId(EncodeTxnId(id) + rest) == Ok((id, rest))
  {
    assert EncodeTxnId(id) + rest
        == EncodeVInt(id.msb) + (EncodeVInt(id.lsb) + (EncodeVInt(id.node) + rest));
    VIntRoundTrip(id.msb, EncodeVInt(id.lsb) + (EncodeVInt(id.node) + rest));
    VIntRoundTrip(id.lsb, EncodeVInt(id.node) + rest);
    VIntRoundTrip(id.node, rest);
  }

  lemma TxnIdSizeIsLength(id: TxnId)
    ensures |EncodeTxnId(id)| == TxnIdSize(id)
  {
    VIntSize(id.msb);
    VIntSize(id.lsb);
    VIntSize(id.node);
  }
}
