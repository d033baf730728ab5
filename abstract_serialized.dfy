/**
 * AbstractSerialized: a value kept in serialised form, with a cache slot for
 * the decoded value. The bytes are fixed at construction; `get` fills the
 * cache from them on demand and `unmemoize` empties it again. Equality and
 * hashing look at the bytes only.
 */
module Serialized {
  import opened Wire
  import opened Optional

  /**
   * serializer(): the subclass's codec, as the two AccordSerializers calls use
   * it. The decoder may give back null.
   */
  datatype Codec<!T> = Codec(serialize: T -> seq<byte>, deserialize: seq<byte> -> Option<T>)

  /** A codec whose decoder undoes its encoder. */
  ghost predicate RoundTrips<T(!new)>(c: Codec<T>)
  {
    forall v :: c.deserialize(c.serialize(v)) == Some(v)
  }

  const INT_MIN: int := -0x8000_0000
  const INT_LIMIT: int := 0x8000_0000

  /** Java int arithmetic: the result reduced into [-2^31, 2^31). */
  function WrapInt(x: int): (r: int)
    ensures INT_MIN <= r < INT_LIMIT
    ensures (r - x) % 0x1_0000_0000 == 0
  {
    (x - INT_MIN) % 0x1_0000_0000 + INT_MIN
  }

  /** ByteBuffer.get(i) widened to int: bytes are signed. */
  function SignedByte(b: byte): (r: int)
    ensures -128 <= r < 128
    ensures (r - b as int) % 256 == 0
  {
    if b < 128 then b as int else b as int - 256
  }

  /**
   * ByteBuffer.hashCode over the remaining bytes: starting from 1 and walking
   * from the last byte to the first, h = 31 * h + byte, in int arithmetic.
   */
  function BufferHash(s: seq<byte>): (h: int)
    ensures INT_MIN <= h < INT_LIMIT
    decreases |s|
  {
    if |s| == 0 then 1 else WrapInt(31 * BufferHash(s[1..]) + SignedByte(s[0]))
  }

  class AbstractSerialized<T(!new)> {
    /** The concrete subclass, as getClass() reports it; each subclass brings its own serializer(). */
    const subclass: string
    const codec: Codec<T>
    const bytes: Option<seq<byte>>
    var memoized: Option<T>

    /** The value the bytes stand for: what a cold `get` returns. */
    ghost function Value(): Option<T>
    {
      if bytes.Some? then codec.deserialize(bytes.value) else None
    }

    /** The cache never disagrees with the bytes. */
    ghost predicate Valid()
      reads this
    {
      memoized.Some? ==> Value() == memoized
    }

    /** From bytes: nothing decoded yet. */
    constructor FromBytes(subclass: string, codec: Codec<T>, bytes: Option<seq<byte>>)
      ensures this.subclass == subclass && this.codec == codec && this.bytes == bytes && memoized == None
      ensures Valid()
    {
      this.subclass := subclass;
      this.codec := codec;
      this.bytes := bytes;
      this.memoized := None;
    }

    /** From a value: its encoding is stored and the value itself cached; null stays null. */
    constructor FromValue(subclass: string, codec: Codec<T>, value: Option<T>)
      ensures this.subclass == subclass && this.codec == codec && memoized == value
      ensures value.Some? ==> bytes == Some(codec.serialize(value.value))
      ensures value.None? ==> bytes == None
      ensures RoundTrips(codec) ==> Valid() && Value() == value
    {
      this.subclass := subclass;
      this.codec := codec;
      this.bytes := if value.Some? then Some(codec.serialize(value.value)) else None;
      this.memoized := value;
    }

    /**
     * get: the cached value if there is one; otherwise the bytes are decoded
     * and the result cached. Either way a valid object answers Value().
     */
    method Get() returns (r: Option<T>)
      modifies this
      ensures old(memoized).Some? ==> r == old(memoized) && memoized == old(memoized)
      ensures old(memoized).None? && bytes.Some? ==> r == codec.deserialize(bytes.value) && memoized == r
      ensures old(memoized).None? && bytes.None? ==> r == None && memoized == None
      ensures old(Valid()) ==> Valid() && r == Value()
    {
      r := memoized;
      if r.None? && bytes.Some? {
        r := codec.deserialize(bytes.value);
        memoized := r;
      }
    }

    /** unmemoize: only the cache is emptied; the bytes, and so Value(), stay. */
    method Unmemoize()
      modifies this
      ensures memoized == None && Valid()
    {
      memoized := None;
    }

    function Bytes(): (b: Option<seq<byte>>)
      ensures b == bytes
    {
      bytes
    }

    /** equals: the same object, or one of the same subclass holding equal bytes; the cache is not read. */
    predicate Equals(other: AbstractSerialized?<T>)
      ensures Equals(other) <==> other != null && subclass == other.subclass && bytes == other.bytes
    {
      this == other || (other != null && subclass == other.subclass && bytes == other.bytes)
    }

    /** hashCode: the buffer's hash, or 0 without bytes. */
    function HashCode(): (h: int)
      ensures INT_MIN <= h < INT_LIMIT
      ensures bytes.None? ==> h == 0
    {
      if bytes.Some? then BufferHash(bytes.value) else 0
    }
  }

  /** Equal objects hash alike, whatever either has cached. */
  lemma HashAgreesWithEquals<T(!new)>(a: AbstractSerialized<T>, b: AbstractSerialized<T>)
    requires a.Equals(b)
    ensures a.HashCode() == b.HashCode()
  {
  }

  /**
   * A value stored and read back cold, after the cache was dropped, comes back
   * as it went in, provided the codec round-trips.
   */
  method StoreAndReload<T(!new)>(subclass: string, codec: Codec<T>, value: T) returns (r: Option<T>)
    requires RoundTrips(codec)
    ensures r == Some(value)
  {
    var s := new AbstractSerialized.FromValue(subclass, codec, Some(value));
    s.Unmemoize();
    r := s.Get();
  }
}
