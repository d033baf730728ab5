/**
 * Bytes on the wire, the results a decoder returns, and the integer codings
 * every serializer of the dependency codec is built from.
 *
 * The unsigned variable-length integer here is a stand-in for Cassandra's own
 * VInt coding (which lives outside the modelled files): seven payload bits per
 * byte, high bit set on every byte but the last. The dependency codec relies
 * only on the two facts proved below, that it decodes back and that
 * SizeofUnsignedVInt predicts its length.
 */
module Wire {

  newtype byte = b: int | 0 <= b < 256

  /** Largest Java array length plus one: a count at or above it is a negative `int`. */
  const INT32_LIMIT: nat := 0x8000_0000
  /** Values an unsigned 32-bit VInt read accepts are below this. */
  const UINT32_LIMIT: nat := 0x1_0000_0000

  /** Why decoding (or a validating constructor) gave up. */
  datatype Failure =
    | Truncated                 // the input ended inside a value (an EOFException)
    | VIntOverflow              // an unsigned 32-bit read met a value of 2^32 or more
    | NegativeArraySize         // a count of 2^31 or more, read back as a negative int
    | UnknownTag                // a kind byte that no variant uses
    | SubsetPositionOutOfRange  // a subset position beyond the end of its superset
    | CrossTableRange           // range endpoints from two different tables

  datatype Result<+T> = Ok(value: T) | Err(failure: Failure) {
    predicate IsFailure() { Err? }
    function PropagateFailure<U>(): Result<U>
      requires Err?
    {
      Err(failure)
    }
    function Extract(): T
      requires Ok?
    {
      value
    }
  }

  /** What a decoder returns: the value read and the input that follows it. */
  type Decoded<T> = Result<(T, seq<byte>)>

  // ---------------------------------------------------------------------------
  // Unsigned VInt

  function EncodeVInt(n: nat): (r: seq<byte>)
    decreases n
  {
    if n < 128 then [n as byte]
    else [(128 + n % 128) as byte] + EncodeVInt(n / 128)
  }

  function DecodeVInt(s: seq<byte>): Decoded<nat>
    decreases |s|
  {
    if |s| == 0 then Err(Truncated)
    else if s[0] < 128 then Ok((s[0] as nat, s[1..]))
    else
      var high :- DecodeVInt(s[1..]);
      Ok(((s[0] as int - 128) + 128 * high.0, high.1))
  }

  /** The size computation, done apart from the encoder as the serializedSize paths do. */
  function SizeofUnsignedVInt(n: nat): nat
    decreases n
  {
    if n < 128 then 1 else 1 + SizeofUnsignedVInt(n / 128)
  }

  lemma {:induction false} VIntRoundTrip(n: nat, rest: seq<byte>)
    ensures DecodeVInt(EncodeVInt(n) + rest) == Ok((n, rest))
    decreases n
  {
    if n >= 128 {
      var s := EncodeVInt(n) + rest;
      assert s[1..] == EncodeVInt(n / 128) + rest;
      VIntRoundTrip(n / 128, rest);
    }
  }

  lemma {:induction false} VIntSize(n: nat)
    ensures |EncodeVInt(n)| == SizeofUnsignedVInt(n)
    decreases n
  {
    if n >= 128 {
      VIntSize(n / 128);
    }
  }

  /**
   * readUnsignedVInt32: the value must fit 32 unsigned bits. Values of 2^31 and
   * above come back as negative Java ints; that reading is left to the callers.
   */
  function ReadUnsignedVInt32(s: seq<byte>): (r: Decoded<nat>)
    ensures r.Ok? ==> r.value.0 < UINT32_LIMIT
  {
    var v :- DecodeVInt(s);
    if v.0 >= UINT32_LIMIT then Err(VIntOverflow) else Ok(v)
  }

  lemma UInt32RoundTrip(n: nat, rest: seq<byte>)
    requires n < UINT32_LIMIT
    ensures ReadUnsignedVInt32(EncodeVInt(n) + rest) == Ok((n, rest))
  {
    VIntRoundTrip(n, rest);
  }

  /**
   * A count read before `new T[count]`: a value of 2^31 or more is a negative
   * int, and allocating an array of that length fails.
   */
  function ReadCount(s: seq<byte>): (r: Decoded<nat>)
    ensures r.Ok? ==> r.value.0 < INT32_LIMIT
  {
    var c :- ReadUnsignedVInt32(s);
    if c.0 >= INT32_LIMIT then Err(NegativeArraySize) else Ok(c)
  }

  lemma CountRoundTrip(n: nat, rest: seq<byte>)
    requires n < INT32_LIMIT
    ensures ReadCount(EncodeVInt(n) + rest) == Ok((n, rest))
  {
    UInt32RoundTrip(n, rest);
  }

  // ---------------------------------------------------------------------------
  // Signed VInt (zig-zag over the unsigned one) and booleans

  function ZigZag(x: int): nat
  {
    if x >= 0 then 2 * x else -2 * x - 1
  }

  function UnZigZag(n: nat): int
  {
    if n % 2 == 0 then n / 2 else -(n + 1) / 2
  }

  lemma ZigZagInverse(x: int)
    ensures UnZigZag(ZigZag(x)) == x
  {
  }

  function EncodeSignedVInt(x: int): seq<byte>
  {
    EncodeVInt(ZigZag(x))
  }

  function DecodeSignedVInt(s: seq<byte>): Decoded<int>
  {
    var n :- DecodeVInt(s);
    Ok((UnZigZag(n.0), n.1))
  }

  lemma SignedVIntRoundTrip(x: int, rest: seq<byte>)
    ensures DecodeSignedVInt(EncodeSignedVInt(x) + rest) == Ok((x, rest))
  {
    VIntRoundTrip(ZigZag(x), rest);
    ZigZagInverse(x);
  }

  /** writeBoolean writes 1 or 0; readBoolean takes any non-zero byte as true. */
  function EncodeBoolean(b: bool): seq<byte>
  {
    if b then [1] else [0]
  }

  function DecodeBoolean(s: seq<byte>): Decoded<bool>
  {
    if |s| == 0 then Err(Truncated) else Ok((s[0] != 0, s[1..]))
  }

  lemma BooleanRoundTrip(b: bool, rest: seq<byte>)
    ensures DecodeBoolean(EncodeBoolean(b) + rest) == Ok((b, rest))
    ensures |EncodeBoolean(b)| == 1
  {
    assert (EncodeBoolean(b) + rest)[1..] == rest;
  }

  // ---------------------------------------------------------------------------
  // Writing a run of items one after another, as the counted loops do

  function ConcatMap<T>(f: T -> seq<byte>, xs: seq<T>): seq<byte>
    decreases |xs|
  {
    if |xs| == 0 then [] else f(xs[0]) + ConcatMap(f, xs[1..])
  }

  function SumMap<T>(g: T -> nat, xs: seq<T>): nat
    decreases |xs|
  {
    if |xs| == 0 then 0 else g(xs[0]) + SumMap(g, xs[1..])
  }

  /** Reading a counted run: n items one after another, stopping at the first failure. */
  function DecodeRun<T>(decode: seq<byte> -> Decoded<T>, n: nat, s: seq<byte>): (r: Decoded<seq<T>>)
    ensures r.Ok? ==> |r.value.0| == n
    decreases n
  {
    if n == 0 then Ok(([], s))
    else
      var head :- decode(s);
      var tail :- DecodeRun(decode, n - 1, head.1);
      Ok(([head.0] + tail.0, tail.1))
  }

  /** A run reads back when each of its items does, whatever follows it. */
  lemma {:induction false} DecodeRunRoundTrip<T>(encode: T -> seq<byte>, decode: seq<byte> -> Decoded<T>,
                                                 xs: seq<T>, rest: seq<byte>)
    requires forall i, tail :: 0 <= i < |xs| ==> decode(encode(xs[i]) + tail) == Ok((xs[i], tail))
    ensures DecodeRun(decode, |xs|, ConcatMap(encode, xs) + rest) == Ok((xs, rest))
    decreases |xs|
  {
    if |xs| > 0 {
      var tail := ConcatMap(encode, xs[1..]) + rest;
      assert ConcatMap(encode, xs) + rest == encode(xs[0]) + tail;
      assert decode(encode(xs[0]) + tail) == Ok((xs[0], tail));
      forall i, t | 0 <= i < |xs[1..]|
        ensures decode(encode(xs[1..][i]) + t) == Ok((xs[1..][i], t))
      {
        assert xs[1..][i] == xs[i + 1];
      }
      DecodeRunRoundTrip(encode, decode, xs[1..], rest);
      assert [xs[0]] + xs[1..] == xs;
    } else {
      assert ConcatMap(encode, xs) + rest == rest;
    }
  }

  /** Writing one more item extends the output by exactly that item's bytes. */
  lemma {:induction false} ConcatMapSnoc<T>(f: T -> seq<byte>, xs: seq<T>, x: T)
    ensures ConcatMap(f, xs + [x]) == ConcatMap(f, xs) + f(x)
    decreases |xs|
  {
    if |xs| == 0 {
      assert xs + [x] == [x];
    } else {
      assert (xs + [x])[1..] == xs[1..] + [x];
      ConcatMapSnoc(f, xs[1..], x);
    }
  }

  lemma {:induction false} SumMapSnoc<T>(g: T -> nat, xs: seq<T>, x: T)
    ensures SumMap(g, xs + [x]) == SumMap(g, xs) + g(x)
    decreases |xs|
  {
    if |xs| == 0 {
      assert xs + [x] == [x];
    } else {
      assert (xs + [x])[1..] == xs[1..] + [x];
      SumMapSnoc(g, xs[1..], x);
    }
  }

  /** A per-item size that agrees with the per-item encoder adds up to the run's length. */
  lemma {:induction false} ConcatMapLength<T>(f: T -> seq<byte>, g: T -> nat, xs: seq<T>)
    requires forall x :: |f(x)| == g(x)
    ensures |ConcatMap(f, xs)| == SumMap(g, xs)
    decreases |xs|
  {
    if |xs| > 0 {
      ConcatMapLength(f, g, xs[1..]);
    }
  }

  /**
   * Appending the fields of a block one by one appends the block: the
   * regroupings the codec proofs hand the solver instead of unfolding encoders.
   */
  lemma AppendTwo(base: seq<byte>, a: seq<byte>, b: seq<byte>)
    ensures base + a + b == base + (a + b)
  {
  }

  lemma AppendThree(base: seq<byte>, a: seq<byte>, b: seq<byte>, c: seq<byte>)
    ensures base + a + b + c == base + (a + b + c)
  {
  }

  lemma AppendFour(base: seq<byte>, a: seq<byte>, b: seq<byte>, c: seq<byte>, d: seq<byte>)
    ensures base + a + b + c + d == base + (a + b + c + d)
  {
  }

  lemma AppendFive(base: seq<byte>, a: seq<byte>, b: seq<byte>, c: seq<byte>, d: seq<byte>, e: seq<byte>)
    ensures base + a + b + c + d + e == base + (a + b + c + d + e)
  {
  }

  lemma AppendSix(base: seq<byte>, a: seq<byte>, b: seq<byte>, c: seq<byte>, d: seq<byte>, e: seq<byte>, f: seq<byte>)
    ensures base + a + b + c + d + e + f == base + (a + b + c + d + e + f)
  {
  }
}
