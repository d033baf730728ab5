/**
 * The two streams the serializers work on, DataOutputPlus and DataInputPlus,
 * reduced to the bytes they hold. A value goes through its own serializer as
 * one step (its encoder's bytes are appended, or its decoder reads from the
 * front); the counted loops of the dependency codec are WriteEach, ReadEach
 * and SizeEach, each proved against the run functions of Wire.
 */
module Streams {
  import opened Wire

  /** DataOutputPlus: the bytes written so far. */
  class DataOutput {
    var written: seq<byte>

    constructor()
      ensures written == []
    {
      written := [];
    }

    /** One value through its serializer: exactly its bytes are appended. */
    method Write(b: seq<byte>)
      modifies this
      ensures written == old(written) + b
    {
      written := written + b;
    }

    /** `for (int i = 0; i < count; i++) serializer.serialize(xs[i], out)` */
    method WriteEach<T>(encode: T -> seq<byte>, xs: seq<T>)
      modifies this
      ensures written == old(written) + ConcatMap(encode, xs)
    {
      for i := 0 to |xs|
        invariant written == old(written) + ConcatMap(encode, xs[..i])
      {
        ConcatMapSnoc(encode, xs[..i], xs[i]);
        assert xs[..i + 1] == xs[..i] + [xs[i]];
        written := written + encode(xs[i]);
      }
      assert xs[..|xs|] == xs;
    }
  }

  /**
   * How a read step relates to its decoder: on success the value it returns
   * and the input left after it are the decoder's; on failure it throws the
   * decoder's failure, and how much input it used up is unspecified.
   */
  ghost predicate Follows<T>(r: Result<T>, d: Decoded<T>, rest: seq<byte>)
  {
    match d
    case Ok((v, after)) => r == Ok(v) && rest == after
    case Err(f) => r == Err(f)
  }

  /** A decoded run with a prefix of items already read in front of it. */
  function Prepend<T>(xs: seq<T>, d: Decoded<seq<T>>): (r: Decoded<seq<T>>)
    ensures r.Ok? <==> d.Ok?
    ensures r.Ok? ==> |r.value.0| == |xs| + |d.value.0| && r.value.1 == d.value.1
  {
    if d.Ok? then Ok((xs + d.value.0, d.value.1)) else d
  }

  lemma PrependEmpty<T>(d: Decoded<seq<T>>)
    ensures Prepend([], d) == d
  {
    if d.Ok? {
      assert [] + d.value.0 == d.value.0;
    }
  }

  lemma PrependTwice<T>(xs: seq<T>, ys: seq<T>, d: Decoded<seq<T>>)
    ensures Prepend(xs, Prepend(ys, d)) == Prepend(xs + ys, d)
  {
    if d.Ok? {
      assert xs + (ys + d.value.0) == (xs + ys) + d.value.0;
    }
  }

  /** One item read off the front of a run leaves the rest of the run. */
  lemma RunStep<T>(decode: seq<byte> -> Decoded<T>, n: nat, s: seq<byte>, x: T, after: seq<byte>)
    requires n > 0 && decode(s) == Ok((x, after))
    ensures DecodeRun(decode, n, s) == Prepend([x], DecodeRun(decode, n - 1, after))
  {
  }

  /** A failing item fails the whole run with its failure. */
  lemma RunStops<T>(decode: seq<byte> -> Decoded<T>, n: nat, s: seq<byte>)
    requires n > 0 && decode(s).Err?
    ensures DecodeRun(decode, n, s) == Err(decode(s).failure)
  {
  }

  /** DataInputPlus: the bytes not read yet. */
  class DataInput {
    var remaining: seq<byte>

    constructor(data: seq<byte>)
      ensures remaining == data
    {
      remaining := data;
    }

    /** One value through its deserializer. */
    method Read<T>(decode: seq<byte> -> Decoded<T>) returns (r: Result<T>)
      modifies this
      ensures Follows(r, decode(old(remaining)), remaining)
    {
      var d := decode(remaining);
      if d.Err? {
        return Err(d.failure);
      }
      remaining := d.value.1;
      r := Ok(d.value.0);
    }

    /**
     * `T[] xs = new T[count]; for (...) xs[i] = serializer.deserialize(in)`:
     * the array is filled front to back and the first failure is thrown.
     */
    method ReadEach<T(0)>(decode: seq<byte> -> Decoded<T>, count: nat) returns (r: Result<seq<T>>)
      modifies this
      ensures Follows(r, DecodeRun(decode, count, old(remaining)), remaining)
    {
      var xs := new T[count];
      ghost var start := remaining;
      ghost var got: seq<T> := [];
      PrependEmpty(DecodeRun(decode, count, start));
      for i := 0 to count
        invariant xs[..i] == got
        invariant DecodeRun(decode, count, start) == Prepend(got, DecodeRun(decode, count - i, remaining))
      {
        ghost var before := remaining;
        var x := Read(decode);
        if x.Err? {
          RunStops(decode, count - i, before);
          return Err(x.failure);
        }
        RunStep(decode, count - i, before, x.value, remaining);
        PrependTwice(got, [x.value], DecodeRun(decode, count - i - 1, remaining));
        xs[i] := x.value;
        got := got + [x.value];
      }
      assert xs[..] == got;
      assert got + [] == got;
      r := Ok(xs[..]);
    }
  }

  /** `size += serializer.serializedSize(xs[i])` over a run, with a size that agrees with the encoder. */
  method SizeEach<T>(encode: T -> seq<byte>, size: T -> nat, xs: seq<T>) returns (total: nat)
    requires forall x :: |encode(x)| == size(x)
    ensures total == |ConcatMap(encode, xs)|
  {
    total := 0;
    for i := 0 to |xs|
      invariant total == |ConcatMap(encode, xs[..i])|
    {
      ConcatMapSnoc(encode, xs[..i], xs[i]);
      assert xs[..i + 1] == xs[..i] + [xs[i]];
      total := total + size(xs[i]);
    }
    assert xs[..|xs|] == xs;
  }
}
