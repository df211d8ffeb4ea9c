/** binary/encoder.go and binary/decoder.go: the big-endian writer and reader.

    `Take...` functions read one value off the front of a byte string; they are the
    specification of the position-advancing `Decoder`. */
module Codec {
  import opened Results
  import opened Bytes

  /** A value together with the bytes left after it. */
  type Taken<T> = Result<(T, Bytes)>

  function TakeBytes(s: Bytes, n: nat): (r: Taken<Bytes>)
    ensures r.Ok? <==> n <= |s|
    ensures r.Ok? ==> |r.value.0| == n && s == r.value.0 + r.value.1
  {
    if |s| < n then Err("buffer underflow") else Ok((s[..n], s[n..]))
  }

  function TakeU8(s: Bytes): (r: Taken<u8>)
    ensures r.Ok? <==> 1 <= |s|
    ensures r.Ok? ==> s == [r.value.0] + r.value.1
  {
    var (b, t) :- TakeBytes(s, 1);
    Ok((b[0], t))
  }

  function TakeU16(s: Bytes): (r: Taken<u16>)
    ensures r.Ok? <==> 2 <= |s|
    ensures r.Ok? ==> s == U16(r.value.0) + r.value.1
  {
    var (b, t) :- TakeBytes(s, 2);
    BigEndianOfValue(b); Widths();
    Ok((Value(b), t))
  }

  function TakeU32(s: Bytes): (r: Taken<u32>)
    ensures r.Ok? <==> 4 <= |s|
    ensures r.Ok? ==> s == U32(r.value.0) + r.value.1
  {
    var (b, t) :- TakeBytes(s, 4);
    BigEndianOfValue(b); Widths();
    Ok((Value(b), t))
  }

  function TakeU64(s: Bytes): (r: Taken<u64>)
    ensures r.Ok? <==> 8 <= |s|
    ensures r.Ok? ==> s == U64(r.value.0) + r.value.1
  {
    var (b, t) :- TakeBytes(s, 8);
    BigEndianOfValue(b); Widths();
    Ok((Value(b), t))
  }

  lemma TakeBytesOf(b: Bytes, t: Bytes)
    ensures TakeBytes(b + t, |b|) == Ok((b, t))
  {
    Cut(b, t, (b + t)[..|b|], (b + t)[|b|..]);
  }

  lemma TakeU8Of(v: u8, t: Bytes)
    ensures TakeU8([v] + t) == Ok((v, t))
  {
    TakeBytesOf([v], t);
  }

  lemma TakeU16Of(v: u16, t: Bytes)
    ensures TakeU16(U16(v) + t) == Ok((v, t))
  {
    TakeBytesOf(U16(v), t);
    Widths();
    ValueOfBigEndian(2, v);
  }

  lemma TakeU32Of(v: u32, t: Bytes)
    ensures TakeU32(U32(v) + t) == Ok((v, t))
  {
    TakeBytesOf(U32(v), t);
    Widths();
    ValueOfBigEndian(4, v);
  }

  lemma TakeU64Of(v: u64, t: Bytes)
    ensures TakeU64(U64(v) + t) == Ok((v, t))
  {
    TakeBytesOf(U64(v), t);
    Widths();
    ValueOfBigEndian(8, v);
  }

  /** What a decoding method did, against the specification of the bytes it had before. */
  ghost predicate Agrees<T>(spec: Taken<T>, r: Result<T>, after: Bytes) {
    match spec
    case Ok((v, t)) => r == Ok(v) && after == t
    case Err(e) => r == Err(e)
  }

  /** The writer only ever appends; its buffer is what has been written so far. */
  class Encoder {
    var buf: Bytes

    constructor ()
      ensures buf == []
    {
      buf := [];
    }

    method WriteU8(v: u8)
      modifies this
      ensures buf == old(buf) + [v]
    {
      buf := buf + [v];
    }

    method WriteU16(v: u16)
      modifies this
      ensures buf == old(buf) + U16(v)
    {
      buf := buf + U16(v);
    }

    method WriteU32(v: u32)
      modifies this
      ensures buf == old(buf) + U32(v)
    {
      buf := buf + U32(v);
    }

    method WriteU64(v: u64)
      modifies this
      ensures buf == old(buf) + U64(v)
    {
      buf := buf + U64(v);
    }

    method WriteBytes(b: Bytes)
      modifies this
      ensures buf == old(buf) + b
    {
      buf := buf + b;
    }
  }

  /** The reader: `pos` advances over `buf` and never passes its end. */
  class Decoder {
    const buf: Bytes
    var pos: nat

    ghost predicate Valid()
      reads this
    {
      pos <= |buf|
    }

    /** The bytes not read yet. */
    ghost function Rest(): Bytes
      reads this
      requires Valid()
    {
      buf[pos..]
    }

    constructor (b: Bytes)
      ensures Valid() && pos == 0 && buf == b && Rest() == b
    {
      buf := b;
      pos := 0;
    }

    method ReadBytes(n: nat) returns (r: Result<Bytes>)
      requires Valid()
      modifies this`pos
      ensures Valid() && old(pos) <= pos
      ensures Agrees(TakeBytes(old(Rest()), n), r, Rest())
      ensures r.Err? ==> pos == old(pos)
    {
      if pos + n > |buf| {
        return Err("buffer underflow");
      }
      assert Rest()[..n] == buf[pos..pos + n] && Rest()[n..] == buf[pos + n..];
      r := Ok(buf[pos..pos + n]);
      pos := pos + n;
    }

    method ReadU8() returns (r: Result<u8>)
      requires Valid()
      modifies this`pos
      ensures Valid() && old(pos) <= pos
      ensures Agrees(TakeU8(old(Rest())), r, Rest())
      ensures r.Err? ==> pos == old(pos)
    {
      var b :- ReadBytes(1);
      r := Ok(b[0]);
    }

    method ReadU16() returns (r: Result<u16>)
      requires Valid()
      modifies this`pos
      ensures Valid() && old(pos) <= pos
      ensures Agrees(TakeU16(old(Rest())), r, Rest())
      ensures r.Err? ==> pos == old(pos)
    {
      var b :- ReadBytes(2);
      BigEndianOfValue(b); Widths();
      r := Ok(Value(b));
    }

    method ReadU32() returns (r: Result<u32>)
      requires Valid()
      modifies this`pos
      ensures Valid() && old(pos) <= pos
      ensures Agrees(TakeU32(old(Rest())), r, Rest())
      ensures r.Err? ==> pos == old(pos)
    {
      var b :- ReadBytes(4);
      BigEndianOfValue(b); Widths();
      r := Ok(Value(b));
    }

    method ReadU64() returns (r: Result<u64>)
      requires Valid()
      modifies this`pos
      ensures Valid() && old(pos) <= pos
      ensures Agrees(TakeU64(old(Rest())), r, Rest())
      ensures r.Err? ==> pos == old(pos)
    {
      var b :- ReadBytes(8);
      BigEndianOfValue(b); Widths();
      r := Ok(Value(b));
    }

    method Remaining() returns (n: nat)
      requires Valid()
      ensures n == |Rest()|
    {
      n := |buf| - pos;
    }
  }
}
