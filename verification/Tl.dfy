/** The TL wire codec: a writer that appends typed values and a reader that takes them back. */
module Tl {
  import opened Wrappers
  import opened Bytes

  const VECTOR: u32 := 0x1cb5_c415
  const BOOL_TRUE: u32 := 0x9972_75b5
  const BOOL_FALSE: u32 := 0xbc79_9737
  const SHORT_BYTES_LIMIT: nat := 254
  const DEFAULT_MAX_BYTES: nat := 0x400_0000
  const DEFAULT_MAX_VECTOR: nat := 1_000_000

  datatype TlError =
    | UnexpectedEof
    | InvalidBytesPrefix
    | BytesLengthLimit
    | VectorLengthLimit
    | NegativeVectorLength
    | UnexpectedConstructor
    | InvalidBoolConstructor
    | LengthOutOfRange

  type Fixed8 = s: bytes | |s| == 8 witness [0, 0, 0, 0, 0, 0, 0, 0]
  type Fixed16 = s: bytes | |s| == 16 ghost witness seq(16, i => 0)
  type Fixed32 = s: bytes | |s| == 32 ghost witness seq(32, i => 0)

  /** A typed value; a double is its eight bytes, a string its UTF-8 bytes. */
  datatype Value =
    | I32(i32: i32)
    | U32(u32: u32)
    | I64(i64: i64)
    | U64(u64: u64)
    | F64(f64: Fixed8)
    | I128(i128: Fixed16)
    | I256(i256: Fixed32)
    | Bool(b: bool)
    | ByteString(s: bytes)
    | VectorLength(length: nat)

  datatype Kind = KI32 | KU32 | KI64 | KU64 | KF64 | KI128 | KI256 | KBool | KByteString | KVectorLength

  function KindOf(v: Value): Kind
  {
    match v
    case I32(_) => KI32
    case U32(_) => KU32
    case I64(_) => KI64
    case U64(_) => KU64
    case F64(_) => KF64
    case I128(_) => KI128
    case I256(_) => KI256
    case Bool(_) => KBool
    case ByteString(_) => KByteString
    case VectorLength(_) => KVectorLength
  }

  function PaddingLength(n: nat): nat
  {
    (4 - n % 4) % 4
  }

  function EncodeBytes(s: bytes): Result<bytes, TlError>
  {
    if |s| < SHORT_BYTES_LIMIT then Ok([|s| as byte] + s + Zeros(PaddingLength(1 + |s|)))
    else if |s| > 0xff_ffff then Err(LengthOutOfRange)
    else Ok([254] + LeBytes(|s|, 3) + s + Zeros(PaddingLength(4 + |s|)))
  }

  function Encode(v: Value): Result<bytes, TlError>
  {
    match v
    case I32(x) => Ok(I32ToBytes(x))
    case U32(x) => Ok(LeBytes(x, 4))
    case I64(x) => Ok(I64ToBytes(x))
    case U64(x) => Ok(LeBytes(x, 8))
    case F64(s) => Ok(s)
    case I128(s) => Ok(s)
    case I256(s) => Ok(s)
    case Bool(b) => Ok(LeBytes(if b then BOOL_TRUE else BOOL_FALSE, 4))
    case ByteString(s) => EncodeBytes(s)
    case VectorLength(n) => if n >= I32_END then Err(LengthOutOfRange) else Ok(LeBytes(VECTOR, 4) + I32ToBytes(n))
  }

  datatype Read = Read(value: Value, used: nat)

  datatype Limits = Limits(maxBytes: nat, maxVector: nat)

  datatype Header = Header(size: nat, length: nat)

  /** The length prefix of a byte string: one byte, or 254 and three more. */
  function DecodeHeader(s: bytes): Result<Header, TlError>
  {
    if |s| < 1 then Err(UnexpectedEof)
    else if s[0] == 255 then Err(InvalidBytesPrefix)
    else if s[0] < 254 then Ok(Header(1, s[0]))
    else if |s| < 4 then Err(UnexpectedEof)
    else Ok(Header(4, LeValue(s[1..4])))
  }

  function DecodeBytes(s: bytes, maxBytes: nat): Result<Read, TlError>
  {
    var h := DecodeHeader(s);
    if h.Err? then Err(h.error)
    else
      var end := h.value.size + h.value.length;
      var used := end + PaddingLength(end);
      if h.value.length > maxBytes then Err(BytesLengthLimit)
      else if used > |s| then Err(UnexpectedEof)
      else Ok(Read(ByteString(s[h.value.size..end]), used))
  }

  function DecodeVector(s: bytes, maxVector: nat): Result<Read, TlError>
  {
    if |s| < 4 then Err(UnexpectedEof)
    else if U32FromBytes(s[..4]) != VECTOR then Err(UnexpectedConstructor)
    else if |s| < 8 then Err(UnexpectedEof)
    else
      var n := I32FromBytes(s[4..8]);
      if n < 0 then Err(NegativeVectorLength)
      else if n > maxVector then Err(VectorLengthLimit)
      else Ok(Read(VectorLength(n), 8))
  }

  function DecodeBool(s: bytes): Result<Read, TlError>
  {
    if |s| < 4 then Err(UnexpectedEof)
    else if U32FromBytes(s[..4]) == BOOL_TRUE then Ok(Read(Bool(true), 4))
    else if U32FromBytes(s[..4]) == BOOL_FALSE then Ok(Read(Bool(false), 4))
    else Err(InvalidBoolConstructor)
  }

  /** The value of the given kind at the front of s, and how many bytes it takes. */
  function Decode(k: Kind, s: bytes, limits: Limits): Result<Read, TlError>
  {
    match k
    case KI32 => if |s| < 4 then Err(UnexpectedEof) else Ok(Read(I32(I32FromBytes(s[..4])), 4))
    case KU32 => if |s| < 4 then Err(UnexpectedEof) else Ok(Read(U32(U32FromBytes(s[..4])), 4))
    case KI64 => if |s| < 8 then Err(UnexpectedEof) else Ok(Read(I64(I64FromBytes(s[..8])), 8))
    case KU64 => if |s| < 8 then Err(UnexpectedEof) else Ok(Read(U64(U64FromBytes(s[..8])), 8))
    case KF64 => if |s| < 8 then Err(UnexpectedEof) else Ok(Read(F64(s[..8]), 8))
    case KI128 => if |s| < 16 then Err(UnexpectedEof) else Ok(Read(I128(s[..16]), 16))
    case KI256 => if |s| < 32 then Err(UnexpectedEof) else Ok(Read(I256(s[..32]), 32))
    case KBool => DecodeBool(s)
    case KByteString => DecodeBytes(s, limits.maxBytes)
    case KVectorLength => DecodeVector(s, limits.maxVector)
  }

  /** What the reader's limits allow. */
  predicate Within(v: Value, limits: Limits)
  {
    (v.ByteString? ==> |v.s| <= limits.maxBytes) && (v.VectorLength? ==> v.length <= limits.maxVector)
  }

  lemma EncodedAligned(v: Value)
    requires Encode(v).Ok?
    ensures |Encode(v).value| % 4 == 0 && 0 < |Encode(v).value|
  {
    hide PaddingLength, LeBytes, Zeros;
    if v.ByteString? {
      PaddedAligned(1 + |v.s|);
      PaddedAligned(4 + |v.s|);
    }
  }

  lemma PaddedAligned(n: nat)
    ensures (n + PaddingLength(n)) % 4 == 0
  {
  }

  lemma BytesRoundTrip(s: bytes, rest: bytes, maxBytes: nat)
    requires EncodeBytes(s).Ok?
    ensures var e := EncodeBytes(s).value;
      DecodeBytes(e + rest, maxBytes) == if |s| <= maxBytes then Ok(Read(ByteString(s), |e|)) else Err(BytesLengthLimit)
  {
    var e := EncodeBytes(s).value;
    var all := e + rest;
    if |s| < SHORT_BYTES_LIMIT {
      assert all[0] == |s| && all[1..1 + |s|] == s;
    } else {
      var size := LeBytes(|s|, 3);
      assert all[0] == 254 && all[1..4] == size && all[4..4 + |s|] == s;
      RangeWidths();
      LeRoundTrip(|s|, 3);
    }
  }

  lemma VectorRoundTrip(n: nat, rest: bytes, maxVector: nat)
    requires n < I32_END
    ensures DecodeVector(LeBytes(VECTOR, 4) + I32ToBytes(n) + rest, maxVector) ==
      if n <= maxVector then Ok(Read(VectorLength(n), 8)) else Err(VectorLengthLimit)
  {
    var a, b := LeBytes(VECTOR, 4), I32ToBytes(n);
    var all := a + b + rest;
    assert all[..4] == a && all[4..8] == b;
    Le32RoundTrip(VECTOR);
    I32RoundTrip(n);
  }

  lemma FixedRoundTrip(v: Value, rest: bytes, limits: Limits)
    requires !v.ByteString? && !v.VectorLength?
    ensures var e := Encode(v); e.Ok? && Decode(KindOf(v), e.value + rest, limits) == Ok(Read(v, |e.value|))
  {
    var e := Encode(v).value;
    var all := e + rest;
    assert all[..|e|] == e;
    match v
    case I32(x) => I32RoundTrip(x);
    case U32(x) => Le32RoundTrip(x);
    case I64(x) => I64RoundTrip(x);
    case U64(x) => Le64RoundTrip(x);
    case Bool(b) => Le32RoundTrip(BOOL_TRUE); Le32RoundTrip(BOOL_FALSE);
    case _ =>
  }

  /** A written value is read back exactly when the reader's limits allow it, whatever
      follows it; otherwise the refusal names the limit. */
  lemma ReadsBackIff(v: Value, rest: bytes, limits: Limits)
    requires Encode(v).Ok?
    ensures var e := Encode(v).value;
      Decode(KindOf(v), e + rest, limits) ==
        if Within(v, limits) then Ok(Read(v, |e|))
        else Err(if v.ByteString? then BytesLengthLimit else VectorLengthLimit)
  {
    match v
    case ByteString(s) => BytesRoundTrip(s, rest, limits.maxBytes);
    case VectorLength(n) => VectorRoundTrip(n, rest, limits.maxVector);
    case _ => FixedRoundTrip(v, rest, limits);
  }

  // ------------------------------------------------------------------- sequences

  predicate Writable(values: seq<Value>)
  {
    forall i :: 0 <= i < |values| ==> Encode(values[i]).Ok?
  }

  function EncodeAll(values: seq<Value>): bytes
    requires Writable(values)
    decreases |values|
  {
    if values == [] then [] else Encode(values[0]).value + EncodeAll(values[1..])
  }

  /** The values read in turn, and what is left of the input. */
  function DecodeAll(kinds: seq<Kind>, s: bytes, limits: Limits): Result<(seq<Value>, bytes), TlError>
    decreases |kinds|
  {
    if kinds == [] then Ok(([], s))
    else
      var first := Decode(kinds[0], s, limits);
      if first.Err? then Err(first.error)
      else if first.value.used > |s| then Err(UnexpectedEof)
      else
        var more := DecodeAll(kinds[1..], s[first.value.used..], limits);
        if more.Err? then more else Ok(([first.value.value] + more.value.0, more.value.1))
  }

  function KindsOf(values: seq<Value>): (r: seq<Kind>)
    ensures |r| == |values|
  {
    seq(|values|, i requires 0 <= i < |values| => KindOf(values[i]))
  }

  /** Any sequence of typed values that is written successfully is read back exactly, the
      input is then finished, and its length is a multiple of four. */
  lemma {:induction false} SequencesRoundTrip(values: seq<Value>, limits: Limits)
    requires Writable(values) && forall i :: 0 <= i < |values| ==> Within(values[i], limits)
    ensures DecodeAll(KindsOf(values), EncodeAll(values), limits) == Ok((values, []))
    ensures |EncodeAll(values)| % 4 == 0
    decreases |values|
  {
    hide Encode, Decode, Within, KindOf;
    if values != [] {
      var e, rest := Encode(values[0]).value, EncodeAll(values[1..]);
      ReadsBackIff(values[0], rest, limits);
      EncodedAligned(values[0]);
      SequencesRoundTrip(values[1..], limits);
      assert KindsOf(values)[1..] == KindsOf(values[1..]);
      assert (e + rest)[|e|..] == rest;
      assert [values[0]] + values[1..] == values;
    }
  }

  /** With the default limits every byte string that can be written can be read. */
  lemma DefaultsReadEveryString(s: bytes)
    requires EncodeBytes(s).Ok?
    ensures Within(ByteString(s), Limits(DEFAULT_MAX_BYTES, DEFAULT_MAX_VECTOR))
  {
  }

  // ---------------------------------------------------------- writer and reader

  class TlWriter {
    var buffer: bytes

    /** Everything written so far. */
    ghost var written: seq<Value>

    ghost predicate Valid()
      reads this
    {
      Writable(written) && buffer == EncodeAll(written)
    }

    constructor ()
      ensures Valid() && written == []
    {
      buffer, written := [], [];
    }

    /** `write_i32` to `write_vector_length`. */
    method Write(v: Value) returns (r: Result<(), TlError>)
      requires Valid()
      modifies this
      ensures Valid() && r.Ok? == Encode(v).Ok?
      ensures written == (if r.Ok? then old(written) + [v] else old(written))
      ensures r.Err? ==> r.error == LengthOutOfRange
    {
      if v.ByteString? {
        r := WriteBytes(v.s);
        return;
      }
      var encoded := Encode(v);
      if encoded.Err? {
        return Err(encoded.error);
      }
      EncodeAllSnoc(written, v);
      buffer, written := buffer + encoded.value, written + [v];
      return Ok(());
    }

    /** `write_bytes`: header, value and zero padding, pushed piece by piece. */
    method WriteBytes(s: bytes) returns (r: Result<(), TlError>)
      requires Valid()
      modifies this
      ensures Valid() && r.Ok? == EncodeBytes(s).Ok?
      ensures written == (if r.Ok? then old(written) + [ByteString(s)] else old(written))
      ensures r.Err? ==> r.error == LengthOutOfRange
    {
      hide EncodeAll, Writable, Encode, PaddingLength, LeBytes, Zeros;
      SameEncoding(s);
      ghost var before := buffer;
      var prefix: bytes;
      if |s| < SHORT_BYTES_LIMIT {
        prefix := [|s| as byte];
      } else {
        if |s| > 0xff_ffff {
          return Err(LengthOutOfRange);
        }
        ThreeBytes(|s|);
        prefix := [254] + [|s| % 256, |s| / 256 % 256, |s| / 65536 % 256];
      }
      buffer := buffer + prefix;
      buffer := buffer + s;
      var padding := Zeros(PaddingLength(|prefix| + |s|));
      buffer := buffer + padding;
      Assembled(before, prefix, s, padding);
      EncodeAllSnoc(written, ByteString(s));
      written := written + [ByteString(s)];
      return Ok(());
    }
  }

  lemma SameEncoding(s: bytes)
    ensures Encode(ByteString(s)) == EncodeBytes(s)
  {
  }

  lemma Assembled(before: bytes, prefix: bytes, s: bytes, padding: bytes)
    ensures before + prefix + s + padding == before + (prefix + s + padding)
  {
  }

  lemma ThreeBytes(n: nat)
    ensures LeBytes(n, 3) == [n % 256, n / 256 % 256, n / 65536 % 256]
  {
    assert LeBytes(n / 256 / 256 / 256, 0) == [];
    assert LeBytes(n / 256 / 256, 1) == [n / 256 / 256 % 256];
    assert LeBytes(n / 256, 2) == [n / 256 % 256, n / 256 / 256 % 256];
    assert n / 256 / 256 == n / 65536;
  }

  lemma {:induction false} EncodeAllSnoc(values: seq<Value>, v: Value)
    requires Writable(values) && Encode(v).Ok?
    ensures Writable(values + [v]) && EncodeAll(values + [v]) == EncodeAll(values) + Encode(v).value
    decreases |values|
  {
    hide Encode;
    var all := values + [v];
    if values == [] {
      assert all == [v] && [v][1..] == [];
      assert EncodeAll([]) == [];
    } else {
      EncodeAllSnoc(values[1..], v);
      assert all[1..] == values[1..] + [v];
    }
  }

  lemma DecodeKinds(k: Kind, s: bytes, limits: Limits)
    ensures k == KByteString ==> Decode(k, s, limits) == DecodeBytes(s, limits.maxBytes)
    ensures k == KVectorLength ==> Decode(k, s, limits) == DecodeVector(s, limits.maxVector)
  {
  }

  lemma Slices(s: bytes, a: nat, n: nat)
    requires a + n <= |s|
    ensures s[a..][..n] == s[a..a + n] && s[a..][n..] == s[a + n..]
  {
  }

  ghost function Prepend(
    values: seq<Value>, d: Result<(seq<Value>, bytes), TlError>): Result<(seq<Value>, bytes), TlError>
  {
    if d.Err? then d else Ok((values + d.value.0, d.value.1))
  }

  lemma Prepended(d: Result<(seq<Value>, bytes), TlError>)
    ensures Prepend([], d) == d
  {
    if d.Ok? { assert [] + d.value.0 == d.value.0; }
  }

  lemma PrependTwice(values: seq<Value>, v: Value, d: Result<(seq<Value>, bytes), TlError>)
    ensures Prepend(values, Prepend([v], d)) == Prepend(values + [v], d)
  {
    if d.Ok? { assert values + ([v] + d.value.0) == values + [v] + d.value.0; }
  }

  lemma DecodeAllStep(kinds: seq<Kind>, s: bytes, limits: Limits)
    requires kinds != []
    ensures var d := Decode(kinds[0], s, limits);
      (d.Err? ==> DecodeAll(kinds, s, limits) == Err(d.error)) &&
      (d.Ok? && d.value.used <= |s| ==>
        DecodeAll(kinds, s, limits) == Prepend([d.value.value], DecodeAll(kinds[1..], s[d.value.used..], limits)))
  {
    hide Decode;
  }

  lemma DecodeNone(kinds: seq<Kind>, s: bytes, limits: Limits)
    requires kinds == []
    ensures DecodeAll(kinds, s, limits) == Ok(([], s)) &&
      forall values :: Prepend(values, Ok(([], s))) == Ok((values, s))
  {
    forall values: seq<Value>
      ensures Prepend(values, Ok(([], s))) == Ok((values, s))
    {
      assert values + [] == values;
    }
  }

  class TlReader {
    const input: bytes
    const limits: Limits
    var offset: nat

    ghost predicate Valid()
      reads this
    {
      offset <= |input|
    }

    ghost function Rest(): bytes
      reads this
      requires Valid()
    {
      input[offset..]
    }

    constructor (input: bytes, limits: Limits)
      ensures Valid() && Rest() == input && this.limits == limits
    {
      this.input, this.limits, offset := input, limits, 0;
    }

    method Take(n: nat) returns (r: Result<bytes, TlError>)
      requires Valid()
      modifies this
      ensures Valid() && old(offset) <= offset
      ensures r.Ok? <==> n <= |old(Rest())|
      ensures r.Ok? ==> r.value == old(Rest())[..n] && Rest() == old(Rest())[n..]
      ensures r.Err? ==> r.error == UnexpectedEof && offset == old(offset)
    {
      if offset + n > |input| {
        return Err(UnexpectedEof);
      }
      r := Ok(input[offset..offset + n]);
      offset := offset + n;
    }

    /** `read_bytes`: the step-by-step reader computes the decoding of the rest. */
    method ReadBytes() returns (r: Result<Value, TlError>)
      requires Valid()
      modifies this
      ensures Valid() && old(offset) <= offset
      ensures var d := DecodeBytes(old(Rest()), limits.maxBytes);
        if d.Err? then r == Err(d.error)
        else r == Ok(d.value.value) && d.value.used <= |old(Rest())| && Rest() == old(Rest())[d.value.used..]
    {
      hide PaddingLength, DecodeHeader;
      ghost var s := Rest();
      var h := ReadHeader();
      if h.Err? {
        return Err(h.error);
      }
      var header, length := h.value.size, h.value.length;
      if length > limits.maxBytes {
        return Err(BytesLengthLimit);
      }
      var value := Take(length);
      if value.Err? {
        return Err(value.error);
      }
      Slices(s, header, length);
      var padding := Take(PaddingLength(header + length));
      if padding.Err? {
        return Err(padding.error);
      }
      Slices(s, header + length, PaddingLength(header + length));
      return Ok(ByteString(value.value));
    }

    method ReadHeader() returns (r: Result<Header, TlError>)
      requires Valid()
      modifies this
      ensures Valid() && old(offset) <= offset
      ensures r == DecodeHeader(old(Rest()))
      ensures r.Ok? ==> r.value.size <= |old(Rest())| && Rest() == old(Rest())[r.value.size..]
    {
      hide LeValue;
      ghost var s := Rest();
      var prefix := Take(1);
      if prefix.Err? {
        return Err(prefix.error);
      }
      if prefix.value[0] < 254 {
        return Ok(Header(1, prefix.value[0]));
      }
      if prefix.value[0] == 255 {
        return Err(InvalidBytesPrefix);
      }
      var size := Take(3);
      if size.Err? {
        return Err(size.error);
      }
      Slices(s, 1, 3);
      return Ok(Header(4, LeValue(size.value)));
    }

    /** `read_vector_length`. */
    method ReadVectorLength() returns (r: Result<Value, TlError>)
      requires Valid()
      modifies this
      ensures Valid() && old(offset) <= offset
      ensures var d := DecodeVector(old(Rest()), limits.maxVector);
        if d.Err? then r == Err(d.error)
        else r == Ok(d.value.value) && d.value.used <= |old(Rest())| && Rest() == old(Rest())[d.value.used..]
    {
      ghost var s := Rest();
      var kind := Take(4);
      if kind.Err? {
        return Err(kind.error);
      }
      if U32FromBytes(kind.value) != VECTOR {
        return Err(UnexpectedConstructor);
      }
      var size := Take(4);
      if size.Err? {
        return Err(size.error);
      }
      assert size.value == s[4..8];
      var n := I32FromBytes(size.value);
      if n < 0 {
        return Err(NegativeVectorLength);
      }
      if n > limits.maxVector {
        return Err(VectorLengthLimit);
      }
      return Ok(VectorLength(n));
    }

    /** `read_i32` to `read_i256_bytes`: a fixed number of bytes, then their interpretation. */
    method ReadFixed(k: Kind) returns (r: Result<Value, TlError>)
      requires Valid() && k != KByteString && k != KVectorLength
      modifies this
      ensures Valid() && old(offset) <= offset
      ensures var d := Decode(k, old(Rest()), limits);
        if d.Err? then r == Err(d.error)
        else r == Ok(d.value.value) && d.value.used <= |old(Rest())| && Rest() == old(Rest())[d.value.used..]
    {
      var width :=
        if k == KI256 then 32 else if k == KI128 then 16 else if k == KI32 || k == KU32 || k == KBool then 4 else 8;
      var taken := Take(width);
      if taken.Err? {
        return Err(taken.error);
      }
      assert taken.value[..width] == taken.value;
      var decoded := Decode(k, taken.value, limits);
      if decoded.Err? {
        return Err(decoded.error);
      }
      return Ok(decoded.value.value);
    }

    method ReadValue(k: Kind) returns (r: Result<Value, TlError>)
      requires Valid()
      modifies this
      ensures Valid() && old(offset) <= offset
      ensures var d := Decode(k, old(Rest()), limits);
        if d.Err? then r == Err(d.error)
        else r == Ok(d.value.value) && d.value.used <= |old(Rest())| && Rest() == old(Rest())[d.value.used..]
    {
      DecodeKinds(k, Rest(), limits);
      hide Decode, DecodeBytes, DecodeVector;
      if k == KByteString {
        r := ReadBytes();
      } else if k == KVectorLength {
        r := ReadVectorLength();
      } else {
        r := ReadFixed(k);
      }
    }

    /** Reading one value after another computes the decoding of the whole sequence. */
    method ReadAll(kinds: seq<Kind>) returns (r: Result<seq<Value>, TlError>)
      requires Valid()
      modifies this
      ensures Valid()
      ensures var d := DecodeAll(kinds, old(Rest()), limits);
        if d.Err? then r == Err(d.error) else r == Ok(d.value.0) && Rest() == d.value.1
    {
      hide Decode, DecodeAll;
      var values: seq<Value> := [];
      var i := 0;
      assert kinds[0..] == kinds;
      ghost var whole := DecodeAll(kinds, Rest(), limits);
      Prepended(whole);
      while i < |kinds|
        invariant 0 <= i <= |kinds| && Valid()
        invariant whole == Prepend(values, DecodeAll(kinds[i..], Rest(), limits))
      {
        DecodeAllStep(kinds[i..], Rest(), limits);
        assert kinds[i..][0] == kinds[i] && kinds[i..][1..] == kinds[i + 1..];
        var value := ReadValue(kinds[i]);
        if value.Err? {
          return Err(value.error);
        }
        PrependTwice(values, value.value, DecodeAll(kinds[i + 1..], Rest(), limits));
        values, i := values + [value.value], i + 1;
      }
      DecodeNone(kinds[i..], Rest(), limits);
      return Ok(values);
    }

    method IsFinished() returns (r: bool)
      requires Valid()
      ensures r == (Rest() == [])
    {
      return offset >= |input|;
    }
  }
}
