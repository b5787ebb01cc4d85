/** Fixed-width integers in a byte buffer, as `struct.unpack` reads them with
    the `=` prefix: standard sizes (4 and 8 bytes), the host's byte order, and
    a struct error when the slice handed to it is shorter than the format. */
module Codec {

  import opened Results

  type Byte = b: int | 0 <= b < 256

  /** The host's byte order, which the `=` prefix selects. */
  datatype ByteOrder = LittleEndian | BigEndian

  const Two31: int := 0x8000_0000
  const Two32: int := 0x1_0000_0000
  const Two63: int := 0x8000_0000_0000_0000
  const Two64: int := 0x1_0000_0000_0000_0000

  /** 256 to the power n: the number of values n bytes can hold. */
  function Pow256(n: nat): (p: nat)
    ensures p >= 1
  {
    if n == 0 then 1 else 256 * Pow256(n - 1)
  }

  lemma Pow256Widths()
    ensures Pow256(4) == Two32 && Pow256(8) == Two64
  {
  }

  function Reverse(s: seq<Byte>): (r: seq<Byte>)
    ensures |r| == |s|
  {
    if s == [] then [] else Reverse(s[1..]) + [s[0]]
  }

  lemma {:induction false} ReverseAt(s: seq<Byte>, k: nat)
    requires k < |s|
    ensures Reverse(s)[k] == s[|s| - 1 - k]
  {
    if k < |s| - 1 {
      ReverseAt(s[1..], k);
    }
  }

  lemma ReverseReverse(s: seq<Byte>)
    ensures Reverse(Reverse(s)) == s
  {
    forall k | 0 <= k < |s|
      ensures Reverse(Reverse(s))[k] == s[k]
    {
      ReverseAt(Reverse(s), k);
      ReverseAt(s, |s| - 1 - k);
    }
  }

  /** The unsigned value of bytes stored least significant first. */
  function LittleValue(bs: seq<Byte>): (v: nat)
    ensures v < Pow256(|bs|)
  {
    if bs == [] then 0 else bs[0] + 256 * LittleValue(bs[1..])
  }

  /** The width bytes of v, least significant first. */
  function LittleBytes(v: nat, width: nat): (bs: seq<Byte>)
    requires v < Pow256(width)
    ensures |bs| == width
  {
    if width == 0 then [] else [v % 256] + LittleBytes(v / 256, width - 1)
  }

  lemma {:induction false} LittleValueOfBytes(v: nat, width: nat)
    requires v < Pow256(width)
    ensures LittleValue(LittleBytes(v, width)) == v
  {
    if width > 0 {
      LittleValueOfBytes(v / 256, width - 1);
      assert LittleBytes(v, width)[1..] == LittleBytes(v / 256, width - 1);
    }
  }

  lemma {:induction false} LittleBytesOfValue(bs: seq<Byte>)
    ensures LittleBytes(LittleValue(bs), |bs|) == bs
  {
    if bs != [] {
      LittleBytesOfValue(bs[1..]);
    }
  }

  /** The unsigned value of bytes in the given order. */
  function Unsigned(bs: seq<Byte>, order: ByteOrder): (v: nat)
    ensures v < Pow256(|bs|)
  {
    match order
    case LittleEndian => LittleValue(bs)
    case BigEndian => LittleValue(Reverse(bs))
  }

  /** The width bytes of v in the given order: the inverse of Unsigned. */
  function UnsignedBytes(v: nat, width: nat, order: ByteOrder): (bs: seq<Byte>)
    requires v < Pow256(width)
    ensures |bs| == width
  {
    match order
    case LittleEndian => LittleBytes(v, width)
    case BigEndian => Reverse(LittleBytes(v, width))
  }

  lemma UnsignedRoundTrip(v: nat, width: nat, order: ByteOrder)
    requires v < Pow256(width)
    ensures Unsigned(UnsignedBytes(v, width, order), order) == v
  {
    LittleValueOfBytes(v, width);
    if order == BigEndian {
      ReverseReverse(LittleBytes(v, width));
    }
  }

  lemma UnsignedBytesRoundTrip(bs: seq<Byte>, order: ByteOrder)
    ensures UnsignedBytes(Unsigned(bs, order), |bs|, order) == bs
  {
    match order
    case LittleEndian =>
      LittleBytesOfValue(bs);
    case BigEndian =>
      LittleBytesOfValue(Reverse(bs));
      ReverseReverse(bs);
  }

  /** Two's-complement reading of an unsigned value of the given byte width. */
  function Signed(u: nat, width: nat): (v: int)
    requires 0 < width && u < Pow256(width)
    ensures -128 * Pow256(width - 1) <= v < 128 * Pow256(width - 1)
    ensures v >= 0 ==> v == u
    ensures v < 0 ==> v == u - Pow256(width)
  {
    if u < 128 * Pow256(width - 1) then u else u - Pow256(width)
  }

  /** Two's-complement bit pattern of a signed value: the inverse of Signed. */
  function Pattern(v: int, width: nat): (u: nat)
    requires 0 < width && -128 * Pow256(width - 1) <= v < 128 * Pow256(width - 1)
    ensures u < Pow256(width)
    ensures Signed(u, width) == v
  {
    if v < 0 then v + Pow256(width) else v
  }

  /** The bytes of slot `index` that a w-byte format reads: `buf[4*index : 4*index + w]`,
      a struct error when the buffer ends before the last of them. */
  function Slice(buf: seq<Byte>, index: nat, w: nat): (r: Result<seq<Byte>>)
    ensures r.Ok? <==> 4 * index + w <= |buf|
    ensures r.Err? ==> r.error == StructError
    ensures r.Ok? ==> |r.value| == w
    ensures r.Ok? ==> forall k :: 0 <= k < w ==> r.value[k] == buf[4 * index + k]
  {
    if 4 * index + w <= |buf| then Ok(buf[4 * index .. 4 * index + w]) else Err(StructError)
  }

  /** `struct.unpack("=L", ...)`: unsigned 32-bit at slot `index`. */
  function Uint32(buf: seq<Byte>, host: ByteOrder, index: nat): (r: Result<int>)
    ensures r.Ok? <==> 4 * index + 4 <= |buf|
    ensures r.Err? ==> r.error == StructError
    ensures r.Ok? ==> 0 <= r.value < Two32
  {
    Pow256Widths();
    match Slice(buf, index, 4)
    case Ok(bs) => Ok(Unsigned(bs, host))
    case Err(e) => Err(e)
  }

  /** `struct.unpack("=l", ...)`: signed 32-bit at slot `index`. */
  function Int32(buf: seq<Byte>, host: ByteOrder, index: nat): (r: Result<int>)
    ensures r.Ok? <==> 4 * index + 4 <= |buf|
    ensures r.Err? ==> r.error == StructError
    ensures r.Ok? ==> -Two31 <= r.value < Two31
  {
    Pow256Widths();
    match Slice(buf, index, 4)
    case Ok(bs) => Ok(Signed(Unsigned(bs, host), 4))
    case Err(e) => Err(e)
  }

  /** `struct.unpack("=Q", ...)`: unsigned 64-bit starting at slot `index`. */
  function Uint64(buf: seq<Byte>, host: ByteOrder, index: nat): (r: Result<int>)
    ensures r.Ok? <==> 4 * index + 8 <= |buf|
    ensures r.Err? ==> r.error == StructError
    ensures r.Ok? ==> 0 <= r.value < Two64
  {
    Pow256Widths();
    match Slice(buf, index, 8)
    case Ok(bs) => Ok(Unsigned(bs, host))
    case Err(e) => Err(e)
  }

  /** `struct.unpack("=q", ...)`: signed 64-bit starting at slot `index`. */
  function Int64(buf: seq<Byte>, host: ByteOrder, index: nat): (r: Result<int>)
    ensures r.Ok? <==> 4 * index + 8 <= |buf|
    ensures r.Err? ==> r.error == StructError
    ensures r.Ok? ==> -Two63 <= r.value < Two63
  {
    Pow256Widths();
    match Slice(buf, index, 8)
    case Ok(bs) => Ok(Signed(Unsigned(bs, host), 8))
    case Err(e) => Err(e)
  }

  /** Encoders matching the four decoders: the bytes `struct.pack` would write. */
  function PackUint32(v: int, host: ByteOrder): (bs: seq<Byte>)
    requires 0 <= v < Two32
    ensures |bs| == 4
  {
    Pow256Widths();
    UnsignedBytes(v, 4, host)
  }

  function PackInt32(v: int, host: ByteOrder): (bs: seq<Byte>)
    requires -Two31 <= v < Two31
    ensures |bs| == 4
  {
    Pow256Widths();
    UnsignedBytes(Pattern(v, 4), 4, host)
  }

  function PackUint64(v: int, host: ByteOrder): (bs: seq<Byte>)
    requires 0 <= v < Two64
    ensures |bs| == 8
  {
    Pow256Widths();
    UnsignedBytes(v, 8, host)
  }

  function PackInt64(v: int, host: ByteOrder): (bs: seq<Byte>)
    requires -Two63 <= v < Two63
    ensures |bs| == 8
  {
    Pow256Widths();
    UnsignedBytes(Pattern(v, 8), 8, host)
  }

  /** buf with the bytes from 4 * index on replaced by bs. */
  function Store(buf: seq<Byte>, index: nat, bs: seq<Byte>): (r: seq<Byte>)
    requires 4 * index + |bs| <= |buf|
    ensures |r| == |buf|
    ensures forall k :: 0 <= k < |buf| && (k < 4 * index || 4 * index + |bs| <= k) ==> r[k] == buf[k]
    ensures forall k :: 0 <= k < |bs| ==> r[4 * index + k] == bs[k]
  {
    buf[..4 * index] + bs + buf[4 * index + |bs|..]
  }

  /** Reading back the slot just stored gives exactly the stored bytes. */
  lemma SliceStore(buf: seq<Byte>, index: nat, bs: seq<Byte>)
    requires 4 * index + |bs| <= |buf|
    ensures Slice(Store(buf, index, bs), index, |bs|) == Ok(bs)
  {
    var r := Slice(Store(buf, index, bs), index, |bs|);
    assert r.value == bs;
  }

  /** Storing into one slot leaves every disjoint slice unchanged. */
  lemma SliceStoreElsewhere(buf: seq<Byte>, index: nat, bs: seq<Byte>, other: nat, w: nat)
    requires 4 * index + |bs| <= |buf|
    requires 4 * other + w <= 4 * index || 4 * index + |bs| <= 4 * other
    ensures Slice(Store(buf, index, bs), other, w) == Slice(buf, other, w)
  {
    if 4 * other + w <= |buf| {
      assert Slice(Store(buf, index, bs), other, w).value == Slice(buf, other, w).value;
    }
  }

  lemma Uint32RoundTrip(buf: seq<Byte>, host: ByteOrder, index: nat, v: int)
    requires 4 * index + 4 <= |buf| && 0 <= v < Two32
    ensures Uint32(Store(buf, index, PackUint32(v, host)), host, index) == Ok(v)
  {
    Pow256Widths();
    SliceStore(buf, index, PackUint32(v, host));
    UnsignedRoundTrip(v, 4, host);
  }

  lemma Int32RoundTrip(buf: seq<Byte>, host: ByteOrder, index: nat, v: int)
    requires 4 * index + 4 <= |buf| && -Two31 <= v < Two31
    ensures Int32(Store(buf, index, PackInt32(v, host)), host, index) == Ok(v)
  {
    Pow256Widths();
    SliceStore(buf, index, PackInt32(v, host));
    UnsignedRoundTrip(Pattern(v, 4), 4, host);
  }

  lemma Uint64RoundTrip(buf: seq<Byte>, host: ByteOrder, index: nat, v: int)
    requires 4 * index + 8 <= |buf| && 0 <= v < Two64
    ensures Uint64(Store(buf, index, PackUint64(v, host)), host, index) == Ok(v)
  {
    Pow256Widths();
    SliceStore(buf, index, PackUint64(v, host));
    UnsignedRoundTrip(v, 8, host);
  }

  lemma Int64RoundTrip(buf: seq<Byte>, host: ByteOrder, index: nat, v: int)
    requires 4 * index + 8 <= |buf| && -Two63 <= v < Two63
    ensures Int64(Store(buf, index, PackInt64(v, host)), host, index) == Ok(v)
  {
    Pow256Widths();
    SliceStore(buf, index, PackInt64(v, host));
    UnsignedRoundTrip(Pattern(v, 8), 8, host);
  }
}
