/** The CBOR primitives the streams call (`CBOR_Encode*`, `CBOR_Decode*`, `CBOR_Peek`,
    `CBOR_SIZEOF_*`), which live in the DPS library.  They are defined here from
    section 3 of RFC 8949: an item starts with a head of a major type and an argument,
    written in the shortest form; a reader accepts any definite-length head. */
module Cbor {

  type byte = b: int | 0 <= b < 0x100

  const TWO_16 := 0x1_0000
  const TWO_32 := 0x1_0000_0000
  const TWO_64 := 0x1_0000_0000_0000_0000

  const UINT: nat := 0
  const NEGATIVE: nat := 1
  const BYTES: nat := 2
  const TEXT: nat := 3
  const ARRAY: nat := 4
  const SIMPLE: nat := 7

  /** The outcome of reading from the front of some bytes. */
  datatype Parse<+T> = Fail | Got(value: T, rest: seq<byte>) {
    predicate IsFailure() { Fail? }
    function PropagateFailure<U>(): Parse<U> requires Fail? { Fail }
    function Extract(): (T, seq<byte>) requires Got? { (value, rest) }
  }

  /** Reading again with `suffix` appended: same value, `suffix` appended to the rest. */
  function Appended<T>(p: Parse<T>, suffix: seq<byte>): Parse<T> {
    match p
    case Fail => Fail
    case Got(value, rest) => Got(value, rest + suffix)
  }

  lemma Regroup(a: seq<byte>, b: seq<byte>, c: seq<byte>)
    ensures a + b + c == a + (b + c)
  {
  }

  // ---------- big-endian arguments ----------

  function Pow256(k: nat): nat {
    if k == 0 then 1 else 0x100 * Pow256(k - 1)
  }

  function BigEndian(n: nat, k: nat): (bs: seq<byte>)
    ensures |bs| == k
  {
    if k == 0 then [] else BigEndian(n / 0x100, k - 1) + [n % 0x100]
  }

  function FromBigEndian(bs: seq<byte>): nat {
    if bs == [] then 0 else FromBigEndian(bs[..|bs| - 1]) * 0x100 + bs[|bs| - 1]
  }

  lemma {:induction false} BigEndianRoundTrip(n: nat, k: nat)
    requires n < Pow256(k)
    ensures FromBigEndian(BigEndian(n, k)) == n
  {
    if k > 0 {
      BigEndianRoundTrip(n / 0x100, k - 1);
      var bs := BigEndian(n, k);
      assert bs[..k - 1] == BigEndian(n / 0x100, k - 1);
    }
  }

  lemma Pow256Values()
    ensures Pow256(0) == 1 && Pow256(1) == 0x100 && Pow256(2) == TWO_16
    ensures Pow256(4) == TWO_32 && Pow256(8) == TWO_64
  {
    assert Pow256(3) == 0x100_0000;
    assert Pow256(5) == 0x100_0000_0000;
    assert Pow256(6) == 0x1_0000_0000_0000;
    assert Pow256(7) == 0x100_0000_0000_0000;
  }

  // ---------- heads ----------

  /** What a head says: its major type, its five low bits, and its argument. */
  datatype HeadInfo = HeadInfo(major: nat, info: nat, arg: nat)

  /** How many bytes follow the first byte, for the low bits `info`. */
  function ArgWidth(info: nat): nat {
    if info < 24 then 0 else if info == 24 then 1 else if info == 25 then 2 else if info == 26 then 4 else 8
  }

  /** The low bits of the shortest head with argument `n`. */
  function ShortestInfo(n: nat): (info: nat)
    ensures info < 28
  {
    if n < 24 then n else if n < 0x100 then 24 else if n < TWO_16 then 25 else if n < TWO_32 then 26 else 27
  }

  function HeadWith(major: nat, info: nat, n: nat): seq<byte>
    requires major < 8 && info < 28
  {
    [major * 32 + info] + BigEndian(n, ArgWidth(info))
  }

  function Head(major: nat, n: nat): (bs: seq<byte>)
    requires major < 8 && n < TWO_64
    ensures |bs| == HeadSize(n)
  {
    HeadWith(major, ShortestInfo(n), n)
  }

  /** `CBOR_SIZEOF_UINT` and `CBOR_SIZEOF_ARRAY`. */
  function HeadSize(n: nat): nat {
    if n < 24 then 1 else if n < 0x100 then 2 else if n < TWO_16 then 3 else if n < TWO_32 then 5 else 9
  }

  function ReadHead(bs: seq<byte>): Parse<HeadInfo> {
    if bs == [] then Fail else
      var info := bs[0] % 32;
      var w := ArgWidth(info);
      if info > 27 || |bs| < 1 + w then Fail else
        Got(HeadInfo(bs[0] / 32, info, if w == 0 then info else FromBigEndian(bs[1..1 + w])), bs[1 + w..])
  }

  lemma FirstByte(major: nat, info: nat)
    requires major < 8 && info < 28
    ensures (major * 32 + info) / 32 == major && (major * 32 + info) % 32 == info
  {
  }

  lemma HeadWithRoundTrip(major: nat, info: nat, n: nat, rest: seq<byte>)
    requires major < 8 && info < 28
    requires if info < 24 then n == info else n < Pow256(ArgWidth(info))
    ensures ReadHead(HeadWith(major, info, n) + rest) == Got(HeadInfo(major, info, n), rest)
  {
    var w := ArgWidth(info);
    var bs := HeadWith(major, info, n) + rest;
    FirstByte(major, info);
    assert bs[1..1 + w] == BigEndian(n, w);
    assert bs[1 + w..] == rest;
    if w > 0 {
      BigEndianRoundTrip(n, w);
    }
  }

  lemma HeadRoundTrip(major: nat, n: nat, rest: seq<byte>)
    requires major < 8 && n < TWO_64
    ensures ReadHead(Head(major, n) + rest) == Got(HeadInfo(major, ShortestInfo(n), n), rest)
  {
    Pow256Values();
    HeadWithRoundTrip(major, ShortestInfo(n), n, rest);
  }

  lemma HeadLocal(bs: seq<byte>, suffix: seq<byte>)
    requires ReadHead(bs).Got?
    ensures ReadHead(bs + suffix) == Appended(ReadHead(bs), suffix)
  {
    var w := ArgWidth(bs[0] % 32);
    assert (bs + suffix)[1..1 + w] == bs[1..1 + w];
    assert (bs + suffix)[1 + w..] == bs[1 + w..] + suffix;
  }

  // ---------- encoders ----------

  const SIZEOF_BOOLEAN: nat := 1
  const SIZEOF_FLOAT: nat := 5
  const SIZEOF_DOUBLE: nat := 9

  /** `CBOR_SIZEOF_INT`. */
  function SizeofInt(i: int): nat {
    HeadSize(if i >= 0 then i else -1 - i)
  }

  function EncodeInt(i: int): (bs: seq<byte>)
    requires -TWO_64 <= i < TWO_64
    ensures |bs| == SizeofInt(i)
  {
    if i >= 0 then Head(UINT, i) else Head(NEGATIVE, -1 - i)
  }

  function EncodeBool(b: bool): (bs: seq<byte>)
    ensures |bs| == SIZEOF_BOOLEAN
  {
    Head(SIMPLE, if b then 21 else 20)
  }

  /** `bits` is the IEEE 754 pattern; a float has a four-byte argument, a double an eight-byte one. */
  function EncodeFloat(bits: nat): (bs: seq<byte>)
    ensures |bs| == SIZEOF_FLOAT
  {
    HeadWith(SIMPLE, 26, bits)
  }

  function EncodeDouble(bits: nat): (bs: seq<byte>)
    ensures |bs| == SIZEOF_DOUBLE
  {
    HeadWith(SIMPLE, 27, bits)
  }

  /** A byte or text string: a head with the length, then the bytes. */
  function EncodeString(major: nat, s: seq<byte>): (bs: seq<byte>)
    requires major < 8 && |s| < TWO_64
    ensures |bs| == HeadSize(|s|) + |s|
  {
    Head(major, |s|) + s
  }

  // ---------- decoders ----------

  function ReadUint(max: nat, bs: seq<byte>): Parse<nat> {
    var (h, r) :- ReadHead(bs);
    if h.major == UINT && h.arg <= max then Got(h.arg, r) else Fail
  }

  function ReadInt(low: int, high: int, bs: seq<byte>): Parse<int> {
    var (h, r) :- ReadHead(bs);
    var i := if h.major == UINT then h.arg else -1 - h.arg;
    if h.major <= NEGATIVE && low <= i <= high then Got(i, r) else Fail
  }

  function ReadBool(bs: seq<byte>): Parse<bool> {
    var (h, r) :- ReadHead(bs);
    if h.major == SIMPLE && 20 <= h.info <= 21 then Got(h.info == 21, r) else Fail
  }

  function ReadBits(info: nat, bs: seq<byte>): Parse<nat> {
    var (h, r) :- ReadHead(bs);
    if h.major == SIMPLE && h.info == info then Got(h.arg, r) else Fail
  }

  function ReadArray(bs: seq<byte>): Parse<nat> {
    var (h, r) :- ReadHead(bs);
    if h.major == ARRAY then Got(h.arg, r) else Fail
  }

  function ReadString(major: nat, bs: seq<byte>): Parse<seq<byte>> {
    var (h, r) :- ReadHead(bs);
    if h.major == major && h.arg <= |r| then Got(r[..h.arg], r[h.arg..]) else Fail
  }

  /** `deserializeSequenceSize`: the length a coming array or byte string announces. */
  function PeekSize(bs: seq<byte>): Parse<nat> {
    var (h, _) :- ReadHead(bs);
    if h.major == ARRAY || h.major == BYTES then Got(h.arg, bs) else Fail
  }

  lemma IntRoundTrip(i: int, low: int, high: int, rest: seq<byte>)
    requires -TWO_64 <= i < TWO_64 && low <= i <= high
    ensures ReadInt(low, high, EncodeInt(i) + rest) == Got(i, rest)
  {
    if i >= 0 {
      HeadRoundTrip(UINT, i, rest);
    } else {
      HeadRoundTrip(NEGATIVE, -1 - i, rest);
    }
  }

  lemma StringRoundTrip(major: nat, s: seq<byte>, rest: seq<byte>)
    requires major < 8 && |s| < TWO_64
    ensures ReadString(major, EncodeString(major, s) + rest) == Got(s, rest)
  {
    assert EncodeString(major, s) + rest == Head(major, |s|) + (s + rest);
    HeadRoundTrip(major, |s|, s + rest);
    assert (s + rest)[..|s|] == s && (s + rest)[|s|..] == rest;
  }

  lemma StringLocal(major: nat, bs: seq<byte>, suffix: seq<byte>)
    requires ReadString(major, bs).Got?
    ensures ReadString(major, bs + suffix) == Appended(ReadString(major, bs), suffix)
  {
    HeadLocal(bs, suffix);
    var Got(h, r) := ReadHead(bs);
    assert (r + suffix)[..h.arg] == r[..h.arg];
    assert (r + suffix)[h.arg..] == r[h.arg..] + suffix;
  }
}
