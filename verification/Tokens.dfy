/** The bytes of messages, said without the encoder: a message is a sequence of the data items of
    section 3 of RFC 8949, here called tokens because an array head stands for itself, and a token
    has the bytes that its major type and argument give it.  All numbers are written out. */
module Tokens {
  import opened Cbor
  import opened Messages
  import opened Wire
  import opened RoundTrip

  datatype Token = Integer(i: int)
                 | ByteString(s: seq<byte>)
                 | TextString(s: seq<byte>)
                 | ArrayOf(n: nat)
                 | Truth(b: bool)
                 | Float32(bits: nat)
                 | Float64(bits: nat)

  // ---------- the bytes of a token ----------

  function Two(n: nat): seq<byte> {
    [n / 0x100 % 0x100, n % 0x100]
  }

  function Four(n: nat): seq<byte> {
    [n / 0x100_0000 % 0x100, n / 0x1_0000 % 0x100, n / 0x100 % 0x100, n % 0x100]
  }

  function Eight(n: nat): seq<byte> {
    Four(n / 0x1_0000_0000) + Four(n)
  }

  /** The first byte has the major type in its upper three bits and a small argument in the other
      five, or 24 to 27 there and the argument in the 1, 2, 4 or 8 bytes that follow. */
  function FirstBytes(major: nat, n: nat): seq<byte>
    requires major < 8
  {
    if n < 24 then [32 * major + n]
    else if n < 0x100 then [32 * major + 24, n]
    else if n < 0x1_0000 then [32 * major + 25] + Two(n)
    else if n < 0x1_0000_0000 then [32 * major + 26] + Four(n)
    else [32 * major + 27] + Eight(n)
  }

  function TokenBytes(t: Token): seq<byte> {
    match t
    case Integer(i) => if i >= 0 then FirstBytes(0, i) else FirstBytes(1, -1 - i)
    case ByteString(s) => FirstBytes(2, |s|) + s
    case TextString(s) => FirstBytes(3, |s|) + s
    case ArrayOf(n) => FirstBytes(4, n)
    case Truth(b) => [if b then 0xF5 else 0xF4]
    case Float32(bits) => [0xFA] + Four(bits)
    case Float64(bits) => [0xFB] + Eight(bits)
  }

  function Flatten(ts: seq<Token>): seq<byte> {
    if ts == [] then [] else TokenBytes(ts[0]) + Flatten(ts[1..])
  }

  /** Integers from appendix A of RFC 8949. */
  lemma IntegerExamples()
    ensures TokenBytes(Integer(0)) == [0x00] && TokenBytes(Integer(23)) == [0x17]
    ensures TokenBytes(Integer(24)) == [0x18, 0x18] && TokenBytes(Integer(1000)) == [0x19, 0x03, 0xE8]
    ensures TokenBytes(Integer(1_000_000)) == [0x1A, 0x00, 0x0F, 0x42, 0x40]
    ensures TokenBytes(Integer(-1)) == [0x20] && TokenBytes(Integer(-1000)) == [0x39, 0x03, 0xE7]
  {
  }

  lemma LongIntegerExample()
    ensures TokenBytes(Integer(1_000_000_000_000)) == [0x1B, 0x00, 0x00, 0x00, 0xE8, 0xD4, 0xA5, 0x10, 0x00]
  {
  }

  /** Other items from that appendix; the bits of 100000.0 and of 1.1. */
  lemma OtherExamples()
    ensures TokenBytes(Truth(false)) == [0xF4] && TokenBytes(Truth(true)) == [0xF5]
    ensures TokenBytes(Float32(0x47C3_5000)) == [0xFA, 0x47, 0xC3, 0x50, 0x00]
    ensures TokenBytes(ByteString([1, 2, 3, 4])) == [0x44, 0x01, 0x02, 0x03, 0x04]
    ensures TokenBytes(TextString([0x49, 0x45, 0x54, 0x46])) == [0x64, 0x49, 0x45, 0x54, 0x46]
    ensures TokenBytes(ArrayOf(25)) == [0x98, 0x19]
  {
  }

  lemma DoubleExample()
    ensures TokenBytes(Float64(0x3FF1_9999_9999_999A)) == [0xFB, 0x3F, 0xF1, 0x99, 0x99, 0x99, 0x99, 0x99, 0x9A]
  {
    assert 0x3FF1_9999_9999_999A / 0x1_0000_0000 == 0x3FF1_9999;
  }

  // ---------- the tokens of a value ----------

  function NumberToken(n: Number, v: Value): Token
    requires HasNumber(n, v)
  {
    match n
    case Boolean => Truth(v.b)
    case Float => Float32(v.bits)
    case Double => Float64(v.bits)
    case _ => Integer(v.i)
  }

  function UnitTokens(units: seq<nat>): seq<Token> {
    if units == [] then [] else [Integer(units[0])] + UnitTokens(units[1..])
  }

  function OctetsOf(k: Kind, vs: seq<Value>): (bs: seq<byte>)
    requires HasKinds(k, vs) && (k == Num(Octet) || k == Num(Uint8))
    ensures |bs| == |vs|
  {
    if vs == [] then [] else
      assert HasKind(k, vs[0]);
      [vs[0].i] + OctetsOf(k, vs[1..])
  }

  function KindTokens(k: Kind, v: Value): (ts: seq<Token>)
    requires HasKind(k, v)
    ensures |ts| > 0
    decreases k, 0
  {
    match k
    case Num(n) => [NumberToken(n, v)]
    case String(_) => [TextString(v.s)]
    case WString(_) => [ArrayOf(|v.units|)] + UnitTokens(v.units)
    case Message(members) => [ArrayOf(|members|)] + MembersTokens(members, v.fields)
  }

  function EachTokens(k: Kind, vs: seq<Value>): seq<Token>
    requires HasKinds(k, vs)
    decreases k, 1, |vs|
  {
    if vs == [] then [] else KindTokens(k, vs[0]) + EachTokens(k, vs[1..])
  }

  /** Arrays of octets are one byte string, and other arrays announce their length; but a fixed array
      of messages does not, and a sequence of messages announces it as an integer. */
  function MemberTokens(m: Member, v: Value): seq<Token>
    requires HasMember(m, v)
    decreases m
  {
    if !m.isArray then KindTokens(m.kind, v)
    else if m.kind == Num(Octet) || m.kind == Num(Uint8) then [ByteString(OctetsOf(m.kind, v.elems))]
    else if !m.kind.Message? then [ArrayOf(|v.elems|)] + EachTokens(m.kind, v.elems)
    else if m.arraySize != 0 && !m.isUpperBound then EachTokens(m.kind, v.elems)
    else [Integer(|v.elems| % 0x1_0000_0000)] + EachTokens(m.kind, v.elems)
  }

  function MembersTokens(ms: seq<Member>, vs: seq<Value>): seq<Token>
    requires HasMembers(ms, vs)
    decreases ms
  {
    if ms == [] then [] else MemberTokens(ms[0], vs[0]) + MembersTokens(ms[1..], vs[1..])
  }

  function TopTokens(members: seq<Member>, v: Value): seq<Token>
    requires HasKind(Message(members), v)
  {
    if members == [] then [Integer(0)] else KindTokens(Message(members), v)
  }

  // ---------- heads have these bytes ----------

  lemma BigEndianSteps(n: nat, k: nat)
    requires k >= 2
    ensures BigEndian(n, k) == BigEndian(n / 0x1_0000, k - 2) + Two(n)
  {
    assert n / 0x100 / 0x100 == n / 0x1_0000;
    assert BigEndian(n / 0x100, k - 1) == BigEndian(n / 0x100 / 0x100, k - 2) + [n / 0x100 % 0x100];
  }

  lemma BigEndianFour(n: nat)
    ensures BigEndian(n, 4) == Four(n) == Two(n / 0x1_0000) + Two(n)
  {
    BigEndianSteps(n, 4);
    BigEndianSteps(n / 0x1_0000, 2);
    assert BigEndian(n / 0x1_0000 / 0x1_0000, 0) == [];
    assert n / 0x1_0000 / 0x100 == n / 0x100_0000;
  }

  lemma BigEndianEight(n: nat)
    ensures BigEndian(n, 8) == Eight(n)
  {
    var low := n / 0x1_0000;
    BigEndianSteps(n, 8);
    BigEndianSteps(low, 6);
    assert low / 0x1_0000 == n / 0x1_0000_0000;
    BigEndianFour(n);
    BigEndianFour(n / 0x1_0000_0000);
    hide BigEndian, Four, Two;
    Regroup(Four(n / 0x1_0000_0000), Two(low), Two(n));
  }

  lemma BigEndianBytes(n: nat)
    ensures BigEndian(n, 1) == [n % 0x100] && BigEndian(n, 2) == Two(n)
    ensures BigEndian(n, 4) == Four(n) && BigEndian(n, 8) == Eight(n)
  {
    assert BigEndian(n / 0x100, 0) == [] && BigEndian(n / 0x1_0000, 0) == [];
    BigEndianSteps(n, 2);
    BigEndianFour(n);
    BigEndianEight(n);
    hide Four, Eight;
  }

  lemma HeadBytes(major: nat, n: nat)
    requires major < 8 && n < TWO_64
    ensures Head(major, n) == FirstBytes(major, n)
  {
    assert BigEndian(n, 0) == [];
    BigEndianBytes(n);
    hide BigEndian, Two, Four, Eight;
  }

  // ---------- the encoder writes these tokens ----------

  lemma FlattenOne(t: Token)
    ensures Flatten([t]) == TokenBytes(t)
  {
    assert [t][1..] == [];
  }

  lemma {:induction false} FlattenBoth(a: seq<Token>, b: seq<Token>)
    ensures Flatten(a + b) == Flatten(a) + Flatten(b)
  {
    hide TokenBytes;
    if a == [] {
      assert a + b == b;
    } else {
      FlattenBoth(a[1..], b);
      assert (a + b)[0] == a[0] && (a + b)[1..] == a[1..] + b;
      Regroup(TokenBytes(a[0]), Flatten(a[1..]), Flatten(b));
    }
  }

  /** A token in front of others. */
  lemma FlattenFirst(t: Token, ts: seq<Token>)
    ensures Flatten([t] + ts) == TokenBytes(t) + Flatten(ts)
  {
    FlattenOne(t);
    FlattenBoth([t], ts);
  }

  lemma IntegerWritten(i: int)
    requires -TWO_64 <= i < TWO_64
    ensures EncodeInt(i) == TokenBytes(Integer(i))
  {
    HeadBytes(if i >= 0 then 0 else 1, if i >= 0 then i else -1 - i);
  }

  lemma NumberWritten(n: Number, v: Value)
    requires HasNumber(n, v)
    ensures WriteNumber(n, v) == TokenBytes(NumberToken(n, v))
  {
    match n
    case Boolean => HeadBytes(7, 20);
    case Float => BigEndianBytes(v.bits);
    case Double => BigEndianBytes(v.bits);
    case _ => IntegerWritten(v.i);
  }

  lemma {:induction false} UnitsWritten(units: seq<nat>)
    requires forall i :: 0 <= i < |units| ==> units[i] < TWO_16
    ensures WriteUnits(units) == Flatten(UnitTokens(units))
  {
    hide Head, FirstBytes;
    if units != [] {
      HeadBytes(0, units[0]);
      UnitsWritten(units[1..]);
      FlattenFirst(Integer(units[0]), UnitTokens(units[1..]));
    }
  }

  lemma {:induction false} OctetsAreBytes(k: Kind, vs: seq<Value>)
    requires HasKinds(k, vs) && IsByte(k)
    ensures AsBytes(k, vs) == OctetsOf(k, vs)
  {
    if vs != [] {
      OctetsAreBytes(k, vs[1..]);
    }
  }

  lemma {:induction false} KindWritten(k: Kind, v: Value)
    requires HasKind(k, v)
    ensures Write(k, v) == Flatten(KindTokens(k, v))
    decreases k, 0
  {
    hide Head, FirstBytes;
    match k {
      case Num(n) =>
        NumberWritten(n, v);
        FlattenOne(NumberToken(n, v));
      case String(_) =>
        HeadBytes(3, |v.s|);
        FlattenOne(TextString(v.s));
      case WString(_) =>
        HeadBytes(4, |v.units|);
        UnitsWritten(v.units);
        FlattenFirst(ArrayOf(|v.units|), UnitTokens(v.units));
      case Message(members) =>
        HeadBytes(4, |members|);
        MembersWritten(members, v.fields);
        FlattenFirst(ArrayOf(|members|), MembersTokens(members, v.fields));
    }
  }

  lemma {:induction false} EachWritten(k: Kind, vs: seq<Value>)
    requires HasKinds(k, vs)
    ensures WriteEach(k, vs) == Flatten(EachTokens(k, vs))
    decreases k, 1, |vs|
  {
    hide Write, KindTokens;
    if vs != [] {
      KindWritten(k, vs[0]);
      EachWritten(k, vs[1..]);
      FlattenBoth(KindTokens(k, vs[0]), EachTokens(k, vs[1..]));
    }
  }

  lemma {:induction false} MemberWritten(m: Member, v: Value)
    requires HasMember(m, v)
    ensures WriteMember(m, v) == Flatten(MemberTokens(m, v))
    decreases m
  {
    hide Head, FirstBytes;
    if !m.isArray {
      KindWritten(m.kind, v);
    } else if IsByte(m.kind) {
      OctetsAreBytes(m.kind, v.elems);
      HeadBytes(2, |v.elems|);
      FlattenOne(ByteString(OctetsOf(m.kind, v.elems)));
    } else {
      var n := |v.elems|;
      EachWritten(m.kind, v.elems);
      if !m.kind.Message? {
        HeadBytes(4, n);
        FlattenFirst(ArrayOf(n), EachTokens(m.kind, v.elems));
      } else if !m.IsFixed() {
        HeadBytes(0, n % TWO_32);
        FlattenFirst(Integer(n % TWO_32), EachTokens(m.kind, v.elems));
      }
    }
  }

  lemma {:induction false} MembersWritten(ms: seq<Member>, vs: seq<Value>)
    requires HasMembers(ms, vs)
    ensures WriteMembers(ms, vs) == Flatten(MembersTokens(ms, vs))
    decreases ms
  {
    hide WriteMember, MemberTokens;
    if ms != [] {
      MemberWritten(ms[0], vs[0]);
      MembersWritten(ms[1..], vs[1..]);
      FlattenBoth(MemberTokens(ms[0], vs[0]), MembersTokens(ms[1..], vs[1..]));
    }
  }

  /** The bytes of every encoding: those of the tokens of the value that the binding sees. */
  lemma EncodingIsTokens(b: Binding, members: seq<Member>, v: Value)
    requires HasKind(Message(members), v)
    ensures HasKind(Message(members), Seen(b, v))
    ensures Encoding(b, members, v) == Flatten(TopTokens(members, Seen(b, v)))
  {
    SeenHasKind(b, Message(members), v);
    if members == [] {
      HeadBytes(0, 0);
      FlattenOne(Integer(0));
    } else {
      KindWritten(Message(members), Seen(b, v));
    }
  }

  /** A message whose one member is the string "ab". */
  lemma StringMessageBytes()
    ensures var members, v := [Member(String(0), false, 0, false)], MsgV([StrV([0x61, 0x62])]);
            HasKind(Message(members), v) && Encoding(Cpp, members, v) == [0x81, 0x62, 0x61, 0x62]
  {
    var members, v := [Member(String(0), false, 0, false)], MsgV([StrV([0x61, 0x62])]);
    assert HasMember(members[0], v.fields[0]) && HasMembers(members, v.fields);
    EncodingIsTokens(Cpp, members, v);
    SeenIsSame(Cpp, v);
    assert MembersTokens(members, v.fields) == [TextString([0x61, 0x62])];
    FlattenFirst(ArrayOf(1), [TextString([0x61, 0x62])]);
    FlattenOne(TextString([0x61, 0x62]));
  }

  // ---------- reading tokens ----------

  function FromTwo(bs: seq<byte>): nat
    requires |bs| == 2
  {
    var high: nat, low: nat := bs[0], bs[1];
    high * 0x100 + low
  }

  function FromFour(bs: seq<byte>): nat
    requires |bs| == 4
  {
    FromTwo(bs[..2]) * 0x1_0000 + FromTwo(bs[2..])
  }

  /** The argument in the bytes after the first, of any of the widths. */
  function Argument(info: nat, bs: seq<byte>): Parse<nat> {
    if info < 24 then Got(info, bs)
    else if info == 24 && |bs| >= 1 then Got(bs[0], bs[1..])
    else if info == 25 && |bs| >= 2 then Got(FromTwo(bs[..2]), bs[2..])
    else if info == 26 && |bs| >= 4 then Got(FromFour(bs[..4]), bs[4..])
    else if info == 27 && |bs| >= 8 then Got(FromFour(bs[..4]) * 0x1_0000_0000 + FromFour(bs[4..8]), bs[8..])
    else Fail
  }

  /** The token whose first byte has this major type and these five low bits. */
  function TokenOf(major: nat, info: nat, arg: nat, bs: seq<byte>): Parse<Token> {
    if major == 0 then Got(Integer(arg), bs)
    else if major == 1 then Got(Integer(-1 - arg), bs)
    else if major == 2 && arg <= |bs| then Got(ByteString(bs[..arg]), bs[arg..])
    else if major == 3 && arg <= |bs| then Got(TextString(bs[..arg]), bs[arg..])
    else if major == 4 then Got(ArrayOf(arg), bs)
    else if major == 7 && (info == 20 || info == 21) then Got(Truth(info == 21), bs)
    else if major == 7 && info == 26 then Got(Float32(arg), bs)
    else if major == 7 && info == 27 then Got(Float64(arg), bs)
    else Fail
  }

  function ReadToken(bs: seq<byte>): Parse<Token> {
    if bs == [] then Fail else
      var (arg, r) :- Argument(bs[0] % 32, bs[1..]);
      TokenOf(bs[0] / 32, bs[0] % 32, arg, r)
  }

  function ReadTokens(n: nat, bs: seq<byte>): (p: Parse<seq<Token>>)
    ensures p.Got? ==> |p.value| == n
  {
    if n == 0 then Got([], bs) else
      var (t, r) :- ReadToken(bs);
      var (ts, r') :- ReadTokens(n - 1, r);
      Got([t] + ts, r')
  }

  /** The bytes begin with exactly these tokens, in heads of any width, and `rest` follows. */
  predicate Spells(bs: seq<byte>, ts: seq<Token>, rest: seq<byte>) {
    ReadTokens(|ts|, bs) == Got(ts, rest)
  }

  lemma FromBigEndianStep(bs: seq<byte>)
    requires |bs| >= 2
    ensures FromBigEndian(bs) == FromBigEndian(bs[..|bs| - 2]) * 0x1_0000 + FromTwo(bs[|bs| - 2..])
  {
    var most := bs[..|bs| - 1];
    assert most[..|most| - 1] == bs[..|bs| - 2];
  }

  lemma FromBigEndianFour(bs: seq<byte>)
    requires |bs| == 4
    ensures FromBigEndian(bs) == FromFour(bs)
  {
    FromBigEndianStep(bs);
    FromBigEndianStep(bs[..2]);
    assert bs[..2][..0] == [] && bs[..2][0..] == bs[..2];
  }

  lemma FromBigEndianEight(bs: seq<byte>)
    requires |bs| == 8
    ensures FromBigEndian(bs) == FromFour(bs[..4]) * 0x1_0000_0000 + FromFour(bs[4..])
  {
    FromBigEndianStep(bs);
    FromBigEndianStep(bs[..6]);
    FromBigEndianFour(bs[..4]);
    hide FromBigEndian, FromTwo;
    var high, low := FromTwo(bs[4..][..2]), FromTwo(bs[4..][2..]);
    assert bs[..6][..4] == bs[..4] && bs[..6][4..] == bs[4..][..2] && bs[6..] == bs[4..][2..];
    assert FromBigEndian(bs) == (FromBigEndian(bs[..4]) * 0x1_0000 + high) * 0x1_0000 + low;
  }

  lemma FromBigEndianBytes(bs: seq<byte>)
    ensures |bs| == 1 ==> FromBigEndian(bs) == bs[0]
    ensures |bs| == 2 ==> FromBigEndian(bs) == FromTwo(bs)
    ensures |bs| == 4 ==> FromBigEndian(bs) == FromFour(bs)
    ensures |bs| == 8 ==> FromBigEndian(bs) == FromFour(bs[..4]) * 0x1_0000_0000 + FromFour(bs[4..])
  {
    if |bs| == 1 {
      assert bs[..0] == [];
    } else if |bs| == 2 {
      FromBigEndianStep(bs);
      assert bs[..0] == [] && bs[0..] == bs;
    } else if |bs| == 4 {
      FromBigEndianFour(bs);
    } else if |bs| == 8 {
      FromBigEndianEight(bs);
    }
  }

  /** A head is read as the argument of the token that starts with it. */
  lemma HeadIsToken(bs: seq<byte>)
    ensures ReadToken(bs) ==
            match ReadHead(bs) case Fail => Fail case Got(h, r) => TokenOf(h.major, h.info, h.arg, r)
  {
    if bs != [] {
      ArgumentIsRead(bs);
      hide FromBigEndian, FromFour, FromTwo;
    }
  }

  lemma ArgumentIsRead(bs: seq<byte>)
    requires bs != []
    ensures match ReadHead(bs)
            case Fail => Argument(bs[0] % 32, bs[1..]).Fail?
            case Got(h, r) =>
              h.major == bs[0] / 32 && h.info == bs[0] % 32 && Argument(h.info, bs[1..]) == Got(h.arg, r)
  {
    hide FromBigEndian, FromFour, FromTwo;
    var w := ArgWidth(bs[0] % 32);
    if bs[0] % 32 <= 27 && 1 + w <= |bs| {
      FromBigEndianBytes(bs[1..1 + w]);
      var tail := bs[1..];
      assert tail[..w] == bs[1..1 + w] && tail[w..] == bs[1 + w..];
      assert w == 8 ==> tail[..4] == bs[1..9][..4] && tail[4..8] == bs[1..9][4..];
    }
  }

  lemma {:induction false} SpellsBoth(bs: seq<byte>, a: seq<Token>, b: seq<Token>, mid: seq<byte>, rest: seq<byte>)
    requires Spells(bs, a, mid)
    ensures Spells(bs, a + b, rest) <==> Spells(mid, b, rest)
    decreases |a|
  {
    hide ReadToken;
    if a == [] {
      assert a + b == b;
    } else {
      var r := ReadToken(bs).rest;
      assert ReadTokens(|a|, bs).value[1..] == ReadTokens(|a| - 1, r).value;
      SpellsBoth(r, a[1..], b, mid, rest);
      assert (a + b)[1..] == a[1..] + b && (a + b)[0] == a[0];
      SpellsFirst(bs, a + b, rest);
    }
  }

  /** What spells several tokens spells the first, and then the others. */
  lemma SpellsFirst(bs: seq<byte>, ts: seq<Token>, rest: seq<byte>)
    requires ts != []
    ensures Spells(bs, ts, rest) <==>
            ReadToken(bs).Got? && ReadToken(bs).value == ts[0] && Spells(ReadToken(bs).rest, ts[1..], rest)
  {
    hide ReadToken;
    if ReadToken(bs).Got? {
      var p := ReadTokens(|ts| - 1, ReadToken(bs).rest);
      if p.Got? {
        assert ([ReadToken(bs).value] + p.value)[1..] == p.value;
        assert ts == [ts[0]] + ts[1..];
      }
    }
  }

  lemma {:induction false} SpellsPrefix(bs: seq<byte>, a: seq<Token>, b: seq<Token>, rest: seq<byte>)
    returns (mid: seq<byte>)
    requires Spells(bs, a + b, rest)
    ensures Spells(bs, a, mid) && Spells(mid, b, rest)
    decreases |a|
  {
    hide ReadToken;
    if a == [] {
      mid := bs;
      assert a + b == b;
    } else {
      SpellsFirst(bs, a + b, rest);
      assert (a + b)[1..] == a[1..] + b && (a + b)[0] == a[0];
      mid := SpellsPrefix(ReadToken(bs).rest, a[1..], b, rest);
      SpellsFirst(bs, a, mid);
    }
  }

  lemma SpellsOne(bs: seq<byte>, t: Token, rest: seq<byte>)
    ensures Spells(bs, [t], rest) <==> ReadToken(bs) == Got(t, rest)
  {
    hide ReadToken;
    SpellsFirst(bs, [t], rest);
    if ReadToken(bs).Got? {
      assert ReadTokens(0, ReadToken(bs).rest) == Got([], ReadToken(bs).rest);
    }
  }
}
