/** What the readers accept, said without them: exactly the bytes that spell a value's tokens, in
    heads of any width, and no value outside its type. */
module Decoding {
  import opened Cbor
  import opened Messages
  import opened Wire
  import opened RoundTrip
  import opened Tokens

  // ---------- a value is read if and only if its tokens are there ----------

  lemma NumberRead(n: Number, v: Value, bs: seq<byte>, rest: seq<byte>)
    requires HasNumber(n, v)
    ensures ReadNumber(n, bs) == Got(v, rest) <==> ReadToken(bs) == Got(NumberToken(n, v), rest)
  {
    HeadIsToken(bs);
    hide ReadHead, ReadToken;
  }

  lemma StringRead(s: seq<byte>, bs: seq<byte>, rest: seq<byte>)
    ensures ReadString(TEXT, bs) == Got(s, rest) <==> ReadToken(bs) == Got(TextString(s), rest)
    ensures ReadString(BYTES, bs) == Got(s, rest) <==> ReadToken(bs) == Got(ByteString(s), rest)
  {
    HeadIsToken(bs);
    hide ReadHead, ReadToken;
  }

  lemma ArrayRead(n: nat, bs: seq<byte>, rest: seq<byte>)
    ensures ReadArray(bs) == Got(n, rest) <==> ReadToken(bs) == Got(ArrayOf(n), rest)
  {
    HeadIsToken(bs);
    hide ReadHead, ReadToken;
  }

  lemma UintRead(max: nat, n: nat, bs: seq<byte>, rest: seq<byte>)
    requires n <= max
    ensures ReadUint(max, bs) == Got(n, rest) <==> ReadToken(bs) == Got(Integer(n), rest)
  {
    HeadIsToken(bs);
    hide ReadHead, ReadToken;
  }

  lemma {:induction false} UnitsRead(units: seq<nat>, bs: seq<byte>, rest: seq<byte>)
    requires forall i :: 0 <= i < |units| ==> units[i] < TWO_16
    ensures ReadUnits(|units|, bs) == Got(units, rest) <==> Spells(bs, UnitTokens(units), rest)
    decreases |units|
  {
    hide ReadUint, ReadToken;
    if units != [] {
      var ts := UnitTokens(units);
      assert ts[1..] == UnitTokens(units[1..]);
      SpellsFirst(bs, ts, rest);
      var p := ReadUint(TWO_16 - 1, bs);
      if p.Got? && p.value == units[0] {
        UintRead(TWO_16 - 1, p.value, bs, p.rest);
        UnitsRead(units[1..], p.rest, rest);
        assert units == [units[0]] + units[1..];
        var q := ReadUnits(|units| - 1, p.rest);
        assert q.Got? ==> ([p.value] + q.value)[0] == p.value && ([p.value] + q.value)[1..] == q.value;
      }
      if ReadToken(bs).Got? && ReadToken(bs).value == Integer(units[0]) {
        UintRead(TWO_16 - 1, units[0], bs, ReadToken(bs).rest);
      }
    }
  }

  /** Reading several elements is reading the first, and then the others. */
  lemma EachFirst(k: Kind, vs: seq<Value>, bs: seq<byte>, rest: seq<byte>)
    requires vs != []
    ensures ReadEach(Cpp, k, |vs|, bs) == Got(vs, rest) <==>
            var p := Read(Cpp, k, bs);
            p.Got? && p.value == vs[0] && ReadEach(Cpp, k, |vs| - 1, p.rest) == Got(vs[1..], rest)
  {
    hide Read;
    var p := Read(Cpp, k, bs);
    if p.Got? {
      var q := ReadEach(Cpp, k, |vs| - 1, p.rest);
      assert vs == [vs[0]] + vs[1..];
      assert q.Got? ==> ([p.value] + q.value)[0] == p.value && ([p.value] + q.value)[1..] == q.value;
    }
  }

  lemma MembersFirst(ms: seq<Member>, vs: seq<Value>, bs: seq<byte>, rest: seq<byte>)
    requires ms != [] && vs != []
    ensures ReadMembers(Cpp, ms, bs) == Got(vs, rest) <==>
            var p := ReadMember(Cpp, ms[0], bs);
            p.Got? && p.value == vs[0] && ReadMembers(Cpp, ms[1..], p.rest) == Got(vs[1..], rest)
  {
    hide ReadMember;
    var p := ReadMember(Cpp, ms[0], bs);
    if p.Got? {
      var q := ReadMembers(Cpp, ms[1..], p.rest);
      assert vs == [vs[0]] + vs[1..];
      assert q.Got? ==> ([p.value] + q.value)[0] == p.value && ([p.value] + q.value)[1..] == q.value;
    }
  }

  lemma {:induction false} KindRead(k: Kind, v: Value, bs: seq<byte>, rest: seq<byte>)
    requires HasKind(k, v) && ShortKind(k, v)
    ensures Read(Cpp, k, bs) == Got(v, rest) <==> Spells(bs, KindTokens(k, v), rest)
    decreases k, 0
  {
    hide ReadNumber, ReadString, ReadArray, ReadUnits, ReadToken, Spells;
    match k {
      case Num(n) =>
        NumberRead(n, v, bs, rest);
        SpellsOne(bs, NumberToken(n, v), rest);
      case String(_) =>
        StringRead(v.s, bs, rest);
        SpellsOne(bs, TextString(v.s), rest);
      case WString(_) =>
        FirstArray(|v.units|, UnitTokens(v.units), bs, rest);
        if ReadArray(bs).Got? {
          UnitsRead(v.units, ReadArray(bs).rest, rest);
        }
      case Message(members) =>
        FirstArray(|members|, MembersTokens(members, v.fields), bs, rest);
        if ReadArray(bs).Got? {
          MembersRead(members, v.fields, ReadArray(bs).rest, rest);
        }
    }
  }

  /** An array head in front of other tokens. */
  lemma FirstArray(n: nat, ts: seq<Token>, bs: seq<byte>, rest: seq<byte>)
    ensures Spells(bs, [ArrayOf(n)] + ts, rest) <==>
            ReadArray(bs).Got? && ReadArray(bs).value == n && Spells(ReadArray(bs).rest, ts, rest)
  {
    hide ReadArray, ReadToken, Spells;
    SpellsFirst(bs, [ArrayOf(n)] + ts, rest);
    assert ([ArrayOf(n)] + ts)[1..] == ts;
    if ReadToken(bs).Got? {
      ArrayRead(n, bs, ReadToken(bs).rest);
    }
    if ReadArray(bs).Got? {
      ArrayRead(n, bs, ReadArray(bs).rest);
    }
  }

  lemma {:induction false} EachRead(k: Kind, vs: seq<Value>, bs: seq<byte>, rest: seq<byte>)
    requires HasKinds(k, vs) && ShortKinds(k, vs)
    ensures ReadEach(Cpp, k, |vs|, bs) == Got(vs, rest) <==> Spells(bs, EachTokens(k, vs), rest)
    decreases k, 1, |vs|
  {
    hide Read, KindTokens;
    if vs != [] {
      var first, others := KindTokens(k, vs[0]), EachTokens(k, vs[1..]);
      EachFirst(k, vs, bs, rest);
      hide Spells;
      if ReadEach(Cpp, k, |vs|, bs) == Got(vs, rest) {
        var mid := Read(Cpp, k, bs).rest;
        KindRead(k, vs[0], bs, mid);
        EachRead(k, vs[1..], mid, rest);
        SpellsBoth(bs, first, others, mid, rest);
      } else if Spells(bs, first + others, rest) {
        var mid := SpellsPrefix(bs, first, others, rest);
        KindRead(k, vs[0], bs, mid);
        EachRead(k, vs[1..], mid, rest);
      }
    }
  }

  lemma {:induction false} OctetsRead(k: Kind, vs: seq<Value>, s: seq<byte>)
    requires IsByte(k) && HasKinds(k, vs)
    ensures FromBytes(s) == vs <==> s == OctetsOf(k, vs)
    decreases |vs|
  {
    if vs != [] && s != [] {
      assert HasKind(k, vs[0]);
      OctetsRead(k, vs[1..], s[1..]);
      assert vs == [vs[0]] + vs[1..] && s == [s[0]] + s[1..];
      var vs', s' := FromBytes(s), OctetsOf(k, vs);
      assert vs'[0] == IntV(s[0]) && vs'[1..] == FromBytes(s[1..]);
      assert s'[0] == vs[0].i && s'[1..] == OctetsOf(k, vs[1..]);
    }
  }

  lemma {:induction false} MemberRead(m: Member, v: Value, bs: seq<byte>, rest: seq<byte>)
    requires HasMember(m, v) && ShortMember(m, v)
    ensures ReadMember(Cpp, m, bs) == Got(v, rest) <==> Spells(bs, MemberTokens(m, v), rest)
    decreases m
  {
    if !m.isArray {
      KindRead(m.kind, v, bs, rest);
    } else if IsByte(m.kind) {
      OctetMemberRead(m, v.elems, bs, rest);
    } else if !m.kind.Message? {
      ArrayMemberRead(m, v.elems, bs, rest);
    } else {
      MessagesRead(m, v.elems, bs, rest);
    }
  }

  /** How the C++ reader reads an array that is not of messages. */
  lemma NotMessages(m: Member, bs: seq<byte>)
    requires m.isArray && !m.kind.Message?
    ensures ReadMember(Cpp, m, bs) ==
            match if m.IsFixed() then ReadExactly(m.kind, m.arraySize, bs) else ReadVector(m.kind, bs)
            case Fail => Fail
            case Got(vs, r) => Got(ListV(vs), r)
  {
  }

  lemma OctetMemberRead(m: Member, vs: seq<Value>, bs: seq<byte>, rest: seq<byte>)
    requires m.isArray && IsByte(m.kind) && HasMember(m, ListV(vs))
    ensures ReadMember(Cpp, m, bs) == Got(ListV(vs), rest) <==> Spells(bs, MemberTokens(m, ListV(vs)), rest)
  {
    hide ReadString, ReadToken, Spells;
    NotMessages(m, bs);
    var s := OctetsOf(m.kind, vs);
    SpellsOne(bs, ByteString(s), rest);
    StringRead(s, bs, rest);
    if ReadString(BYTES, bs).Got? {
      OctetsRead(m.kind, vs, ReadString(BYTES, bs).value);
    }
  }

  lemma {:induction false} ArrayMemberRead(m: Member, vs: seq<Value>, bs: seq<byte>, rest: seq<byte>)
    requires m.isArray && !IsByte(m.kind) && !m.kind.Message?
    requires HasMember(m, ListV(vs)) && ShortMember(m, ListV(vs))
    ensures ReadMember(Cpp, m, bs) == Got(ListV(vs), rest) <==> Spells(bs, MemberTokens(m, ListV(vs)), rest)
    decreases m, 0
  {
    hide ReadArray, Spells;
    NotMessages(m, bs);
    FirstArray(|vs|, EachTokens(m.kind, vs), bs, rest);
    if ReadArray(bs).Got? {
      EachRead(m.kind, vs, ReadArray(bs).rest, rest);
    }
  }

  lemma {:induction false} MessagesRead(m: Member, vs: seq<Value>, bs: seq<byte>, rest: seq<byte>)
    requires m.isArray && m.kind.Message?
    requires HasMember(m, ListV(vs)) && ShortMember(m, ListV(vs))
    ensures ReadMember(Cpp, m, bs) == Got(ListV(vs), rest) <==> Spells(bs, MemberTokens(m, ListV(vs)), rest)
    decreases m, 0
  {
    hide ReadUint, ReadToken, Spells;
    if m.IsFixed() {
      EachRead(m.kind, vs, bs, rest);
    } else {
      var each := EachTokens(m.kind, vs);
      SpellsFirst(bs, [Integer(|vs|)] + each, rest);
      assert ([Integer(|vs|)] + each)[1..] == each;
      if ReadToken(bs).Got? {
        UintRead(TWO_32 - 1, |vs|, bs, ReadToken(bs).rest);
      }
      if ReadUint(TWO_32 - 1, bs).Got? {
        UintRead(TWO_32 - 1, |vs|, bs, ReadUint(TWO_32 - 1, bs).rest);
        EachRead(m.kind, vs, ReadUint(TWO_32 - 1, bs).rest, rest);
      }
    }
  }

  lemma {:induction false} MembersRead(ms: seq<Member>, vs: seq<Value>, bs: seq<byte>, rest: seq<byte>)
    requires HasMembers(ms, vs) && ShortMembers(ms, vs)
    ensures ReadMembers(Cpp, ms, bs) == Got(vs, rest) <==> Spells(bs, MembersTokens(ms, vs), rest)
    decreases ms
  {
    hide ReadMember, MemberTokens;
    if ms != [] {
      var first, others := MemberTokens(ms[0], vs[0]), MembersTokens(ms[1..], vs[1..]);
      MembersFirst(ms, vs, bs, rest);
      hide Spells;
      if ReadMembers(Cpp, ms, bs) == Got(vs, rest) {
        var mid := ReadMember(Cpp, ms[0], bs).rest;
        MemberRead(ms[0], vs[0], bs, mid);
        MembersRead(ms[1..], vs[1..], mid, rest);
        SpellsBoth(bs, first, others, mid, rest);
      } else if Spells(bs, first + others, rest) {
        var mid := SpellsPrefix(bs, first, others, rest);
        MemberRead(ms[0], vs[0], bs, mid);
        MembersRead(ms[1..], vs[1..], mid, rest);
      }
    }
  }

  // ---------- no value outside its type is read ----------

  /** The integers of a numeric type. */
  predicate InRange(n: Number, i: int) {
    match n
    case Octet | Uint8 => 0 <= i < 0x100
    case Char | Int8 => -0x80 <= i < 0x80
    case Uint16 => 0 <= i < 0x1_0000
    case Int16 => -0x8000 <= i < 0x8000
    case Uint32 => 0 <= i < 0x1_0000_0000
    case Int32 => -0x8000_0000 <= i < 0x8000_0000
    case Uint64 => 0 <= i < 0x1_0000_0000_0000_0000
    case Int64 => -0x8000_0000_0000_0000 <= i < 0x8000_0000_0000_0000
    case _ => false
  }

  lemma NumberTypes(n: Number, v: Value)
    ensures HasNumber(n, v) <==>
            match n
            case Boolean => v.BoolV?
            case Float => v.BitsV? && v.bits < 0x1_0000_0000
            case Double => v.BitsV? && v.bits < 0x1_0000_0000_0000_0000
            case _ => v.IntV? && InRange(n, v.i)
  {
  }

  /** An integer, however it is spelled, is read as exactly that integer if it is in the range of the
      type, and refused otherwise. */
  lemma IntegersAreReadInRange(n: Number, i: int, bs: seq<byte>, rest: seq<byte>)
    requires !n.Boolean? && !n.Float? && !n.Double? && ReadToken(bs) == Got(Integer(i), rest)
    ensures ReadNumber(n, bs) == if InRange(n, i) then Got(IntV(i), rest) else Fail
  {
    HeadIsToken(bs);
    hide ReadHead, ReadToken;
  }

  lemma FourBound(bs: seq<byte>)
    requires |bs| == 4
    ensures FromFour(bs) < 0x1_0000_0000
  {
  }

  lemma HeadBound(bs: seq<byte>)
    requires ReadHead(bs).Got?
    ensures ReadHead(bs).value.arg < 0x1_0000_0000_0000_0000
    ensures ReadHead(bs).value.info == 26 ==> ReadHead(bs).value.arg < 0x1_0000_0000
  {
    ArgumentIsRead(bs);
    hide ReadHead;
    var tail := bs[1..];
    if |tail| >= 4 {
      FourBound(tail[..4]);
    }
    if |tail| >= 8 {
      FourBound(tail[4..8]);
    }
    hide FromFour;
  }

  /** Schemas with fewer than 2^32 members in a message, as `member_count_` counts them, and fewer
      than 2^64 elements in a fixed array, at every depth. */
  predicate Sized(k: Kind)
    decreases k
  {
    k.Message? ==> |k.members| < TWO_32 && AreSized(k.members)
  }

  predicate AreSized(ms: seq<Member>)
    decreases ms
  {
    ms == [] || (IsSizedMember(ms[0]) && AreSized(ms[1..]))
  }

  predicate IsSizedMember(m: Member)
    decreases m
  {
    m.arraySize < TWO_64 && Sized(m.kind)
  }

  lemma NumberReadFits(n: Number, bs: seq<byte>)
    requires ReadNumber(n, bs).Got?
    ensures HasNumber(n, ReadNumber(n, bs).value)
  {
    HeadBound(bs);
    hide ReadHead;
  }

  lemma {:induction false} UnitsReadFit(n: nat, bs: seq<byte>)
    requires ReadUnits(n, bs).Got?
    ensures forall i :: 0 <= i < n ==> ReadUnits(n, bs).value[i] < TWO_16
  {
    hide ReadHead;
    if n > 0 {
      UnitsReadFit(n - 1, ReadUint(TWO_16 - 1, bs).rest);
    }
  }

  lemma {:induction false} KindReadFits(k: Kind, bs: seq<byte>)
    requires Sized(k) && Read(Cpp, k, bs).Got?
    ensures HasKind(k, Read(Cpp, k, bs).value)
    decreases k, 0
  {
    hide ReadHead, ReadNumber;
    match k
    case Num(n) => NumberReadFits(n, bs);
    case String(_) => HeadBound(bs);
    case WString(_) =>
      HeadBound(bs);
      UnitsReadFit(ReadArray(bs).value, ReadArray(bs).rest);
    case Message(members) => MembersReadFit(members, ReadArray(bs).rest);
  }

  lemma {:induction false} EachReadFit(k: Kind, n: nat, bs: seq<byte>)
    requires Sized(k) && ReadEach(Cpp, k, n, bs).Got?
    ensures HasKinds(k, ReadEach(Cpp, k, n, bs).value)
    decreases k, 1, n
  {
    hide Read, HasKind;
    if n > 0 {
      var vs, r := ReadEach(Cpp, k, n, bs).value, Read(Cpp, k, bs).rest;
      assert vs[1..] == ReadEach(Cpp, k, n - 1, r).value;
      KindReadFits(k, bs);
      EachReadFit(k, n - 1, r);
    }
  }

  lemma {:induction false} FromBytesFit(k: Kind, s: seq<byte>)
    requires IsByte(k)
    ensures HasKinds(k, FromBytes(s))
  {
    if s != [] {
      FromBytesFit(k, s[1..]);
      assert HasKind(k, IntV(s[0])) && FromBytes(s)[1..] == FromBytes(s[1..]);
    }
  }

  lemma {:induction false} MemberReadFits(m: Member, bs: seq<byte>)
    requires IsSizedMember(m) && ReadMember(Cpp, m, bs).Got?
    ensures HasMember(m, ReadMember(Cpp, m, bs).value)
    decreases m
  {
    hide ReadHead;
    if !m.isArray {
      KindReadFits(m.kind, bs);
    } else if m.kind.Message? {
      var n := if m.IsFixed() then Got(m.arraySize, bs) else ReadUint(TWO_32 - 1, bs);
      EachReadFit(m.kind, n.value, n.rest);
    } else {
      NotMessages(m, bs);
      HeadBound(bs);
      if IsByte(m.kind) {
        FromBytesFit(m.kind, ReadString(BYTES, bs).value);
      } else {
        EachReadFit(m.kind, ReadArray(bs).value, ReadArray(bs).rest);
      }
    }
  }

  lemma {:induction false} MembersReadFit(ms: seq<Member>, bs: seq<byte>)
    requires AreSized(ms) && ReadMembers(Cpp, ms, bs).Got?
    ensures HasMembers(ms, ReadMembers(Cpp, ms, bs).value)
    decreases ms
  {
    hide ReadMember, HasMember;
    if ms != [] {
      var vs, r := ReadMembers(Cpp, ms, bs).value, ReadMember(Cpp, ms[0], bs).rest;
      assert vs[1..] == ReadMembers(Cpp, ms[1..], r).value;
      MemberReadFits(ms[0], bs);
      MembersReadFit(ms[1..], r);
    }
  }

  // ---------- the main results ----------

  predicate SpellsValue(members: seq<Member>, v: Value, bs: seq<byte>, rest: seq<byte>) {
    && HasKind(Message(members), v) && ShortKind(Message(members), v)
    && Spells(bs, TopTokens(members, v), rest)
  }

  /** A reader returns a value and what follows it if and only if the value is one of the schema,
      with sequences of messages shorter than 2^32, and the bytes spell its tokens, in heads of any
      width, before what follows. */
  lemma ReadIffSpelled(members: seq<Member>, v: Value, bs: seq<byte>, rest: seq<byte>)
    requires members != [] && Sized(Message(members))
    ensures ReadTop(Cpp, members, bs) == Got(v, rest) <==> SpellsValue(members, v, bs, rest)
  {
    var k := Message(members);
    if Read(Cpp, k, bs) == Got(v, rest) {
      KindReadFits(k, bs);
      ReadIsShort(k, bs);
    }
    if HasKind(k, v) && ShortKind(k, v) {
      KindRead(k, v, bs, rest);
    }
  }

  lemma ReadsAllSpelled(members: seq<Member>, bs: seq<byte>)
    requires members != [] && Sized(Message(members))
    ensures forall v, rest :: ReadTop(Cpp, members, bs) == Got(v, rest) <==> SpellsValue(members, v, bs, rest)
  {
    forall v, rest
      ensures ReadTop(Cpp, members, bs) == Got(v, rest) <==> SpellsValue(members, v, bs, rest)
    {
      ReadIffSpelled(members, v, bs, rest);
    }
  }

  /** What spells a value is read by both bindings, each seeing the value through its strings. */
  lemma SpelledIsRead(b: Binding, members: seq<Member>, v: Value, bs: seq<byte>, rest: seq<byte>)
    requires members != [] && HasKind(Message(members), v) && ShortKind(Message(members), v)
    requires Spells(bs, TopTokens(members, v), rest)
    ensures ReadTop(b, members, bs) == Got(Seen(b, v), rest)
  {
    KindRead(Message(members), v, bs, rest);
    ReadersAgree(b, Message(members), bs);
  }

  /** The empty message is any integer below 256 to its readers. */
  lemma EmptyIsRead(b: Binding, bs: seq<byte>, rest: seq<byte>)
    ensures ReadTop(b, [], bs) == Got(MsgV([]), rest) <==>
            ReadToken(bs).Got? && ReadToken(bs).rest == rest
            && ReadToken(bs).value.Integer? && 0 <= ReadToken(bs).value.i < 0x100
  {
    HeadIsToken(bs);
    hide ReadHead, ReadToken;
  }
}
