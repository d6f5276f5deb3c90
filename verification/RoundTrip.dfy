/** Reading undoes writing, in all four pairs of bindings, and leaves what follows untouched. */
module RoundTrip {
  import opened Cbor
  import opened Messages
  import opened Wire

  // ---------- C++ reads what was written ----------

  lemma NumberRoundTrip(n: Number, v: Value, rest: seq<byte>)
    requires HasNumber(n, v)
    ensures ReadNumber(n, WriteNumber(n, v) + rest) == Got(v, rest)
  {
    Pow256Values();
    match n
    case Boolean => HeadRoundTrip(SIMPLE, if v.b then 21 else 20, rest);
    case Float => HeadWithRoundTrip(SIMPLE, 26, v.bits, rest);
    case Double => HeadWithRoundTrip(SIMPLE, 27, v.bits, rest);
    case Octet | Uint8 | Uint16 | Uint32 | Uint64 => HeadRoundTrip(UINT, v.i, rest);
    case _ => IntRoundTrip(v.i, Low(n), High(n), rest);
  }

  lemma {:induction false} UnitsRoundTrip(units: seq<nat>, rest: seq<byte>)
    requires forall i :: 0 <= i < |units| ==> units[i] < TWO_16
    ensures ReadUnits(|units|, WriteUnits(units) + rest) == Got(units, rest)
  {
    hide Head, ReadHead;
    if units == [] {
      assert WriteUnits(units) + rest == rest;
    } else {
      var tail := WriteUnits(units[1..]) + rest;
      Regroup(Head(UINT, units[0]), WriteUnits(units[1..]), rest);
      HeadRoundTrip(UINT, units[0], tail);
      UnitsRoundTrip(units[1..], rest);
      assert [units[0]] + units[1..] == units;
    }
  }

  lemma U16StringRoundTrip(units: seq<nat>, rest: seq<byte>)
    requires |units| < TWO_64 && forall i :: 0 <= i < |units| ==> units[i] < TWO_16
    ensures ReadU16String(Head(ARRAY, |units|) + WriteUnits(units) + rest) == Got(units, rest)
  {
    Regroup(Head(ARRAY, |units|), WriteUnits(units), rest);
    HeadRoundTrip(ARRAY, |units|, WriteUnits(units) + rest);
    UnitsRoundTrip(units, rest);
  }

  lemma {:induction false} BytesRoundTrip(k: Kind, vs: seq<Value>)
    requires IsByte(k) && HasKinds(k, vs)
    ensures FromBytes(AsBytes(k, vs)) == vs
  {
    if vs != [] {
      BytesRoundTrip(k, vs[1..]);
      assert HasKind(k, vs[0]);
      var bs := AsBytes(k, vs);
      assert bs[0] == vs[0].i && bs[1..] == AsBytes(k, vs[1..]);
      assert [vs[0]] + vs[1..] == vs;
    }
  }

  lemma {:induction false} KindRoundTrip(k: Kind, v: Value, rest: seq<byte>)
    requires HasKind(k, v) && ShortKind(k, v)
    ensures Read(Cpp, k, Write(k, v) + rest) == Got(v, rest)
    decreases k, 0
  {
    match k
    case Num(n) => NumberRoundTrip(n, v, rest);
    case String(_) => StringRoundTrip(TEXT, v.s, rest);
    case WString(_) => U16StringRoundTrip(v.units, rest);
    case Message(members) =>
      var tail := WriteMembers(members, v.fields) + rest;
      assert Write(k, v) + rest == Head(ARRAY, |members|) + tail;
      HeadRoundTrip(ARRAY, |members|, tail);
      MembersRoundTrip(members, v.fields, rest);
  }

  lemma {:induction false} EachRoundTrip(k: Kind, vs: seq<Value>, rest: seq<byte>)
    requires HasKinds(k, vs) && ShortKinds(k, vs)
    ensures ReadEach(Cpp, k, |vs|, WriteEach(k, vs) + rest) == Got(vs, rest)
    decreases k, 1, |vs|
  {
    hide Write, Read;
    if vs == [] {
      assert WriteEach(k, vs) + rest == rest;
    } else {
      var tail := WriteEach(k, vs[1..]) + rest;
      Regroup(Write(k, vs[0]), WriteEach(k, vs[1..]), rest);
      KindRoundTrip(k, vs[0], tail);
      EachRoundTrip(k, vs[1..], rest);
      assert [vs[0]] + vs[1..] == vs;
    }
  }

  lemma {:induction false} SequenceRoundTrip(k: Kind, vs: seq<Value>, rest: seq<byte>)
    requires HasKinds(k, vs) && ShortKinds(k, vs) && |vs| < TWO_64
    ensures ReadVector(k, WriteSequence(k, vs) + rest) == Got(vs, rest)
    ensures ReadExactly(k, |vs|, WriteSequence(k, vs) + rest) == Got(vs, rest)
    decreases k, 2
  {
    if IsByte(k) {
      StringRoundTrip(BYTES, AsBytes(k, vs), rest);
      BytesRoundTrip(k, vs);
    } else {
      var tail := WriteEach(k, vs) + rest;
      assert WriteSequence(k, vs) + rest == Head(ARRAY, |vs|) + tail;
      HeadRoundTrip(ARRAY, |vs|, tail);
      EachRoundTrip(k, vs, rest);
    }
  }

  lemma {:induction false} MemberRoundTrip(m: Member, v: Value, rest: seq<byte>)
    requires HasMember(m, v) && ShortMember(m, v)
    ensures ReadMember(Cpp, m, WriteMember(m, v) + rest) == Got(v, rest)
    decreases m
  {
    hide Head, ReadHead, ReadVector, ReadExactly, WriteSequence;
    if !m.isArray {
      KindRoundTrip(m.kind, v, rest);
    } else if !m.kind.Message? {
      SequenceRoundTrip(m.kind, v.elems, rest);
    } else {
      EachRoundTrip(m.kind, v.elems, rest);
      if !m.IsFixed() {
        Regroup(Head(UINT, |v.elems|), WriteEach(m.kind, v.elems), rest);
        HeadRoundTrip(UINT, |v.elems|, WriteEach(m.kind, v.elems) + rest);
      }
    }
  }

  lemma {:induction false} MembersRoundTrip(ms: seq<Member>, vs: seq<Value>, rest: seq<byte>)
    requires HasMembers(ms, vs) && ShortMembers(ms, vs)
    ensures ReadMembers(Cpp, ms, WriteMembers(ms, vs) + rest) == Got(vs, rest)
    decreases ms
  {
    hide WriteMember, ReadMember;
    if ms == [] {
      assert WriteMembers(ms, vs) + rest == rest;
    } else {
      var tail := WriteMembers(ms[1..], vs[1..]) + rest;
      Regroup(WriteMember(ms[0], vs[0]), WriteMembers(ms[1..], vs[1..]), rest);
      MemberRoundTrip(ms[0], vs[0], tail);
      MembersRoundTrip(ms[1..], vs[1..], rest);
      assert [vs[0]] + vs[1..] == vs;
    }
  }

  // ---------- what is read is short ----------

  lemma {:induction false} ReadIsShort(k: Kind, bs: seq<byte>)
    requires Read(Cpp, k, bs).Got? && HasKind(k, Read(Cpp, k, bs).value)
    ensures ShortKind(k, Read(Cpp, k, bs).value)
    decreases k, 0
  {
    if k.Message? {
      ReadMembersIsShort(k.members, ReadArray(bs).rest);
    }
  }

  lemma {:induction false} ReadEachIsShort(k: Kind, n: nat, bs: seq<byte>)
    requires ReadEach(Cpp, k, n, bs).Got? && HasKinds(k, ReadEach(Cpp, k, n, bs).value)
    ensures ShortKinds(k, ReadEach(Cpp, k, n, bs).value)
    decreases k, 1, n
  {
    if n > 0 {
      var vs := ReadEach(Cpp, k, n, bs).value;
      var r := Read(Cpp, k, bs).rest;
      assert vs[1..] == ReadEach(Cpp, k, n - 1, r).value;
      ReadIsShort(k, bs);
      ReadEachIsShort(k, n - 1, r);
    }
  }

  lemma {:induction false} NumbersAreShort(k: Kind, vs: seq<Value>)
    requires !k.Message? && HasKinds(k, vs)
    ensures ShortKinds(k, vs)
  {
    if vs != [] {
      NumbersAreShort(k, vs[1..]);
    }
  }

  lemma {:induction false} ReadMemberIsShort(m: Member, bs: seq<byte>)
    requires ReadMember(Cpp, m, bs).Got? && HasMember(m, ReadMember(Cpp, m, bs).value)
    ensures ShortMember(m, ReadMember(Cpp, m, bs).value)
    decreases m
  {
    if !m.isArray {
      ReadIsShort(m.kind, bs);
    } else if m.kind.Message? {
      var n := if m.IsFixed() then Got(m.arraySize, bs) else ReadUint(TWO_32 - 1, bs);
      ReadEachIsShort(m.kind, n.value, n.rest);
    } else {
      NumbersAreShort(m.kind, ReadMember(Cpp, m, bs).value.elems);
    }
  }

  lemma {:induction false} ReadMembersIsShort(ms: seq<Member>, bs: seq<byte>)
    requires ReadMembers(Cpp, ms, bs).Got? && HasMembers(ms, ReadMembers(Cpp, ms, bs).value)
    ensures ShortMembers(ms, ReadMembers(Cpp, ms, bs).value)
    decreases ms
  {
    if ms != [] {
      var vs := ReadMembers(Cpp, ms, bs).value;
      var r := ReadMember(Cpp, ms[0], bs).rest;
      assert vs[1..] == ReadMembers(Cpp, ms[1..], r).value;
      ReadMemberIsShort(ms[0], bs);
      ReadMembersIsShort(ms[1..], r);
    }
  }

  // ---------- the C reader sees what the C++ reader reads ----------

  function SeenParse(b: Binding, p: Parse<Value>): Parse<Value> {
    match p
    case Fail => Fail
    case Got(v, r) => Got(Seen(b, v), r)
  }

  function SeenParses(b: Binding, p: Parse<seq<Value>>): Parse<seq<Value>> {
    match p
    case Fail => Fail
    case Got(vs, r) => Got(SeenAll(b, vs), r)
  }

  /** In front of any array or byte string the length is peeked right, and nothing is consumed. */
  lemma PeekSeesLength(k: Kind, vs: seq<Value>, rest: seq<byte>)
    requires HasKinds(k, vs) && |vs| < TWO_64
    ensures PeekSize(WriteSequence(k, vs) + rest) == Got(|vs|, WriteSequence(k, vs) + rest)
  {
    if IsByte(k) {
      Regroup(Head(BYTES, |vs|), AsBytes(k, vs), rest);
      HeadRoundTrip(BYTES, |vs|, AsBytes(k, vs) + rest);
    } else {
      Regroup(Head(ARRAY, |vs|), WriteEach(k, vs), rest);
      HeadRoundTrip(ARRAY, |vs|, WriteEach(k, vs) + rest);
    }
  }

  /** Peeking at the length and then filling an array of that length reads what resizing a vector
      reads, and fails on the same input. */
  lemma PeekThenFill(k: Kind, bs: seq<byte>)
    ensures ReadVector(k, bs) ==
            match PeekSize(bs) case Fail => Fail case Got(n, r) => ReadExactly(k, n, r)
  {
  }

  lemma ExactlyIsVector(k: Kind, n: nat, bs: seq<byte>)
    requires ReadExactly(k, n, bs).Got?
    ensures ReadVector(k, bs) == ReadExactly(k, n, bs) && |ReadExactly(k, n, bs).value| == n
  {
  }

  lemma {:induction false} SeenFromBytes(b: Binding, bs: seq<byte>)
    ensures SeenAll(b, FromBytes(bs)) == FromBytes(bs)
  {
    if bs != [] {
      SeenFromBytes(b, bs[1..]);
      assert FromBytes(bs)[1..] == FromBytes(bs[1..]);
    }
  }

  lemma {:induction false} NumbersSeen(b: Binding, k: Kind, n: nat, bs: seq<byte>)
    requires k.Num?
    ensures ReadEach(Cpp, k, n, bs) == SeenParses(b, ReadEach(Cpp, k, n, bs))
  {
    if n > 0 && Read(Cpp, k, bs).Got? {
      var Got(v, r) := Read(Cpp, k, bs);
      assert Seen(b, v) == v;
      NumbersSeen(b, k, n - 1, r);
      if ReadEach(Cpp, k, n - 1, r).Got? {
        var vs := ReadEach(Cpp, k, n, bs).value;
        assert vs[1..] == ReadEach(Cpp, k, n - 1, r).value;
      }
    }
  }

  lemma VectorSeen(b: Binding, k: Kind, bs: seq<byte>)
    requires k.Num?
    ensures ReadVector(k, bs) == SeenParses(b, ReadVector(k, bs))
  {
    if IsByte(k) {
      if ReadString(BYTES, bs).Got? {
        SeenFromBytes(b, ReadString(BYTES, bs).value);
      }
    } else if ReadArray(bs).Got? {
      NumbersSeen(b, k, ReadArray(bs).value, ReadArray(bs).rest);
    }
  }

  lemma CStringsSeen(b: Binding, m: Member, bs: seq<byte>)
    requires m.isArray && !m.kind.Num? && !m.kind.Message?
    requires ReadArrayMember(Cpp, m, bs).Got?
    ensures ReadArrayMember(b, m, bs) == SeenParses(b, ReadArrayMember(Cpp, m, bs))
  {
    var Got(vs, r) := ReadArrayMember(Cpp, m, bs);
    SeenAllIsSame(Cpp, vs);
    if m.IsFixed() {
      ExactlyIsVector(m.kind, m.arraySize, bs);
      assert vs[..m.arraySize] == vs;
    }
  }

  /** Whatever the C++ reader accepts, each reader accepts, seeing the same message through its
      own strings and stopping at the same byte. */
  lemma {:induction false} ReadersAgree(b: Binding, k: Kind, bs: seq<byte>)
    requires Read(Cpp, k, bs).Got?
    ensures Read(b, k, bs) == SeenParse(b, Read(Cpp, k, bs))
    decreases k, 0
  {
    if k.Message? {
      ReadersAgreeMembers(b, k.members, ReadArray(bs).rest);
    }
  }

  lemma {:induction false} ReadersAgreeEach(b: Binding, k: Kind, n: nat, bs: seq<byte>)
    requires ReadEach(Cpp, k, n, bs).Got?
    ensures ReadEach(b, k, n, bs) == SeenParses(b, ReadEach(Cpp, k, n, bs))
    decreases k, 1, n
  {
    if n > 0 {
      var Got(v, r) := Read(Cpp, k, bs);
      ReadersAgree(b, k, bs);
      ReadersAgreeEach(b, k, n - 1, r);
      assert ReadEach(Cpp, k, n, bs).value[1..] == ReadEach(Cpp, k, n - 1, r).value;
    }
  }

  lemma {:induction false} ReadersAgreeMember(b: Binding, m: Member, bs: seq<byte>)
    requires ReadMember(Cpp, m, bs).Got?
    ensures ReadMember(b, m, bs) == SeenParse(b, ReadMember(Cpp, m, bs))
    decreases m
  {
    if !m.isArray {
      ReadersAgree(b, m.kind, bs);
    } else if m.kind.Message? {
      var n := if m.IsFixed() then Got(m.arraySize, bs) else ReadUint(TWO_32 - 1, bs);
      ReadersAgreeEach(b, m.kind, n.value, n.rest);
    } else if m.kind.Num? {
      PeekThenFill(m.kind, bs);
      VectorSeen(b, m.kind, bs);
      if m.IsFixed() {
        ExactlyIsVector(m.kind, m.arraySize, bs);
      }
    } else {
      CStringsSeen(b, m, bs);
    }
  }

  lemma {:induction false} ReadersAgreeMembers(b: Binding, ms: seq<Member>, bs: seq<byte>)
    requires ReadMembers(Cpp, ms, bs).Got?
    ensures ReadMembers(b, ms, bs) == SeenParses(b, ReadMembers(Cpp, ms, bs))
    decreases ms
  {
    if ms != [] {
      var Got(v, r) := ReadMember(Cpp, ms[0], bs);
      ReadersAgreeMember(b, ms[0], bs);
      ReadersAgreeMembers(b, ms[1..], r);
      assert ReadMembers(Cpp, ms, bs).value[1..] == ReadMembers(Cpp, ms[1..], r).value;
    }
  }

  // ---------- the main results ----------

  /** Codec round trip with framing: reading a written message followed by any bytes gives the
      message back and leaves exactly those bytes, if and only if no sequence of messages in it
      is too long for the `uint32_t` its length is written through. */
  lemma RoundTripWithFraming(members: seq<Member>, v: Value, rest: seq<byte>)
    requires HasKind(Message(members), v)
    ensures ReadTop(Cpp, members, WriteTop(members, v) + rest) == Got(v, rest) <==> ShortKind(Message(members), v)
  {
    if members == [] {
      HeadRoundTrip(UINT, 0, rest);
    } else if ShortKind(Message(members), v) {
      KindRoundTrip(Message(members), v, rest);
    } else if Read(Cpp, Message(members), Write(Message(members), v) + rest) == Got(v, rest) {
      ReadIsShort(Message(members), Write(Message(members), v) + rest);
    }
  }

  /** Binding agreement: `writer` writes what it sees of `v`, and `reader` reads it back.  A
      message with short sequences survives, with exact framing, if and only if both are C++ or
      no string in it holds a zero unit. */
  lemma BindingsAgree(writer: Binding, reader: Binding, members: seq<Member>, v: Value, rest: seq<byte>)
    requires HasKind(Message(members), v) && ShortKind(Message(members), v)
    ensures var bytes := Encoding(writer, members, v);
            && ReadTop(reader, members, bytes + rest) == Got(Seen(reader, Seen(writer, v)), rest)
            && (ReadTop(reader, members, bytes + rest) == Got(v, rest)
                <==> (writer.Cpp? && reader.Cpp?) || ZeroFree(v))
            && (bytes == WriteTop(members, v) <==> writer.Cpp? || ZeroFree(v))
  {
    var k := Message(members);
    var seen := Seen(writer, v);
    SeenHasKind(writer, k, v);
    SeenIsSame(writer, v);
    SeenIsSame(reader, v);
    SeenIsSame(reader, seen);
    RoundTripWithFraming(members, v, rest);
    RoundTripWithFraming(members, seen, rest);
    if members != [] {
      ReadersAgree(reader, k, Write(k, seen) + rest);
    }
    SeenTwice(writer, reader, v);
  }

  /** Cutting at zeros again changes nothing. */
  lemma {:induction false} SeenTwice(first: Binding, second: Binding, v: Value)
    ensures first.C? ==> Seen(second, Seen(first, v)) == Seen(first, v)
    ensures Seen(second, Seen(first, v)) == v ==> Seen(first, v) == v && Seen(second, v) == v
  {
    if first.C? {
      SeenIsZeroFree(v);
      SeenIsSame(second, Seen(C, v));
    } else {
      SeenIsSame(Cpp, v);
    }
  }

  lemma {:induction false} SeenIsZeroFree(v: Value)
    ensures ZeroFree(Seen(C, v))
    decreases v
  {
    match v
    case MsgV(fields) => SeenAllIsZeroFree(fields);
    case ListV(elems) => SeenAllIsZeroFree(elems);
    case _ =>
  }

  lemma {:induction false} SeenAllIsZeroFree(vs: seq<Value>)
    ensures ZeroFreeAll(SeenAll(C, vs))
    decreases vs
  {
    if vs != [] {
      SeenIsZeroFree(vs[0]);
      SeenAllIsZeroFree(vs[1..]);
      assert SeenAll(C, vs)[1..] == SeenAll(C, vs[1..]);
    }
  }
}
