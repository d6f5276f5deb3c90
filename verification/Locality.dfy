/** A reader looks only at the bytes it consumes: what follows them changes nothing.
    Hence no encoding is a proper prefix of another encoding of the same schema. */
module Locality {
  import opened Cbor
  import opened Messages
  import opened Wire
  import opened RoundTrip

  lemma NumberLocal(n: Number, bs: seq<byte>, suffix: seq<byte>)
    requires ReadNumber(n, bs).Got?
    ensures ReadNumber(n, bs + suffix) == Appended(ReadNumber(n, bs), suffix)
  {
    HeadLocal(bs, suffix);
  }

  lemma {:induction false} UnitsLocal(n: nat, bs: seq<byte>, suffix: seq<byte>)
    requires ReadUnits(n, bs).Got?
    ensures ReadUnits(n, bs + suffix) == Appended(ReadUnits(n, bs), suffix)
  {
    if n > 0 {
      HeadLocal(bs, suffix);
      UnitsLocal(n - 1, ReadHead(bs).rest, suffix);
    }
  }

  lemma {:induction false} KindLocal(b: Binding, k: Kind, bs: seq<byte>, suffix: seq<byte>)
    requires Read(b, k, bs).Got?
    ensures Read(b, k, bs + suffix) == Appended(Read(b, k, bs), suffix)
    decreases k, 0
  {
    match k
    case Num(n) => NumberLocal(n, bs, suffix);
    case String(_) => StringLocal(TEXT, bs, suffix);
    case WString(_) =>
      HeadLocal(bs, suffix);
      UnitsLocal(ReadArray(bs).value, ReadArray(bs).rest, suffix);
    case Message(members) =>
      HeadLocal(bs, suffix);
      MembersLocal(b, members, ReadArray(bs).rest, suffix);
  }

  lemma {:induction false} EachLocal(b: Binding, k: Kind, n: nat, bs: seq<byte>, suffix: seq<byte>)
    requires ReadEach(b, k, n, bs).Got?
    ensures ReadEach(b, k, n, bs + suffix) == Appended(ReadEach(b, k, n, bs), suffix)
    decreases k, 1, n
  {
    hide Read;
    if n > 0 {
      KindLocal(b, k, bs, suffix);
      EachLocal(b, k, n - 1, Read(b, k, bs).rest, suffix);
    }
  }

  lemma {:induction false} VectorLocal(k: Kind, bs: seq<byte>, suffix: seq<byte>)
    requires ReadVector(k, bs).Got?
    ensures ReadVector(k, bs + suffix) == Appended(ReadVector(k, bs), suffix)
    decreases k, 2
  {
    if IsByte(k) {
      StringLocal(BYTES, bs, suffix);
    } else {
      HeadLocal(bs, suffix);
      EachLocal(Cpp, k, ReadArray(bs).value, ReadArray(bs).rest, suffix);
    }
  }

  lemma {:induction false} ArrayMemberLocal(b: Binding, m: Member, bs: seq<byte>, suffix: seq<byte>)
    requires ReadArrayMember(b, m, bs).Got?
    ensures ReadArrayMember(b, m, bs + suffix) == Appended(ReadArrayMember(b, m, bs), suffix)
    decreases m, 0
  {
    if m.kind.Message? {
      if m.IsFixed() {
        EachLocal(b, m.kind, m.arraySize, bs, suffix);
      } else {
        HeadLocal(bs, suffix);
        var Got(n, r) := ReadUint(TWO_32 - 1, bs);
        EachLocal(b, m.kind, n, r, suffix);
      }
    } else if b.C? && !m.kind.Num? {
      VectorLocal(m.kind, bs, suffix);
    } else if m.IsFixed() {
      ExactlyIsVector(m.kind, m.arraySize, bs);
      ExactlyLocal(m.kind, m.arraySize, bs, suffix);
    } else {
      PeekThenFill(m.kind, bs);
      PeekThenFill(m.kind, bs + suffix);
      VectorLocal(m.kind, bs, suffix);
    }
  }

  lemma {:induction false} ExactlyLocal(k: Kind, n: nat, bs: seq<byte>, suffix: seq<byte>)
    requires ReadExactly(k, n, bs).Got?
    ensures ReadExactly(k, n, bs + suffix) == Appended(ReadExactly(k, n, bs), suffix)
    decreases k, 2
  {
    if IsByte(k) {
      StringLocal(BYTES, bs, suffix);
    } else {
      HeadLocal(bs, suffix);
      EachLocal(Cpp, k, n, ReadArray(bs).rest, suffix);
    }
  }

  lemma {:induction false} MemberLocal(b: Binding, m: Member, bs: seq<byte>, suffix: seq<byte>)
    requires ReadMember(b, m, bs).Got?
    ensures ReadMember(b, m, bs + suffix) == Appended(ReadMember(b, m, bs), suffix)
    decreases m, 1
  {
    if m.isArray {
      ArrayMemberLocal(b, m, bs, suffix);
    } else {
      KindLocal(b, m.kind, bs, suffix);
    }
  }

  lemma {:induction false} MembersLocal(b: Binding, ms: seq<Member>, bs: seq<byte>, suffix: seq<byte>)
    requires ReadMembers(b, ms, bs).Got?
    ensures ReadMembers(b, ms, bs + suffix) == Appended(ReadMembers(b, ms, bs), suffix)
    decreases ms
  {
    if ms != [] {
      MemberLocal(b, ms[0], bs, suffix);
      MembersLocal(b, ms[1..], ReadMember(b, ms[0], bs).rest, suffix);
    }
  }

  // ---------- the main results ----------

  /** Decoder locality, for both bindings and any bytes, written by this code or not. */
  lemma ReaderIsLocal(b: Binding, members: seq<Member>, bs: seq<byte>, suffix: seq<byte>)
    requires ReadTop(b, members, bs).Got?
    ensures ReadTop(b, members, bs + suffix) == Appended(ReadTop(b, members, bs), suffix)
  {
    if members == [] {
      HeadLocal(bs, suffix);
    } else {
      KindLocal(b, Message(members), bs, suffix);
    }
  }

  /** No proper prefix of an encoding decodes, whichever binding wrote it and whichever reads. */
  lemma NoProperPrefixDecodes(writer: Binding, reader: Binding, members: seq<Member>, v: Value, cut: nat)
    requires HasKind(Message(members), v) && ShortKind(Message(members), v)
    requires cut < |Encoding(writer, members, v)|
    ensures ReadTop(reader, members, Encoding(writer, members, v)[..cut]).Fail?
  {
    var bytes := Encoding(writer, members, v);
    assert bytes[..cut] + bytes[cut..] == bytes == bytes + [];
    if ReadTop(reader, members, bytes[..cut]).Got? {
      ReaderIsLocal(reader, members, bytes[..cut], bytes[cut..]);
      BindingsAgree(writer, reader, members, v, []);
      assert |bytes[cut..]| > 0;
    }
  }

  /** For messages of one schema, one binding's encoding is a prefix of another's only if the two
      bindings see the same message; so distinct messages never have one's bytes begin the other's. */
  lemma EncodingsArePrefixFree(a: Binding, b: Binding, members: seq<Member>, v: Value, w: Value)
    requires HasKind(Message(members), v) && ShortKind(Message(members), v)
    requires HasKind(Message(members), w) && ShortKind(Message(members), w)
    ensures Encoding(a, members, v) <= Encoding(b, members, w) <==> Seen(a, v) == Seen(b, w)
  {
    SeenHasKind(a, Message(members), v);
    SeenHasKind(b, Message(members), w);
    var x, y := Encoding(a, members, v), Encoding(b, members, w);
    if x <= y {
      assert x + y[|x|..] == y == y + [];
      RoundTripWithFraming(members, Seen(a, v), y[|x|..]);
      RoundTripWithFraming(members, Seen(b, w), []);
    }
  }
}
