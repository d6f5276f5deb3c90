/** The walker itself: `serializeROSmessage` and `deserializeROSmessage` as loops over members and
    elements that change a stream, and the overflow retry around them.  A method's boolean result
    is false where the source throws. */
module TypeSupport {
  import opened Wrappers
  import opened Cbor
  import opened Messages
  import opened Wire
  import opened RoundTrip
  import opened Streams
  import Tokens
  import Decoding

  // ---------- what a binding writes ----------

  ghost function WriteAs(b: Binding, k: Kind, v: Value): seq<byte>
    requires HasKind(k, v)
  {
    SeenHasKind(b, k, v);
    Write(k, Seen(b, v))
  }

  ghost function WriteEachAs(b: Binding, k: Kind, vs: seq<Value>): seq<byte>
    requires HasKinds(k, vs)
  {
    SeenHasKinds(b, k, vs);
    WriteEach(k, SeenAll(b, vs))
  }

  ghost function WriteMemberAs(b: Binding, m: Member, v: Value): seq<byte>
    requires HasMember(m, v)
  {
    SeenHasMember(b, m, v);
    WriteMember(m, Seen(b, v))
  }

  ghost function WriteMembersAs(b: Binding, ms: seq<Member>, vs: seq<Value>): seq<byte>
    requires HasMembers(ms, vs)
  {
    SeenHasMembers(b, ms, vs);
    WriteMembers(ms, SeenAll(b, vs))
  }

  lemma WriteEachAsStep(b: Binding, k: Kind, vs: seq<Value>)
    requires HasKinds(k, vs) && vs != []
    ensures WriteEachAs(b, k, vs) == WriteAs(b, k, vs[0]) + WriteEachAs(b, k, vs[1..])
  {
    assert SeenAll(b, vs)[1..] == SeenAll(b, vs[1..]);
  }

  lemma WriteMembersAsStep(b: Binding, ms: seq<Member>, vs: seq<Value>)
    requires HasMembers(ms, vs) && ms != []
    ensures WriteMembersAs(b, ms, vs) == WriteMemberAs(b, ms[0], vs[0]) + WriteMembersAs(b, ms[1..], vs[1..])
  {
    assert SeenAll(b, vs)[1..] == SeenAll(b, vs[1..]);
  }

  // ---------- TxStream operators ----------

  method PutNumber(ser: TxStream, n: Number, v: Value)
    requires ser.Valid() && HasNumber(n, v)
    modifies ser, ser.buffer
    ensures ser.Valid() && ser.buffer == old(ser.buffer)
    ensures Emits(old(ser.State()), ser.State(), WriteNumber(n, v))
  {
    match n
    case Boolean => ser.Put(EncodeBool(v.b), SIZEOF_BOOLEAN);
    case Float => ser.Put(EncodeFloat(v.bits), SIZEOF_FLOAT);
    case Double => ser.Put(EncodeDouble(v.bits), SIZEOF_DOUBLE);
    case Octet | Uint8 | Uint16 | Uint32 | Uint64 => ser.Put(Head(UINT, v.i), HeadSize(v.i));
    case _ => ser.Put(EncodeInt(v.i), SizeofInt(v.i));
  }

  /** `operator<<` for wide strings: an array head, then each unit. */
  method PutU16String(ser: TxStream, units: seq<nat>)
    requires ser.Valid() && |units| < TWO_64 && forall i :: 0 <= i < |units| ==> units[i] < TWO_16
    modifies ser, ser.buffer
    ensures ser.Valid() && ser.buffer == old(ser.buffer)
    ensures Emits(old(ser.State()), ser.State(), Head(ARRAY, |units|) + WriteUnits(units))
  {
    ghost var start, done := ser.State(), Head(ARRAY, |units|);
    ser.Put(Head(ARRAY, |units|), HeadSize(|units|));
    for i := 0 to |units|
      invariant ser.Valid() && ser.buffer == old(ser.buffer)
      invariant Emits(start, ser.State(), done)
      invariant done + WriteUnits(units[i..]) == Head(ARRAY, |units|) + WriteUnits(units)
    {
      ghost var before := ser.State();
      ser.Put(Head(UINT, units[i]), HeadSize(units[i]));
      EmitsBoth(start, before, ser.State(), done, EncodeInt(units[i]));
      assert units[i..][0] == units[i] && units[i..][1..] == units[i + 1..];
      Regroup(done, EncodeInt(units[i]), WriteUnits(units[i + 1..]));
      done := done + EncodeInt(units[i]);
    }
    assert done + [] == done;
  }

  /** One element that is not a message, already converted to a C++ value. */
  method PutPlain(ser: TxStream, k: Kind, v: Value)
    requires ser.Valid() && !k.Message? && HasKind(k, v)
    modifies ser, ser.buffer
    ensures ser.Valid() && ser.buffer == old(ser.buffer)
    ensures Emits(old(ser.State()), ser.State(), Write(k, v))
  {
    match k
    case Num(n) => PutNumber(ser, n, v);
    case String(_) => ser.PutString(TEXT, v.s);
    case WString(_) => PutU16String(ser, v.units);
  }

  /** `encodeSequence`, and the vector operators that call it. */
  method PutSequence(ser: TxStream, k: Kind, vs: seq<Value>)
    requires ser.Valid() && !k.Message? && HasKinds(k, vs) && |vs| < TWO_64
    modifies ser, ser.buffer
    ensures ser.Valid() && ser.buffer == old(ser.buffer)
    ensures Emits(old(ser.State()), ser.State(), WriteSequence(k, vs))
  {
    if IsByte(k) {
      ser.PutString(BYTES, AsBytes(k, vs));
      return;
    }
    hide Write, Emits, Head;
    ghost var start, done := ser.State(), Head(ARRAY, |vs|);
    ser.Put(Head(ARRAY, |vs|), HeadSize(|vs|));
    for i := 0 to |vs|
      invariant ser.Valid() && ser.buffer == old(ser.buffer)
      invariant HasKinds(k, vs[i..])
      invariant Emits(start, ser.State(), done)
      invariant done + WriteEach(k, vs[i..]) == Head(ARRAY, |vs|) + WriteEach(k, vs)
    {
      assert vs[i..][0] == vs[i] && vs[i..][1..] == vs[i + 1..];
      ghost var before := ser.State();
      PutPlain(ser, k, vs[i]);
      EmitsBoth(start, before, ser.State(), done, Write(k, vs[i]));
      Regroup(done, Write(k, vs[i]), WriteEach(k, vs[i + 1..]));
      done := done + Write(k, vs[i]);
    }
    assert done + [] == done;
  }

  // ---------- serialization ----------

  /** `std::string` and `std::u16string` made from a C string: everything before its first zero
      unit. */
  method UntilZero(units: seq<int>) returns (n: nat)
    ensures n <= |units| && 0 !in units[..n] && (n < |units| ==> units[n] == 0)
  {
    n := 0;
    while n < |units| && units[n] != 0
      invariant n <= |units| && 0 !in units[..n]
    {
      n := n + 1;
    }
  }

  /** What comes before the first zero unit has only one length. */
  lemma UntilZeroIsCLength(units: seq<int>, n: nat)
    requires n <= |units| && 0 !in units[..n] && (n < |units| ==> units[n] == 0)
    ensures n == CLength(units)
  {
    var c := CLength(units);
    assert forall i :: 0 <= i < c ==> units[i] in units[..c];
    assert forall i :: 0 <= i < n ==> units[i] in units[..n];
  }

  /** `convert_to_std_string` and `convert_to_std_u16string`: the C binding copies a string up to
      its first zero unit, the C++ one passes it on. */
  method Convert(b: Binding, k: Kind, v: Value) returns (r: Value)
    requires !k.Message? && HasKind(k, v)
    ensures r == Seen(b, v) && HasKind(k, r) && Write(k, r) == WriteAs(b, k, v)
    ensures b.Cpp? || k.Num? ==> r == v
    ensures b.C? && k.String? ==> r.s <= v.s && 0 !in r.s && (|r.s| < |v.s| ==> v.s[|r.s|] == 0)
    ensures b.C? && k.WString? ==>
              r.units <= v.units && 0 !in r.units && (|r.units| < |v.units| ==> v.units[|r.units|] == 0)
  {
    SeenHasKind(b, k, v);
    SeenIsSame(Cpp, v);
    r := v;
    if b.C? && k.String? {
      var n := UntilZero(v.s);
      UntilZeroIsCLength(v.s, n);
      r := StrV(v.s[..n]);
    } else if b.C? && k.WString? {
      var n := UntilZero(v.units);
      UntilZeroIsCLength(v.units, n);
      r := WStrV(v.units[..n]);
    }
  }

  /** An array of C strings is copied into a vector of converted strings first. */
  method ConvertAll(b: Binding, k: Kind, vs: seq<Value>) returns (r: seq<Value>)
    requires !k.Message? && HasKinds(k, vs)
    ensures r == SeenAll(b, vs)
  {
    hide Seen, Write, SeenAll;
    r := [];
    for i := 0 to |vs|
      invariant HasKinds(k, vs[i..])
      invariant r + SeenAll(b, vs[i..]) == SeenAll(b, vs)
    {
      assert vs[i..][0] == vs[i] && vs[i..][1..] == vs[i + 1..];
      var v := Convert(b, k, vs[i]);
      SeenAllStep(b, vs[i..], r);
      r := r + [v];
    }
    SeenAllEnd(b, r);
  }

  lemma SeenAllStep(b: Binding, vs: seq<Value>, done: seq<Value>)
    requires vs != []
    ensures done + [Seen(b, vs[0])] + SeenAll(b, vs[1..]) == done + SeenAll(b, vs)
  {
  }

  lemma SeenAllEnd(b: Binding, done: seq<Value>)
    ensures done + SeenAll(b, []) == done
  {
  }

  /** A scalar `serialize_field`, or a nested message. */
  method SerializeElement(b: Binding, ser: TxStream, k: Kind, v: Value) returns (ok: bool)
    requires ser.Valid() && HasKind(k, v)
    modifies ser, ser.buffer
    ensures ser.Valid() && ser.buffer == old(ser.buffer)
    ensures ok == Accepted(b, k, v)
    ensures ok ==> Emits(old(ser.State()), ser.State(), WriteAs(b, k, v))
    decreases k
  {
    if k.Message? {
      ok := SerializeRosMessage(b, ser, k.members, v.fields);
    } else {
      var str := Convert(b, k, v);
      if b.C? && k.String? && k.maxLen != 0 && |str.s| > k.maxLen + 1 {
        return false;
      }
      if b.C? && k.WString? && k.maxLen != 0 && |str.units| > k.maxLen + 1 {
        return false;
      }
      PutPlain(ser, k, str);
      ok := true;
    }
  }

  /** The elements of an array of messages, after its length if it is a sequence. */
  method SerializeSubmessages(b: Binding, ser: TxStream, m: Member, vs: seq<Value>) returns (ok: bool)
    requires ser.Valid() && m.isArray && m.kind.Message? && HasMember(m, ListV(vs))
    modifies ser, ser.buffer
    ensures ser.Valid() && ser.buffer == old(ser.buffer)
    ensures ok == AcceptedMember(b, m, ListV(vs))
    ensures ok ==> Emits(old(ser.State()), ser.State(), WriteMemberAs(b, m, ListV(vs)))
    decreases m, 0
  {
    hide Emits, Head, Write, WriteAs;
    ghost var start, done := ser.State(), [];
    EmitsNothing(start);
    if !m.IsFixed() {
      if m.isUpperBound && |vs| > m.arraySize {
        return false;
      }
      ser.Put(Head(UINT, |vs| % TWO_32), HeadSize(|vs| % TWO_32));
      done := Head(UINT, |vs| % TWO_32);
    }
    ghost var head := done;
    for i := 0 to |vs|
      invariant ser.Valid() && ser.buffer == old(ser.buffer)
      invariant HasKinds(m.kind, vs[i..])
      invariant AcceptedEach(b, m.kind, vs) == AcceptedEach(b, m.kind, vs[i..])
      invariant Emits(start, ser.State(), done)
      invariant done + WriteEachAs(b, m.kind, vs[i..]) == head + WriteEachAs(b, m.kind, vs)
    {
      assert vs[i..][0] == vs[i] && vs[i..][1..] == vs[i + 1..];
      ghost var before := ser.State();
      var good := SerializeElement(b, ser, m.kind, vs[i]);
      if !good {
        return false;
      }
      EmitsBoth(start, before, ser.State(), done, WriteAs(b, m.kind, vs[i]));
      WriteEachAsStep(b, m.kind, vs[i..]);
      Regroup(done, WriteAs(b, m.kind, vs[i]), WriteEachAs(b, m.kind, vs[i + 1..]));
      done := done + WriteAs(b, m.kind, vs[i]);
    }
    assert done + [] == done && [] + WriteEachAs(b, m.kind, vs) == WriteEachAs(b, m.kind, vs);
    return true;
  }

  /** One case of the switch. */
  method SerializeField(b: Binding, ser: TxStream, m: Member, v: Value) returns (ok: bool)
    requires ser.Valid() && HasMember(m, v)
    modifies ser, ser.buffer
    ensures ser.Valid() && ser.buffer == old(ser.buffer)
    ensures ok == AcceptedMember(b, m, v)
    ensures ok ==> Emits(old(ser.State()), ser.State(), WriteMemberAs(b, m, v))
    decreases m, 1
  {
    if !m.isArray {
      ok := SerializeElement(b, ser, m.kind, v);
    } else if m.kind.Message? {
      ok := SerializeSubmessages(b, ser, m, v.elems);
    } else {
      SeenHasKinds(b, m.kind, v.elems);
      var elems := ConvertAll(b, m.kind, v.elems);
      PutSequence(ser, m.kind, elems);
      ok := true;
    }
  }

  method SerializeRosMessage(b: Binding, ser: TxStream, members: seq<Member>, fields: seq<Value>) returns (ok: bool)
    requires ser.Valid() && |members| < TWO_32 && HasMembers(members, fields)
    modifies ser, ser.buffer
    ensures ser.Valid() && ser.buffer == old(ser.buffer)
    ensures ok == AcceptedMembers(b, members, fields)
    ensures ok ==> Emits(old(ser.State()), ser.State(), Head(ARRAY, |members|) + WriteMembersAs(b, members, fields))
    decreases members
  {
    ghost var start, done := ser.State(), Head(ARRAY, |members|);
    ser.Put(Head(ARRAY, |members|), HeadSize(|members|));
    for i := 0 to |members|
      invariant ser.Valid() && ser.buffer == old(ser.buffer)
      invariant HasMembers(members[i..], fields[i..])
      invariant AcceptedMembers(b, members, fields) == AcceptedMembers(b, members[i..], fields[i..])
      invariant Emits(start, ser.State(), done)
      invariant done + WriteMembersAs(b, members[i..], fields[i..])
             == Head(ARRAY, |members|) + WriteMembersAs(b, members, fields)
    {
      assert members[i..][0] == members[i] && members[i..][1..] == members[i + 1..];
      assert fields[i..][0] == fields[i] && fields[i..][1..] == fields[i + 1..];
      ghost var before := ser.State();
      var good := SerializeField(b, ser, members[i], fields[i]);
      if !good {
        return false;
      }
      EmitsBoth(start, before, ser.State(), done, WriteMemberAs(b, members[i], fields[i]));
      WriteMembersAsStep(b, members[i..], fields[i..]);
      Regroup(done, WriteMemberAs(b, members[i], fields[i]), WriteMembersAs(b, members[i + 1..], fields[i + 1..]));
      done := done + WriteMemberAs(b, members[i], fields[i]);
    }
    assert done + [] == done;
    return true;
  }

  /** One pass over the whole message. */
  method SerializeOnce(b: Binding, ser: TxStream, members: seq<Member>, v: Value) returns (ok: bool)
    requires ser.Valid() && HasKind(Message(members), v)
    modifies ser, ser.buffer
    ensures ser.Valid() && ser.buffer == old(ser.buffer)
    ensures ok == Accepted(b, Message(members), v)
    ensures ok ==> Emits(old(ser.State()), ser.State(), Encoding(b, members, v))
  {
    if members != [] {
      ok := SerializeRosMessage(b, ser, members, v.fields);
    } else {
      ser.Put(Head(UINT, 0), HeadSize(0));
      ok := true;
    }
  }

  /** Two-pass writing.  Whatever the capacity of the stream passed in, and wherever the first
      pass overflowed, the stream ends good, holding exactly the encoding, with `size_` its length.
      The capacity is the hint if the encoding fits in it, and else exactly the encoding's length. */
  method Serialize(b: Binding, ser: TxStream, members: seq<Member>, v: Value) returns (thrown: bool, ok: bool)
    requires ser.Valid() && HasKind(Message(members), v)
    requires ser.State() == TxState(OK, 0, ser.buffer.Length, [])
    modifies ser, ser.buffer
    ensures ser.Valid()
    ensures thrown == !Accepted(b, Message(members), v)
    ensures !thrown ==> ok
    ensures !thrown ==>
      var bytes := Encoding(b, members, v);
      && ser.State() == TxState(OK, |bytes|,
                                if |bytes| <= old(ser.buffer.Length) then old(ser.buffer.Length) else |bytes|, bytes)
      && HasKind(Message(members), Seen(b, v))
      && bytes == Tokens.Flatten(Tokens.TopTokens(members, Seen(b, v)))
  {
    Tokens.EncodingIsTokens(b, members, v);
    hide Tokens.Flatten, Tokens.TopTokens;
    ghost var bytes := Encoding(b, members, v);
    assert [] + bytes == bytes;
    var good := SerializeOnce(b, ser, members, v);
    if !good {
      return true, false;
    }
    if ser.status == OVERFLOW {
      var retry := new TxStream(ser.size);
      ser.MoveAssign(retry);
      good := SerializeOnce(b, ser, members, v);
    }
    return false, ser.status == OK;
  }

  // ---------- RxStream operators ----------

  method GetNumber(deser: RxStream, n: Number) returns (result: Option<Value>)
    requires deser.Valid()
    modifies deser`rxPos
    ensures deser.Valid() && Follows(ReadNumber(n, old(deser.Rest())), result, deser.Rest())
  {
    match n
    case Boolean =>
      var x := deser.GetBool();
      result := if x.Some? then Some(BoolV(x.value)) else None;
    case Float =>
      var x := deser.GetBits(26);
      result := if x.Some? then Some(BitsV(x.value)) else None;
    case Double =>
      var x := deser.GetBits(27);
      result := if x.Some? then Some(BitsV(x.value)) else None;
    case Octet | Uint8 | Uint16 | Uint32 | Uint64 =>
      var x := deser.GetUint(High(n));
      result := if x.Some? then Some(IntV(x.value)) else None;
    case _ =>
      var x := deser.GetInt(Low(n), High(n));
      result := if x.Some? then Some(IntV(x.value)) else None;
  }

  /** What is left to parse after a prefix `done` was read, prepended with that prefix. */
  ghost function After<T>(done: seq<T>, p: Parse<seq<T>>): Parse<seq<T>> {
    match p
    case Fail => Fail
    case Got(vs, r) => Got(done + vs, r)
  }

  lemma AfterStart<T>(p: Parse<seq<T>>)
    ensures After([], p) == p
  {
    if p.Got? {
      assert [] + p.value == p.value;
    }
  }

  lemma AfterStep<T>(done: seq<T>, v: T, p: Parse<seq<T>>)
    ensures After(done + [v], p) == After(done, After([v], p))
  {
    if p.Got? {
      assert done + [v] + p.value == done + ([v] + p.value);
    }
  }

  /** Reading one more element. */
  lemma EachStep(whole: Parse<seq<Value>>, done: seq<Value>, b: Binding, k: Kind, n: nat, bs: seq<byte>)
    requires n > 0 && whole == After(done, ReadEach(b, k, n, bs))
    ensures match Read(b, k, bs)
            case Fail => whole.Fail?
            case Got(v, r) => whole == After(done + [v], ReadEach(b, k, n - 1, r))
  {
    if Read(b, k, bs).Got? {
      AfterStep(done, Read(b, k, bs).value, ReadEach(b, k, n - 1, Read(b, k, bs).rest));
    }
  }

  lemma AfterEnd<T>(done: seq<T>, r: seq<byte>)
    ensures After(done, Got([], r)) == Got(done, r)
  {
    assert done + [] == done;
  }

  method GetUnits(deser: RxStream, n: nat) returns (result: Option<seq<nat>>)
    requires deser.Valid()
    modifies deser`rxPos
    ensures deser.Valid() && Follows(ReadUnits(n, old(deser.Rest())), result, deser.Rest())
  {
    var units := [];
    ghost var whole := ReadUnits(n, deser.Rest());
    AfterStart(whole);
    for i := 0 to n
      invariant deser.Valid()
      invariant whole == After(units, ReadUnits(n - i, deser.Rest()))
    {
      var u := deser.GetUint(TWO_16 - 1);
      if u.None? {
        return None;
      }
      AfterStep(units, u.value, ReadUnits(n - i - 1, deser.Rest()));
      units := units + [u.value];
    }
    AfterEnd(units, deser.Rest());
    return Some(units);
  }

  /** `operator>>` for wide strings: the string is resized, then filled. */
  method GetU16String(deser: RxStream) returns (result: Option<seq<nat>>)
    requires deser.Valid()
    modifies deser`rxPos
    ensures deser.Valid() && Follows(ReadU16String(old(deser.Rest())), result, deser.Rest())
  {
    var size := deser.GetArray();
    if size.None? {
      return None;
    }
    result := GetUnits(deser, size.value);
  }

  method GetPlain(deser: RxStream, k: Kind) returns (result: Option<Value>)
    requires deser.Valid() && !k.Message?
    modifies deser`rxPos
    ensures deser.Valid() && Follows(Read(Cpp, k, old(deser.Rest())), result, deser.Rest())
  {
    match k
    case Num(n) =>
      result := GetNumber(deser, n);
    case String(_) =>
      var s := deser.GetString(TEXT);
      result := if s.Some? then Some(StrV(s.value)) else None;
    case WString(_) =>
      var u := GetU16String(deser);
      result := if u.Some? then Some(WStrV(u.value)) else None;
  }

  /** `operator>>` for vectors. */
  method GetVector(deser: RxStream, k: Kind) returns (result: Option<seq<Value>>)
    requires deser.Valid() && !k.Message?
    modifies deser`rxPos
    ensures deser.Valid() && Follows(ReadVector(k, old(deser.Rest())), result, deser.Rest())
  {
    if IsByte(k) {
      var s := deser.GetString(BYTES);
      return if s.Some? then Some(FromBytes(s.value)) else None;
    }
    var size := deser.GetArray();
    if size.None? {
      return None;
    }
    var items := new Value[size.value](_ => BoolV(false));
    var ok := Fill(deser, k, items);
    return if ok then Some(items[..]) else None;
  }

  /** `operator>>` into one place of an array. */
  method GetInto(deser: RxStream, k: Kind, items: array<Value>, i: nat) returns (ok: bool)
    requires deser.Valid() && !k.Message? && i < items.Length
    modifies deser`rxPos, items
    ensures deser.Valid()
    ensures Follows(Read(Cpp, k, old(deser.Rest())), if ok then Some(items[i]) else None, deser.Rest())
    ensures items[..i] == old(items[..i]) && deser.base == old(deser.base)
  {
    var v := GetPlain(deser, k);
    if v.None? {
      return false;
    }
    items[i] := v.value;
    return true;
  }

  /** Reads one element after the other into place. */
  method Fill(deser: RxStream, k: Kind, items: array<Value>) returns (ok: bool)
    requires deser.Valid() && !k.Message?
    modifies deser`rxPos, items
    ensures deser.Valid()
    ensures ok ==> ReadEach(Cpp, k, items.Length, old(deser.Rest())) == Got(items[..], deser.Rest())
    ensures !ok ==> ReadEach(Cpp, k, items.Length, old(deser.Rest())).Fail?
  {
    hide Read;
    var n := items.Length;
    ghost var whole, done: seq<Value> := ReadEach(Cpp, k, n, deser.Rest()), [];
    AfterStart(whole);
    for i := 0 to n
      invariant deser.Valid()
      invariant items[..i] == done
      invariant whole == After(done, ReadEach(Cpp, k, n - i, deser.Rest()))
    {
      var good := GetInto(deser, k, items, i);
      if !good {
        return false;
      }
      ghost var left := ReadEach(Cpp, k, n - i - 1, deser.Rest());
      AfterStep(done, items[i], left);
      done := done + [items[i]];
    }
    AfterEnd(done, deser.Rest());
    assert items[..] == items[..n] == done;
    return true;
  }

  /** `decodeSequence`: fills an array whose length the head must match. */
  method DecodeSequence(deser: RxStream, k: Kind, items: array<Value>) returns (ok: bool)
    requires deser.Valid() && !k.Message?
    modifies deser`rxPos, items
    ensures deser.Valid()
    ensures Follows(ReadExactly(k, items.Length, old(deser.Rest())), if ok then Some(items[..]) else None, deser.Rest())
  {
    if IsByte(k) {
      var s := deser.GetString(BYTES);
      if s.None? || |s.value| != items.Length {
        return false;
      }
      var vs := FromBytes(s.value);
      forall i | 0 <= i < items.Length {
        items[i] := vs[i];
      }
      assert items[..] == vs;
      return true;
    }
    var size := deser.GetArray();
    if size.None? || size.value != items.Length {
      return false;
    }
    ok := Fill(deser, k, items);
  }

  // ---------- deserialization ----------

  lemma NumberHasNoString(k: Kind, bs: seq<byte>)
    requires k.Num? && Read(Cpp, k, bs).Got?
    ensures forall b :: Seen(b, Read(Cpp, k, bs).value) == Read(Cpp, k, bs).value
  {
  }

  /** A scalar `deserialize_field`, or a nested message. */
  method DeserializeElement(b: Binding, deser: RxStream, k: Kind) returns (result: Option<Value>)
    requires deser.Valid()
    modifies deser`rxPos
    ensures deser.Valid() && Follows(Read(b, k, old(deser.Rest())), result, deser.Rest())
    decreases k
  {
    hide ReadMembers, ReadHead, ReadNumber, ReadU16String;
    if k.Message? {
      var fields := DeserializeRosMessage(b, deser, k.members);
      result := if fields.Some? then Some(MsgV(fields.value)) else None;
    } else {
      result := GetPlain(deser, k);
      if result.Some? {
        if k.Num? {
          NumberHasNoString(k, old(deser.Rest()));
        }
        result := Some(Seen(b, result.value));
      }
    }
  }

  method DeserializeSubmessages(b: Binding, deser: RxStream, m: Member) returns (result: Option<seq<Value>>)
    requires deser.Valid() && m.isArray && m.kind.Message?
    modifies deser`rxPos
    ensures deser.Valid() && Follows(ReadArrayMember(b, m, old(deser.Rest())), result, deser.Rest())
    decreases m, 0
  {
    hide Read;
    var n := m.arraySize;
    if !m.IsFixed() {
      var size := deser.GetUint(TWO_32 - 1);
      if size.None? {
        return None;
      }
      n := size.value;
    }
    ghost var whole := ReadEach(b, m.kind, n, deser.Rest());
    var vs := [];
    AfterStart(whole);
    for i := 0 to n
      invariant deser.Valid()
      invariant whole == After(vs, ReadEach(b, m.kind, n - i, deser.Rest()))
    {
      EachStep(whole, vs, b, m.kind, n - i, deser.Rest());
      var v := DeserializeElement(b, deser, m.kind);
      if v.None? {
        return None;
      }
      vs := vs + [v.value];
    }
    AfterEnd(vs, deser.Rest());
    return Some(vs);
  }

  /** Arrays of numbers and strings, as each binding reads them. */
  method DeserializeArray(b: Binding, deser: RxStream, m: Member) returns (result: Option<seq<Value>>)
    requires deser.Valid() && m.isArray && !m.kind.Message?
    modifies deser`rxPos
    ensures deser.Valid() && Follows(ReadArrayMember(b, m, old(deser.Rest())), result, deser.Rest())
  {
    if b.C? && !m.kind.Num? {
      assert ReadArrayMember(b, m, deser.Rest()) == ReadCStrings(m, deser.Rest());
      var vs := GetVector(deser, m.kind);
      if vs.None? || (m.IsFixed() && |vs.value| < m.arraySize) {
        return None;
      }
      return Some(SeenAll(C, if m.IsFixed() then vs.value[..m.arraySize] else vs.value));
    } else if m.IsFixed() || b.C? {
      var n := m.arraySize;
      if !m.IsFixed() {
        var size := deser.Peek();
        if size.None? {
          return None;
        }
        n := size.value;
      }
      var items := new Value[n](_ => BoolV(false));
      var ok := DecodeSequence(deser, m.kind, items);
      return if ok then Some(items[..]) else None;
    } else {
      result := GetVector(deser, m.kind);
    }
  }

  method DeserializeField(b: Binding, deser: RxStream, m: Member) returns (result: Option<Value>)
    requires deser.Valid()
    modifies deser`rxPos
    ensures deser.Valid() && Follows(ReadMember(b, m, old(deser.Rest())), result, deser.Rest())
    decreases m, 1
  {
    if !m.isArray {
      result := DeserializeElement(b, deser, m.kind);
    } else {
      var vs: Option<seq<Value>>;
      if m.kind.Message? {
        vs := DeserializeSubmessages(b, deser, m);
      } else {
        vs := DeserializeArray(b, deser, m);
      }
      result := if vs.Some? then Some(ListV(vs.value)) else None;
    }
  }

  method DeserializeRosMessage(b: Binding, deser: RxStream, members: seq<Member>) returns (result: Option<seq<Value>>)
    requires deser.Valid()
    modifies deser`rxPos
    ensures deser.Valid()
    ensures Follows(ReadFields(b, members, old(deser.Rest())), result, deser.Rest())
    decreases members
  {
    var count := deser.GetArray();
    if count.None? || count.value != |members| {
      return None;
    }
    ghost var start := deser.Rest();
    var vs := [];
    AfterStart(ReadMembers(b, members, start));
    for i := 0 to |members|
      invariant deser.Valid()
      invariant ReadMembers(b, members, start) == After(vs, ReadMembers(b, members[i..], deser.Rest()))
    {
      assert members[i..][0] == members[i] && members[i..][1..] == members[i + 1..];
      var v := DeserializeField(b, deser, members[i]);
      if v.None? {
        return None;
      }
      AfterStep(vs, v.value, ReadMembers(b, members[i + 1..], deser.Rest()));
      vs := vs + [v.value];
    }
    AfterEnd(vs, deser.Rest());
    return Some(vs);
  }

  /** A nested message: its array head, then its members. */
  ghost function ReadFields(b: Binding, members: seq<Member>, bs: seq<byte>): Parse<seq<Value>> {
    match ReadArray(bs)
    case Fail => Fail
    case Got(n, r) => if n == |members| then ReadMembers(b, members, r) else Fail
  }

  method Deserialize(b: Binding, deser: RxStream, members: seq<Member>) returns (result: Option<Value>)
    requires deser.Valid()
    modifies deser`rxPos
    ensures deser.Valid() && Follows(ReadTop(b, members, old(deser.Rest())), result, deser.Rest())
    ensures b.Cpp? && members != [] && Decoding.Sized(Message(members)) && result.Some? ==>
      Decoding.SpellsValue(members, result.value, old(deser.Rest()), deser.Rest())
    ensures b.Cpp? && members != [] && Decoding.Sized(Message(members)) && result.None? ==>
      forall v, rest :: !Decoding.SpellsValue(members, v, old(deser.Rest()), rest)
  {
    if members != [] && Decoding.Sized(Message(members)) {
      Decoding.ReadsAllSpelled(members, deser.Rest());
    }
    hide ReadTop, Decoding.SpellsValue, Decoding.Sized;
    result := DeserializeTop(b, deser, members);
  }

  method DeserializeTop(b: Binding, deser: RxStream, members: seq<Member>) returns (result: Option<Value>)
    requires deser.Valid()
    modifies deser`rxPos
    ensures deser.Valid() && Follows(ReadTop(b, members, old(deser.Rest())), result, deser.Rest())
  {
    if members != [] {
      result := DeserializeElement(b, deser, Message(members));
    } else {
      var dump := deser.GetUint(0xFF);
      result := if dump.Some? then Some(MsgV([])) else None;
    }
  }

  /** End to end: what one side serializes, with any first buffer size, the other side's stream
      delivers as the message it sees. */
  method Exchange(writer: Binding, reader: Binding, members: seq<Member>, v: Value, hint: nat)
    returns (result: Option<Value>)
    requires HasKind(Message(members), v) && ShortKind(Message(members), v)
    ensures result == if Accepted(writer, Message(members), v) then Some(Seen(reader, Seen(writer, v))) else None
  {
    var ser := new TxStream(hint);
    var thrown, ok := Serialize(writer, ser, members, v);
    if thrown {
      return None;
    }
    var deser := new RxStream(ser.buffer[..ser.txPos]);
    BindingsAgree(writer, reader, members, v, []);
    assert Encoding(writer, members, v) + [] == deser.Rest();
    result := Deserialize(reader, deser, members);
  }
}
