/** What a generic, schema-free CBOR reader makes of an encoding (section 3 of RFC 8949, items of
    definite length).  The walker announces one element a member, but an array of messages adds
    its elements to the enclosing array unannounced. */
module WellFormed {
  import opened Cbor
  import opened Messages
  import opened Wire

  datatype Item = Item(children: seq<Item>)

  /** A head and, for strings, the content: how many items must follow to complete it. */
  function Token(bs: seq<byte>): (p: Parse<nat>)
    ensures p.Got? ==> |p.rest| < |bs|
  {
    var (h, r) :- ReadHead(bs);
    if h.major <= NEGATIVE then Got(0, r)
    else if h.major <= TEXT then if h.arg <= |r| then Got(0, r[h.arg..]) else Fail
    else if h.major == ARRAY then Got(h.arg, r)
    else if h.major == 5 then Got(2 * h.arg, r)
    else if h.major == 6 then Got(1, r)
    else if h.info == 24 && h.arg < 32 then Fail
    else Got(0, r)
  }

  function ReadItem(bs: seq<byte>): (p: Parse<Item>)
    ensures p.Got? ==> |p.rest| < |bs|
    decreases |bs|, 0
  {
    var (n, r) :- Token(bs);
    var (items, r') :- ReadItems(n, r);
    Got(Item(items), r')
  }

  function ReadItems(n: nat, bs: seq<byte>): (p: Parse<seq<Item>>)
    ensures p.Got? ==> |p.rest| <= |bs| && |p.value| == n
    decreases |bs|, 1
  {
    if n == 0 then Got([], bs) else
      var (item, r) :- ReadItem(bs);
      var (items, r') :- ReadItems(n - 1, r);
      Got([item] + items, r')
  }

  // ---------- unannounced items ----------

  function Extra(k: Kind, v: Value): nat
    requires HasKind(k, v)
    decreases k, 0
  {
    if k.Message? then ExtraMembers(k.members, v.fields) else 0
  }

  function ExtraEach(k: Kind, vs: seq<Value>): nat
    requires HasKinds(k, vs)
    decreases k, 1, |vs|
  {
    if vs == [] then 0 else Extra(k, vs[0]) + ExtraEach(k, vs[1..])
  }

  /** A fixed array of messages stands where one item is announced; a sequence of messages has
      its length there, and all its elements are beyond it. */
  function ExtraMember(m: Member, v: Value): nat
    requires HasMember(m, v)
    decreases m
  {
    if !m.isArray then Extra(m.kind, v)
    else if !m.kind.Message? then 0
    else if m.IsFixed() then |v.elems| - 1 + ExtraEach(m.kind, v.elems)
    else |v.elems| + ExtraEach(m.kind, v.elems)
  }

  function ExtraMembers(ms: seq<Member>, vs: seq<Value>): nat
    requires HasMembers(ms, vs)
    decreases ms
  {
    if ms == [] then 0 else ExtraMember(ms[0], vs[0]) + ExtraMembers(ms[1..], vs[1..])
  }

  // ---------- counting tokens ----------

  /** Items announced less items begun, over all tokens. */
  function Balance(bs: seq<byte>): int
    decreases |bs|
  {
    match Token(bs)
    case Fail => 0
    case Got(n, r) => n - 1 + Balance(r)
  }

  lemma {:induction false} ItemBalance(bs: seq<byte>)
    requires ReadItem(bs).Got?
    ensures Balance(bs) == Balance(ReadItem(bs).rest) - 1
    decreases |bs|, 0
  {
    var Got(n, r) := Token(bs);
    ItemsBalance(n, r);
  }

  lemma {:induction false} ItemsBalance(n: nat, bs: seq<byte>)
    requires ReadItems(n, bs).Got?
    ensures Balance(bs) == Balance(ReadItems(n, bs).rest) - n
    decreases |bs|, 1
  {
    if n > 0 {
      ItemBalance(bs);
      ItemsBalance(n - 1, ReadItem(bs).rest);
    }
  }

  // ---------- tokens of the encodings ----------

  lemma HeadToken(major: nat, n: nat, rest: seq<byte>)
    requires major in {UINT, NEGATIVE, ARRAY} && n < TWO_64
    ensures Token(Head(major, n) + rest) == Got(if major == ARRAY then n else 0, rest)
  {
    HeadRoundTrip(major, n, rest);
  }

  lemma IntToken(i: int, rest: seq<byte>)
    requires -TWO_64 <= i < TWO_64
    ensures Token(EncodeInt(i) + rest) == Got(0, rest)
  {
    if i >= 0 {
      HeadToken(UINT, i, rest);
    } else {
      HeadToken(NEGATIVE, -1 - i, rest);
    }
  }

  lemma StringToken(major: nat, s: seq<byte>, rest: seq<byte>)
    requires major in {BYTES, TEXT} && |s| < TWO_64
    ensures Token(EncodeString(major, s) + rest) == Got(0, rest)
  {
    StringRoundTrip(major, s, rest);
    Regroup(Head(major, |s|), s, rest);
    HeadRoundTrip(major, |s|, s + rest);
  }

  lemma NumberToken(n: Number, v: Value, rest: seq<byte>)
    requires HasNumber(n, v)
    ensures Token(WriteNumber(n, v) + rest) == Got(0, rest)
  {
    Pow256Values();
    match n
    case Boolean => HeadRoundTrip(SIMPLE, if v.b then 21 else 20, rest);
    case Float => HeadWithRoundTrip(SIMPLE, 26, v.bits, rest);
    case Double => HeadWithRoundTrip(SIMPLE, 27, v.bits, rest);
    case _ => IntToken(v.i, rest);
  }

  /** The units of a wide string are so many items. */
  lemma {:induction false} UnitsItems(units: seq<nat>, rest: seq<byte>)
    requires forall i :: 0 <= i < |units| ==> units[i] < TWO_16
    ensures Balance(WriteUnits(units) + rest) == Balance(rest) - |units|
    ensures ReadItems(|units|, WriteUnits(units) + rest).Got?
    ensures ReadItems(|units|, WriteUnits(units) + rest).rest == rest
  {
    if units == [] {
      assert WriteUnits(units) + rest == rest;
    } else {
      var tail := WriteUnits(units[1..]) + rest;
      Regroup(EncodeInt(units[0]), WriteUnits(units[1..]), rest);
      HeadToken(UINT, units[0], tail);
      UnitsItems(units[1..], rest);
      assert ReadItem(WriteUnits(units) + rest) == Got(Item([]), tail);
    }
  }

  /** How far an encoding is from completing `announced` items: it begins `Extra` more, and
      without them it is read as exactly those. */
  ghost predicate Completes(bs: seq<byte>, rest: seq<byte>, announced: nat, extra: nat) {
    && Balance(bs + rest) == Balance(rest) - announced - extra
    && (extra == 0 ==> ReadItems(announced, bs + rest).Got? && ReadItems(announced, bs + rest).rest == rest)
  }

  /** Items for the front part, then items for the back part. */
  lemma {:induction false} ItemsChain(n: nat, m: nat, bs: seq<byte>)
    requires ReadItems(n, bs).Got?
    requires ReadItems(m, ReadItems(n, bs).rest).Got?
    ensures ReadItems(n + m, bs).Got?
    ensures ReadItems(n + m, bs).rest == ReadItems(m, ReadItems(n, bs).rest).rest
    decreases n
  {
    hide ReadItem;
    if n > 0 {
      ItemsChain(n - 1, m, ReadItem(bs).rest);
    }
  }

  lemma CompletesBoth(a: seq<byte>, b: seq<byte>, rest: seq<byte>, n: nat, m: nat, x: nat, y: nat)
    requires Completes(a, b + rest, n, x) && Completes(b, rest, m, y)
    ensures Completes(a + b, rest, n + m, x + y)
  {
    Regroup(a, b, rest);
    if x + y == 0 {
      ItemsChain(n, m, a + (b + rest));
    }
  }

  /** An array head in front of its elements makes them one item. */
  lemma CompletesArray(n: nat, bs: seq<byte>, rest: seq<byte>, extra: nat)
    requires n < TWO_64 && Completes(bs, rest, n, extra)
    ensures Completes(Head(ARRAY, n) + bs, rest, 1, extra)
    ensures extra == 0 ==> ReadItem(Head(ARRAY, n) + bs + rest).Got?
    ensures extra == 0 ==> |ReadItem(Head(ARRAY, n) + bs + rest).value.children| == n
    ensures extra == 0 ==> ReadItem(Head(ARRAY, n) + bs + rest).rest == rest
  {
    Regroup(Head(ARRAY, n), bs, rest);
    HeadToken(ARRAY, n, bs + rest);
    var whole := Head(ARRAY, n) + bs + rest;
    if extra == 0 {
      assert ReadItem(whole).Got?;
      assert ReadItems(0, rest) == Got([], rest);
    }
  }

  lemma CompletesLeaf(bs: seq<byte>, rest: seq<byte>)
    requires Token(bs + rest) == Got(0, rest)
    ensures Completes(bs, rest, 1, 0)
  {
    assert ReadItem(bs + rest) == Got(Item([]), rest);
    assert ReadItems(0, rest) == Got([], rest);
  }

  lemma CompletesNothing(rest: seq<byte>)
    ensures Completes([], rest, 0, 0)
  {
    assert [] + rest == rest;
  }

  lemma {:induction false} KindCompletes(k: Kind, v: Value, rest: seq<byte>)
    requires HasKind(k, v)
    ensures Completes(Write(k, v), rest, 1, Extra(k, v))
    decreases k, 0
  {
    match k {
      case Num(n) =>
        NumberToken(n, v, rest);
        CompletesLeaf(Write(k, v), rest);
      case String(_) =>
        StringToken(TEXT, v.s, rest);
        CompletesLeaf(Write(k, v), rest);
      case WString(_) =>
        UnitsItems(v.units, rest);
        CompletesArray(|v.units|, WriteUnits(v.units), rest, 0);
      case Message(members) =>
        MembersComplete(members, v.fields, rest);
        CompletesArray(|members|, WriteMembers(members, v.fields), rest, Extra(k, v));
    }
  }

  lemma {:induction false} EachComplete(k: Kind, vs: seq<Value>, rest: seq<byte>)
    requires HasKinds(k, vs)
    ensures Completes(WriteEach(k, vs), rest, |vs|, ExtraEach(k, vs))
    decreases k, 1, |vs|
  {
    hide Completes, Write;
    if vs == [] {
      CompletesNothing(rest);
    } else {
      KindCompletes(k, vs[0], WriteEach(k, vs[1..]) + rest);
      EachComplete(k, vs[1..], rest);
      CompletesBoth(Write(k, vs[0]), WriteEach(k, vs[1..]), rest, 1, |vs| - 1,
                    Extra(k, vs[0]), ExtraEach(k, vs[1..]));
    }
  }

  lemma {:induction false} OnlyMessagesHaveExtra(k: Kind, vs: seq<Value>)
    requires HasKinds(k, vs) && !k.Message?
    ensures ExtraEach(k, vs) == 0
  {
    if vs != [] {
      OnlyMessagesHaveExtra(k, vs[1..]);
    }
  }

  /** Moving items from announced to extra. */
  lemma Reannounce(bs: seq<byte>, rest: seq<byte>, announced: nat, extra: nat, n: nat)
    requires Completes(bs, rest, announced, extra) && n <= announced
    ensures Completes(bs, rest, n, announced + extra - n)
  {
  }

  lemma {:induction false} MemberCompletes(m: Member, v: Value, rest: seq<byte>)
    requires HasMember(m, v)
    ensures Completes(WriteMember(m, v), rest, 1, ExtraMember(m, v))
    decreases m
  {
    hide Completes, Token, Head, EncodeString;
    if !m.isArray {
      KindCompletes(m.kind, v, rest);
    } else if IsByte(m.kind) {
      StringToken(BYTES, AsBytes(m.kind, v.elems), rest);
      assert WriteMember(m, v) == EncodeString(BYTES, AsBytes(m.kind, v.elems));
      CompletesLeaf(WriteMember(m, v), rest);
    } else {
      EachComplete(m.kind, v.elems, rest);
      var bs, n, x := WriteEach(m.kind, v.elems), |v.elems|, ExtraEach(m.kind, v.elems);
      if !m.kind.Message? {
        OnlyMessagesHaveExtra(m.kind, v.elems);
        CompletesArray(n, bs, rest, 0);
      } else if m.IsFixed() {
        Reannounce(bs, rest, n, x, 1);
      } else {
        HeadToken(UINT, n % TWO_32, bs + rest);
        CompletesLeaf(Head(UINT, n % TWO_32), bs + rest);
        CompletesBoth(Head(UINT, n % TWO_32), bs, rest, 1, n, 0, x);
        Reannounce(WriteMember(m, v), rest, 1 + n, x, 1);
      }
    }
  }

  lemma {:induction false} MembersComplete(ms: seq<Member>, vs: seq<Value>, rest: seq<byte>)
    requires HasMembers(ms, vs)
    ensures Completes(WriteMembers(ms, vs), rest, |ms|, ExtraMembers(ms, vs))
    decreases ms
  {
    hide Completes, WriteMember;
    if ms == [] {
      CompletesNothing(rest);
    } else {
      MemberCompletes(ms[0], vs[0], WriteMembers(ms[1..], vs[1..]) + rest);
      MembersComplete(ms[1..], vs[1..], rest);
      CompletesBoth(WriteMember(ms[0], vs[0]), WriteMembers(ms[1..], vs[1..]), rest, 1, |ms| - 1,
                    ExtraMember(ms[0], vs[0]), ExtraMembers(ms[1..], vs[1..]));
    }
  }

  // ---------- the main results ----------

  /** An encoding is exactly one well-formed CBOR item if and only if no array of messages at any
      depth adds an unannounced item; it is then an array of one item a member. */
  lemma OneItemExactlyWithoutExtra(members: seq<Member>, v: Value, rest: seq<byte>)
    requires HasKind(Message(members), v) && members != []
    ensures var p := ReadItem(WriteTop(members, v) + rest);
            && (p.Got? && p.rest == rest <==> Extra(Message(members), v) == 0)
            && (p.Got? && p.rest == rest ==> |p.value.children| == |members|)
  {
    var bytes := WriteTop(members, v);
    KindCompletes(Message(members), v, rest);
    MembersComplete(members, v.fields, rest);
    CompletesArray(|members|, WriteMembers(members, v.fields), rest, ExtraMembers(members, v.fields));
    if ReadItem(bytes + rest).Got? && ReadItem(bytes + rest).rest == rest {
      ItemBalance(bytes + rest);
    }
  }

  /** No member, at any depth, is an array of messages. */
  predicate IsPlain(k: Kind)
    decreases k
  {
    k.Message? ==> ArePlain(k.members)
  }

  predicate IsPlainMember(m: Member)
    decreases m
  {
    !(m.isArray && m.kind.Message?) && IsPlain(m.kind)
  }

  predicate ArePlain(ms: seq<Member>)
    decreases ms
  {
    ms == [] || (IsPlainMember(ms[0]) && ArePlain(ms[1..]))
  }

  lemma {:induction false} PlainHasNoExtra(k: Kind, v: Value)
    requires IsPlain(k) && HasKind(k, v)
    ensures Extra(k, v) == 0
    decreases k
  {
    if k.Message? {
      PlainMembersHaveNoExtra(k.members, v.fields);
    }
  }

  lemma {:induction false} PlainMemberHasNoExtra(m: Member, v: Value)
    requires IsPlainMember(m) && HasMember(m, v)
    ensures ExtraMember(m, v) == 0
    decreases m
  {
    if !m.isArray {
      PlainHasNoExtra(m.kind, v);
    }
  }

  lemma {:induction false} PlainMembersHaveNoExtra(ms: seq<Member>, vs: seq<Value>)
    requires ArePlain(ms) && HasMembers(ms, vs)
    ensures ExtraMembers(ms, vs) == 0
    decreases ms
  {
    if ms != [] {
      PlainMemberHasNoExtra(ms[0], vs[0]);
      PlainMembersHaveNoExtra(ms[1..], vs[1..]);
    }
  }

  /** For a schema without arrays of messages every encoding is one array of its members. */
  lemma PlainSchemasAreOneItem(members: seq<Member>, v: Value, rest: seq<byte>)
    requires HasKind(Message(members), v) && members != [] && IsPlain(Message(members))
    ensures var p := ReadItem(WriteTop(members, v) + rest);
            p.Got? && p.rest == rest && |p.value.children| == |members|
  {
    PlainHasNoExtra(Message(members), v);
    OneItemExactlyWithoutExtra(members, v, rest);
  }
}
