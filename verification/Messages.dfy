/** Message descriptions (`MembersType`) and the abstract values they describe. */
module Messages {
  import opened Cbor

  /** The numeric type ids that one switch of the walker dispatches on.  `char` is signed. */
  datatype Number = Boolean | Octet | Uint8 | Char | Int8 | Float | Double
                  | Int16 | Uint16 | Int32 | Uint32 | Int64 | Uint64

  /** What a member holds; `maxLen` is `string_upper_bound_`, zero when there is none. */
  datatype Kind = Num(number: Number)
                | String(maxLen: nat)
                | WString(maxLen: nat)
                | Message(members: seq<Member>)

  datatype Member = Member(kind: Kind, isArray: bool, arraySize: nat, isUpperBound: bool) {
    /** The test `array_size_ && !is_upper_bound_` under `is_array_`. */
    predicate IsFixed() {
      isArray && arraySize != 0 && !isUpperBound
    }
  }

  datatype Value = BoolV(b: bool)
                 | IntV(i: int)
                 | BitsV(bits: nat)
                 | StrV(s: seq<byte>)
                 | WStrV(units: seq<nat>)
                 | MsgV(fields: seq<Value>)
                 | ListV(elems: seq<Value>)

  function Low(n: Number): int {
    match n
    case Char | Int8 => -0x80
    case Int16 => -0x8000
    case Int32 => -0x8000_0000
    case Int64 => -0x8000_0000_0000_0000
    case _ => 0
  }

  function High(n: Number): int {
    match n
    case Octet | Uint8 => 0xFF
    case Char | Int8 => 0x7F
    case Int16 => 0x7FFF
    case Uint16 => 0xFFFF
    case Int32 => 0x7FFF_FFFF
    case Uint32 | Float => 0xFFFF_FFFF
    case Int64 => 0x7FFF_FFFF_FFFF_FFFF
    case Uint64 | Double => 0xFFFF_FFFF_FFFF_FFFF
    case Boolean => 1
  }

  /** `v` can be stored in a variable of the C type of `n`. */
  predicate HasNumber(n: Number, v: Value) {
    match n
    case Boolean => v.BoolV?
    case Float | Double => v.BitsV? && v.bits <= High(n)
    case _ => v.IntV? && Low(n) <= v.i <= High(n)
  }

  /** `v` is a value of one element of kind `k`. */
  predicate HasKind(k: Kind, v: Value)
    decreases k, 0
  {
    match k
    case Num(n) => HasNumber(n, v)
    case String(_) => v.StrV? && |v.s| < TWO_64
    case WString(_) => v.WStrV? && |v.units| < TWO_64 && forall i :: 0 <= i < |v.units| ==> v.units[i] < TWO_16
    case Message(members) => v.MsgV? && |members| < TWO_32 && HasMembers(members, v.fields)
  }

  predicate HasKinds(k: Kind, vs: seq<Value>)
    decreases k, 1, |vs|
  {
    vs == [] || (HasKind(k, vs[0]) && HasKinds(k, vs[1..]))
  }

  predicate HasMember(m: Member, v: Value)
    decreases m
  {
    if m.isArray then
      v.ListV? && |v.elems| < TWO_64 && (m.IsFixed() ==> |v.elems| == m.arraySize) && HasKinds(m.kind, v.elems)
    else
      HasKind(m.kind, v)
  }

  predicate HasMembers(ms: seq<Member>, vs: seq<Value>)
    decreases ms
  {
    |ms| == |vs| && (ms == [] || (HasMember(ms[0], vs[0]) && HasMembers(ms[1..], vs[1..])))
  }

  /** Every sequence of messages in the value, at any depth, is shorter than 2^32: its length
      is written through a cast to `uint32_t`. */
  predicate ShortKind(k: Kind, v: Value)
    requires HasKind(k, v)
    decreases k, 0
  {
    k.Message? ==> ShortMembers(k.members, v.fields)
  }

  predicate ShortKinds(k: Kind, vs: seq<Value>)
    requires HasKinds(k, vs)
    decreases k, 1, |vs|
  {
    vs == [] || (ShortKind(k, vs[0]) && ShortKinds(k, vs[1..]))
  }

  predicate ShortMember(m: Member, v: Value)
    requires HasMember(m, v)
    decreases m
  {
    if m.isArray then
      (m.kind.Message? && !m.IsFixed() ==> |v.elems| < TWO_32) && ShortKinds(m.kind, v.elems)
    else
      ShortKind(m.kind, v)
  }

  predicate ShortMembers(ms: seq<Member>, vs: seq<Value>)
    requires HasMembers(ms, vs)
    decreases ms
  {
    ms == [] || (ShortMember(ms[0], vs[0]) && ShortMembers(ms[1..], vs[1..]))
  }

  // ---------- the two bindings ----------

  /** The walker is a template over the introspection type: C or C++ messages. */
  datatype Binding = C | Cpp

  /** `strlen`: how many units come before the first zero. */
  function CLength(s: seq<int>): (n: nat)
    ensures n <= |s|
    ensures 0 !in s[..n]
    ensures n < |s| ==> s[n] == 0
  {
    if s == [] || s[0] == 0 then 0 else 1 + CLength(s[1..])
  }

  /** The value the binding sees in a message: C strings end at their first zero unit. */
  function Seen(b: Binding, v: Value): (r: Value)
    decreases v
  {
    match v
    case StrV(s) => if b.C? then StrV(s[..CLength(s)]) else v
    case WStrV(u) => if b.C? then WStrV(u[..CLength(u)]) else v
    case MsgV(fields) => MsgV(SeenAll(b, fields))
    case ListV(elems) => ListV(SeenAll(b, elems))
    case _ => v
  }

  function SeenAll(b: Binding, vs: seq<Value>): (r: seq<Value>)
    ensures |r| == |vs|
    decreases vs
  {
    if vs == [] then [] else [Seen(b, vs[0])] + SeenAll(b, vs[1..])
  }

  /** No string in the value, at any depth, holds a zero unit. */
  predicate ZeroFree(v: Value)
    decreases v
  {
    match v
    case StrV(s) => 0 !in s
    case WStrV(u) => 0 !in u
    case MsgV(fields) => ZeroFreeAll(fields)
    case ListV(elems) => ZeroFreeAll(elems)
    case _ => true
  }

  predicate ZeroFreeAll(vs: seq<Value>)
    decreases vs
  {
    vs == [] || (ZeroFree(vs[0]) && ZeroFreeAll(vs[1..]))
  }

  /** The serializer does not throw: bounded sequences of messages are within their bound, and
      the C binding's scalar strings are at most one unit longer than theirs. */
  predicate Accepted(b: Binding, k: Kind, v: Value)
    requires HasKind(k, v)
    decreases k, 0
  {
    match k
    case Num(_) => true
    case String(maxLen) => b.C? && maxLen != 0 ==> CLength(v.s) <= maxLen + 1
    case WString(maxLen) => b.C? && maxLen != 0 ==> CLength(v.units) <= maxLen + 1
    case Message(members) => AcceptedMembers(b, members, v.fields)
  }

  predicate AcceptedEach(b: Binding, k: Kind, vs: seq<Value>)
    requires HasKinds(k, vs)
    decreases k, 1, |vs|
  {
    vs == [] || (Accepted(b, k, vs[0]) && AcceptedEach(b, k, vs[1..]))
  }

  predicate AcceptedMember(b: Binding, m: Member, v: Value)
    requires HasMember(m, v)
    decreases m
  {
    if !m.isArray then Accepted(b, m.kind, v)
    else m.kind.Message? ==>
      (m.isUpperBound ==> |v.elems| <= m.arraySize) && AcceptedEach(b, m.kind, v.elems)
  }

  predicate AcceptedMembers(b: Binding, ms: seq<Member>, vs: seq<Value>)
    requires HasMembers(ms, vs)
    decreases ms
  {
    ms == [] || (AcceptedMember(b, ms[0], vs[0]) && AcceptedMembers(b, ms[1..], vs[1..]))
  }

  // ---------- facts about what a binding sees ----------

  /** A binding sees a value unchanged exactly when it is the C++ one or no string holds a zero. */
  lemma {:induction false} SeenIsSame(b: Binding, v: Value)
    ensures Seen(b, v) == v <==> b.Cpp? || ZeroFree(v)
    decreases v
  {
    match v {
      case StrV(s) => SameUpToZero(s);
      case WStrV(u) => SameUpToZero(u);
      case MsgV(fields) => SeenAllIsSame(b, fields);
      case ListV(elems) => SeenAllIsSame(b, elems);
      case _ =>
    }
  }

  lemma {:induction false} SeenAllIsSame(b: Binding, vs: seq<Value>)
    ensures SeenAll(b, vs) == vs <==> b.Cpp? || ZeroFreeAll(vs)
    decreases vs
  {
    if vs != [] {
      SeenIsSame(b, vs[0]);
      SeenAllIsSame(b, vs[1..]);
      assert vs == [vs[0]] + vs[1..];
      var r := SeenAll(b, vs);
      assert r[0] == Seen(b, vs[0]) && r[1..] == SeenAll(b, vs[1..]);
    }
  }

  lemma SameUpToZero(s: seq<int>)
    ensures s[..CLength(s)] == s <==> 0 !in s
  {
    assert s[..|s|] == s;
  }

  lemma {:induction false} SeenHasKind(b: Binding, k: Kind, v: Value)
    requires HasKind(k, v)
    ensures HasKind(k, Seen(b, v))
    ensures ShortKind(k, Seen(b, v)) <==> ShortKind(k, v)
    decreases k, 0
  {
    if k.Message? {
      SeenHasMembers(b, k.members, v.fields);
    }
  }

  lemma {:induction false} SeenHasKinds(b: Binding, k: Kind, vs: seq<Value>)
    requires HasKinds(k, vs)
    ensures HasKinds(k, SeenAll(b, vs))
    ensures ShortKinds(k, SeenAll(b, vs)) <==> ShortKinds(k, vs)
    decreases k, 1, |vs|
  {
    if vs != [] {
      SeenHasKind(b, k, vs[0]);
      SeenHasKinds(b, k, vs[1..]);
      assert SeenAll(b, vs)[1..] == SeenAll(b, vs[1..]);
    }
  }

  lemma {:induction false} SeenHasMember(b: Binding, m: Member, v: Value)
    requires HasMember(m, v)
    ensures HasMember(m, Seen(b, v))
    ensures ShortMember(m, Seen(b, v)) <==> ShortMember(m, v)
    decreases m
  {
    if m.isArray {
      SeenHasKinds(b, m.kind, v.elems);
    } else {
      SeenHasKind(b, m.kind, v);
    }
  }

  lemma {:induction false} SeenHasMembers(b: Binding, ms: seq<Member>, vs: seq<Value>)
    requires HasMembers(ms, vs)
    ensures HasMembers(ms, SeenAll(b, vs))
    ensures ShortMembers(ms, SeenAll(b, vs)) <==> ShortMembers(ms, vs)
    decreases ms
  {
    if ms != [] {
      SeenHasMember(b, ms[0], vs[0]);
      SeenHasMembers(b, ms[1..], vs[1..]);
      assert SeenAll(b, vs)[1..] == SeenAll(b, vs[1..]);
    }
  }
}
