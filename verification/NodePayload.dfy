/** A node's announcement over its whole life: the vector of strings it keeps, the bytes it
    publishes on each change, and what a peer that receives the last of them holds. */
module NodePayload {
  import opened Wrappers
  import opened Cbor
  import opened Messages
  import opened Wire
  import opened RoundTrip
  import opened Streams
  import opened TypeSupport
  import opened Strings
  import opened Discovery
  import opened Tokens
  import opened Decoding

  // ---------- payloads as bytes ----------

  /** `std::string` holds bytes. */
  predicate IsText(s: string) {
    |s| < TWO_64 && forall i :: 0 <= i < |s| ==> s[i] as int < 0x100
  }

  function ToBytes(s: string): (bs: seq<byte>)
    requires IsText(s)
    ensures |bs| == |s|
  {
    seq(|s|, i requires 0 <= i < |s| => s[i] as int)
  }

  function ToText(bs: seq<byte>): string {
    seq(|bs|, i requires 0 <= i < |bs| => bs[i] as char)
  }

  predicate IsPayload(payload: seq<string>) {
    |payload| < TWO_64 && forall i :: 0 <= i < |payload| ==> IsText(payload[i])
  }

  const STRINGS := String(0)

  function AsValues(payload: seq<string>): (vs: seq<Value>)
    requires forall i :: 0 <= i < |payload| ==> IsText(payload[i])
    ensures |vs| == |payload| && HasKinds(STRINGS, vs) && ShortKinds(STRINGS, vs)
  {
    if payload == [] then [] else [StrV(ToBytes(payload[0]))] + AsValues(payload[1..])
  }

  function FromValues(vs: seq<Value>): seq<string> {
    if vs == [] then [] else [if vs[0].StrV? then ToText(vs[0].s) else ""] + FromValues(vs[1..])
  }

  function PayloadBytes(payload: seq<string>): seq<byte>
    requires IsPayload(payload)
  {
    WriteSequence(STRINGS, AsValues(payload))
  }

  /** What `onDiscovery` makes of the bytes of an announcement. */
  function Receive(bytes: seq<byte>): Option<NodeView> {
    match ReadVector(STRINGS, bytes)
    case Fail => None
    case Got(vs, _) => Some(ParsePayload(EMPTY_NODE, FromValues(vs)))
  }

  lemma {:induction false} ValuesRoundTrip(payload: seq<string>)
    requires forall i :: 0 <= i < |payload| ==> IsText(payload[i])
    ensures FromValues(AsValues(payload)) == payload
  {
    if payload != [] {
      ValuesRoundTrip(payload[1..]);
      assert ToText(ToBytes(payload[0])) == payload[0];
      assert AsValues(payload)[1..] == AsValues(payload[1..]);
    }
  }

  /** The bytes of a payload bring a peer exactly its strings. */
  lemma ReceivesPayload(payload: seq<string>)
    requires IsPayload(payload)
    ensures Receive(PayloadBytes(payload)) == Some(ParsePayload(EMPTY_NODE, payload))
  {
    SequenceRoundTrip(STRINGS, AsValues(payload), []);
    assert PayloadBytes(payload) + [] == PayloadBytes(payload);
    ValuesRoundTrip(payload);
  }

  function TextTokens(payload: seq<string>): seq<Token>
    requires forall i :: 0 <= i < |payload| ==> IsText(payload[i])
  {
    if payload == [] then [] else [TextString(ToBytes(payload[0]))] + TextTokens(payload[1..])
  }

  lemma {:induction false} ValuesAreTexts(payload: seq<string>)
    requires forall i :: 0 <= i < |payload| ==> IsText(payload[i])
    ensures EachTokens(STRINGS, AsValues(payload)) == TextTokens(payload)
  {
    if payload != [] {
      ValuesAreTexts(payload[1..]);
      assert AsValues(payload)[1..] == AsValues(payload[1..]);
    }
  }

  /** A payload is an array of so many text strings. */
  lemma PayloadIsTexts(payload: seq<string>)
    requires IsPayload(payload)
    ensures PayloadBytes(payload) == Flatten([ArrayOf(|payload|)] + TextTokens(payload))
  {
    hide Head, FirstBytes, Flatten, WriteEach, EachTokens, TextTokens, AsValues, IsText;
    ValuesAreTexts(payload);
    EachWritten(STRINGS, AsValues(payload));
    HeadBytes(4, |payload|);
    FlattenFirst(ArrayOf(|payload|), TextTokens(payload));
  }

  lemma {:induction false} TextsFromValues(vs: seq<Value>)
    requires HasKinds(STRINGS, vs)
    ensures |FromValues(vs)| == |vs|
    ensures forall i :: 0 <= i < |vs| ==> IsText(FromValues(vs)[i])
    ensures AsValues(FromValues(vs)) == vs && ShortKinds(STRINGS, vs)
    decreases |vs|
  {
    if vs != [] {
      TextsFromValues(vs[1..]);
      var payload := FromValues(vs);
      assert HasKind(STRINGS, vs[0]) && IsText(payload[0]) && ToBytes(payload[0]) == vs[0].s;
      assert payload[1..] == FromValues(vs[1..]) && vs == [vs[0]] + vs[1..];
    }
  }

  /** The bytes are those of a payload, in heads of any width, and perhaps more. */
  ghost predicate SpellsPayload(bytes: seq<byte>, payload: seq<string>, rest: seq<byte>) {
    IsPayload(payload) && Spells(bytes, [ArrayOf(|payload|)] + TextTokens(payload), rest)
  }

  /** Whatever spells a payload is received as its strings. */
  lemma SpelledIsReceived(bytes: seq<byte>, payload: seq<string>, rest: seq<byte>)
    requires SpellsPayload(bytes, payload, rest)
    ensures Receive(bytes) == Some(ParsePayload(EMPTY_NODE, payload))
  {
    hide IsText, Spells;
    ValuesAreTexts(payload);
    ValuesRoundTrip(payload);
    FirstArray(|payload|, TextTokens(payload), bytes, rest);
    EachRead(STRINGS, AsValues(payload), ReadArray(bytes).rest, rest);
  }

  /** And nothing else is: where no payload is spelled, decoding throws. */
  lemma ReceivedIsSpelled(bytes: seq<byte>) returns (payload: seq<string>, rest: seq<byte>)
    requires Receive(bytes).Some?
    ensures SpellsPayload(bytes, payload, rest) && Receive(bytes) == Some(ParsePayload(EMPTY_NODE, payload))
  {
    hide IsText, Spells;
    var Got(vs, r) := ReadVector(STRINGS, bytes);
    var Got(n, tail) := ReadArray(bytes);
    HeadBound(bytes);
    EachReadFit(STRINGS, n, tail);
    TextsFromValues(vs);
    payload, rest := FromValues(vs), r;
    ValuesAreTexts(payload);
    EachRead(STRINGS, vs, tail, r);
    FirstArray(n, TextTokens(payload), bytes, r);
  }

  /** `_publish_discovery_payload`: encodes the payload, again into a large enough stream if the
      first overflows, and returns what is handed to the network. */
  method PublishDiscoveryPayload(payload: seq<string>) returns (bytes: seq<byte>)
    requires IsPayload(payload)
    ensures bytes == PayloadBytes(payload) == Flatten([ArrayOf(|payload|)] + TextTokens(payload))
  {
    PayloadIsTexts(payload);
    hide Flatten, TextTokens;
    var vs := AsValues(payload);
    var ser := new TxStream(1024);
    PutSequence(ser, STRINGS, vs);
    if ser.status == OVERFLOW {
      var retry := new TxStream(ser.size);
      ser.MoveAssign(retry);
      PutSequence(ser, STRINGS, vs);
    }
    bytes := ser.buffer[..ser.txPos];
  }

  /** The decoding half of `onDiscovery`. */
  method ReceiveDiscoveryPayload(bytes: seq<byte>) returns (result: Option<NodeView>)
    ensures result == Receive(bytes)
  {
    var deser := new RxStream(bytes);
    var vs := GetVector(deser, STRINGS);
    if vs.None? {
      return None;
    }
    var node := ReadPayload(FromValues(vs.value));
    return Some(node);
  }

  // ---------- the node's vector of strings ----------

  function RemoveFirst<T(==)>(s: seq<T>, x: T): (r: seq<T>)
    ensures |r| <= |s|
  {
    if s == [] then []
    else if s[0] == x then s[1..]
    else [s[0]] + RemoveFirst(s[1..], x)
  }

  lemma {:induction false} RemoveFirstRemovesOne<T>(s: seq<T>, x: T)
    ensures multiset(RemoveFirst(s, x)) == multiset(s) - multiset{x}
  {
    if s != [] {
      assert s == [s[0]] + s[1..];
      RemoveFirstRemovesOne(s[1..], x);
    }
  }

  function Header(namespace_: string, name: string): seq<string> {
    [NAMESPACE_PREFIX + namespace_, NAME_PREFIX + name]
  }

  class LocalNode {
    var discoveryPayload: seq<string>
    /** What was last handed to the discovery service. */
    var published: seq<byte>

    ghost predicate Valid()
      reads this
    {
      IsPayload(discoveryPayload) && published == PayloadBytes(discoveryPayload)
    }

    constructor (namespace_: string, name: string)
      requires IsPayload(Header(namespace_, name))
      ensures Valid() && discoveryPayload == Header(namespace_, name)
      ensures discoveryPayload == ["namespace=" + namespace_, "name=" + name]
    {
      discoveryPayload := Header(namespace_, name);
      new;
      published := PublishDiscoveryPayload(discoveryPayload);
    }

    /** `_add_discovery_topic` when its publish succeeds. */
    method AddDiscoveryTopic(topic: string)
      requires Valid() && IsPayload(discoveryPayload + [topic])
      modifies this
      ensures Valid() && discoveryPayload == old(discoveryPayload) + [topic]
    {
      discoveryPayload := discoveryPayload + [topic];
      published := PublishDiscoveryPayload(discoveryPayload);
    }

    /** The `find_if` of `_remove_discovery_topic`. */
    method FindTopic(topic: string) returns (it: nat)
      ensures it <= |discoveryPayload| && topic !in discoveryPayload[..it]
      ensures it < |discoveryPayload| ==> discoveryPayload[it] == topic
    {
      it := 0;
      while it < |discoveryPayload| && discoveryPayload[it] != topic
        invariant it <= |discoveryPayload| && topic !in discoveryPayload[..it]
      {
        it := it + 1;
      }
    }

    /** `_remove_discovery_topic`: erases the first equal string and publishes, or does nothing. */
    method RemoveDiscoveryTopic(topic: string)
      requires Valid()
      modifies this
      ensures Valid() && discoveryPayload == RemoveFirst(old(discoveryPayload), topic)
    {
      var it := FindTopic(topic);
      RemoveFirstAt(discoveryPayload, topic, it);
      if it < |discoveryPayload| {
        discoveryPayload := discoveryPayload[..it] + discoveryPayload[it + 1..];
        published := PublishDiscoveryPayload(discoveryPayload);
      }
    }
  }

  lemma {:induction false} RemoveFirstAt<T>(s: seq<T>, x: T, it: nat)
    requires it <= |s| && x !in s[..it] && (it < |s| ==> s[it] == x)
    ensures RemoveFirst(s, x) == s[..it] + if it < |s| then s[it + 1..] else []
  {
    if it > 0 {
      var tail := s[1..];
      assert s[0] == s[..it][0];
      assert tail[..it - 1] == s[..it][1..];
      RemoveFirstAt(tail, x, it - 1);
      assert s[..it] == [s[0]] + tail[..it - 1];
      assert it < |s| ==> tail[it..] == s[it + 1..];
    }
  }

  // ---------- whole runs ----------

  /** A publisher, subscription, service or client is created or destroyed. */
  datatype Op = Create(e: Endpoint) | Destroy(e: Endpoint)

  function Live(ops: seq<Op>): multiset<Endpoint> {
    if ops == [] then multiset{} else
      var last := ops[|ops| - 1];
      var before := Live(ops[..|ops| - 1]);
      if last.Create? then before + multiset{last.e} else before - multiset{last.e}
  }

  /** Endpoints can be printed, and only live ones are destroyed. */
  predicate IsRun(ops: seq<Op>) {
    ops == [] ||
      (var last := ops[|ops| - 1];
       && IsRun(ops[..|ops| - 1])
       && IsPrintable(last.e) && IsText(Print(last.e))
       && (last.Destroy? ==> last.e in Live(ops[..|ops| - 1])))
  }

  /** `discovery_payload_` after the operations: `LocalNode` starts with the header, adds on a
      creation and removes on a destruction. */
  function PayloadAfter(header: seq<string>, ops: seq<Op>): seq<string>
    requires IsRun(ops)
  {
    if ops == [] then header else
      var last := ops[|ops| - 1];
      var before := PayloadAfter(header, ops[..|ops| - 1]);
      if last.Create? then before + [Print(last.e)] else RemoveFirst(before, Print(last.e))
  }

  predicate AllPrintable(es: seq<Endpoint>) {
    es == [] || (IsPrintable(es[0]) && IsText(Print(es[0])) && AllPrintable(es[1..]))
  }

  function PrintAll(es: seq<Endpoint>): (r: seq<string>)
    requires AllPrintable(es)
    ensures |r| == |es| && forall i :: 0 <= i < |r| ==> IsText(r[i])
  {
    if es == [] then [] else [Print(es[0])] + PrintAll(es[1..])
  }

  lemma {:induction false} PrintAllAdds(es: seq<Endpoint>, e: Endpoint)
    requires AllPrintable(es) && IsPrintable(e) && IsText(Print(e))
    ensures AllPrintable(es + [e]) && PrintAll(es + [e]) == PrintAll(es) + [Print(e)]
  {
    hide Print, IsText;
    if es == [] {
      assert es + [e] == [e];
    } else {
      PrintAllAdds(es[1..], e);
      assert (es + [e])[1..] == es[1..] + [e];
    }
  }

  /** Printing is injective, because parsing undoes it. */
  lemma PrintIsInjective(d: Endpoint, e: Endpoint)
    requires IsPrintable(d) && IsPrintable(e) && Print(d) == Print(e)
    ensures d == e
  {
    hide ParseEntry;
    ParseUndoesPrint(EMPTY_NODE, d);
    ParseUndoesPrint(EMPTY_NODE, e);
    assert EMPTY_NODE.Topics(d.kind) == EMPTY_NODE.Topics(e.kind) == [];
    assert [] + [d.topic] == [d.topic] && [] + [e.topic] == [e.topic];
    var view := EMPTY_NODE.With(e.kind, [e.topic]);
    assert view == EMPTY_NODE.With(d.kind, [d.topic]);
    assert view.Topics(d.kind) == [d.topic];
    assert view.Topics(d.kind) == if d.kind == e.kind then [e.topic] else [];
  }

  lemma PrintedIsNoHeader(e: Endpoint, namespace_: string, name: string)
    requires IsPrintable(e)
    ensures Print(e) !in Header(namespace_, name)
  {
    assert Print(e)[0] == Prefix(e.kind)[0];
  }

  lemma {:induction false} RemoveFirstAfter<T>(front: seq<T>, s: seq<T>, x: T)
    requires x !in front
    ensures RemoveFirst(front + s, x) == front + RemoveFirst(s, x)
  {
    if front == [] {
      assert front + s == s;
    } else {
      assert (front + s)[1..] == front[1..] + s;
      RemoveFirstAfter(front[1..], s, x);
    }
  }

  lemma {:induction false} RemoveFirstPrinted(es: seq<Endpoint>, e: Endpoint)
    requires AllPrintable(es) && IsPrintable(e)
    ensures AllPrintable(RemoveFirst(es, e))
    ensures RemoveFirst(PrintAll(es), Print(e)) == PrintAll(RemoveFirst(es, e))
    decreases |es|
  {
    hide Print, IsText;
    if es != [] {
      var tail := PrintAll(es[1..]);
      assert PrintAll(es)[0] == Print(es[0]) && PrintAll(es)[1..] == tail;
      if es[0] != e {
        PrintedDiffer(es[0], e);
        RemoveFirstPrinted(es[1..], e);
        var r := RemoveFirst(es, e);
        assert r[0] == es[0] && r[1..] == RemoveFirst(es[1..], e);
      }
    }
  }

  lemma PrintedDiffer(d: Endpoint, e: Endpoint)
    requires IsPrintable(d) && IsPrintable(e) && d != e
    ensures Print(d) != Print(e)
  {
    if Print(d) == Print(e) {
      PrintIsInjective(d, e);
    }
  }

  /** At every point of a run the payload is the header and the printed live endpoints. */
  lemma {:induction false} PayloadIsHeaderAndLive(namespace_: string, name: string, ops: seq<Op>)
    returns (es: seq<Endpoint>)
    requires IsRun(ops)
    ensures AllPrintable(es) && multiset(es) == Live(ops) && |es| <= |ops|
    ensures PayloadAfter(Header(namespace_, name), ops) == Header(namespace_, name) + PrintAll(es)
    decreases |ops|
  {
    hide Print, IsText, PrintAll, RemoveFirst, Header;
    var header := Header(namespace_, name);
    if ops == [] {
      es := [];
      NothingPrinted(header);
    } else {
      var last := ops[|ops| - 1];
      var before := PayloadIsHeaderAndLive(namespace_, name, ops[..|ops| - 1]);
      if last.Create? {
        es := before + [last.e];
        PrintAllAdds(before, last.e);
        AppendIsAssociative(header, PrintAll(before), [Print(last.e)]);
      } else {
        es := RemoveFirst(before, last.e);
        RemoveFirstRemovesOne(before, last.e);
        PrintedIsNoHeader(last.e, namespace_, name);
        RemoveFirstAfter(header, PrintAll(before), Print(last.e));
        RemoveFirstPrinted(before, last.e);
      }
    }
  }

  lemma NothingPrinted(header: seq<string>)
    ensures header + PrintAll([]) == header
  {
  }

  // ---------- what a peer makes of it ----------

  function OfKind(es: seq<Endpoint>, kind: EndpointKind): seq<Topic> {
    if es == [] then []
    else (if es[0].kind == kind then [es[0].topic] else []) + OfKind(es[1..], kind)
  }

  lemma {:induction false} OfKindCounts(es: seq<Endpoint>, kind: EndpointKind, t: Topic)
    ensures multiset(OfKind(es, kind))[t] == multiset(es)[Endpoint(kind, t)]
  {
    if es != [] {
      var own := if es[0].kind == kind then [es[0].topic] else [];
      OfKindCounts(es[1..], kind, t);
      assert es == [es[0]] + es[1..];
      assert multiset(OfKind(es, kind)) == multiset(own) + multiset(OfKind(es[1..], kind));
    }
  }

  /** A view with the topics of endpoints added, each to its kind. */
  function Adding(node: NodeView, es: seq<Endpoint>): NodeView
    decreases |es|
  {
    if es == [] then node
    else Adding(node.With(es[0].kind, node.Topics(es[0].kind) + [es[0].topic]), es[1..])
  }

  lemma {:induction false} ParsesAll(node: NodeView, es: seq<Endpoint>)
    requires AllPrintable(es)
    ensures ParsePayload(node, PrintAll(es)) == Adding(node, es)
    decreases |es|
  {
    hide ParseEntry, Print, IsText;
    if es != [] {
      ParseUndoesPrint(node, es[0]);
      assert PrintAll(es)[1..] == PrintAll(es[1..]);
      ParsesAll(ParseEntry(node, Print(es[0])), es[1..]);
    }
  }

  lemma {:induction false} AddingTopics(node: NodeView, es: seq<Endpoint>, kind: EndpointKind)
    ensures var r := Adding(node, es);
            r.name == node.name && r.namespace_ == node.namespace_
            && r.Topics(kind) == node.Topics(kind) + OfKind(es, kind)
    decreases |es|
  {
    if es == [] {
      assert node.Topics(kind) + [] == node.Topics(kind);
    } else {
      var own := if es[0].kind == kind then [es[0].topic] else [];
      var next := node.With(es[0].kind, node.Topics(es[0].kind) + [es[0].topic]);
      AddingTopics(next, es[1..], kind);
      assert next.Topics(kind) == node.Topics(kind) + own;
      AppendIsAssociative(node.Topics(kind), own, OfKind(es[1..], kind));
    }
  }

  lemma AppendIsAssociative<T>(a: seq<T>, b: seq<T>, c: seq<T>)
    ensures a + b + c == a + (b + c)
  {
  }

  /** What a peer has made of the header: the name entry is parsed after the namespace entry. */
  function Headed(namespace_: string, name: string): NodeView {
    ParseEntry(EMPTY_NODE.(namespace_ := namespace_), NAME_PREFIX + name)
  }

  /** The header brings no topics; and it brings name and namespace unless the name entry holds the
      namespace prefix, in which case the peer is left without a name. */
  lemma HeadedView(namespace_: string, name: string, kind: EndpointKind)
    ensures Headed(namespace_, name).Topics(kind) == []
    ensures Headed(namespace_, name).name == name && Headed(namespace_, name).namespace_ == namespace_
       <==> Find(NAME_PREFIX + name, NAMESPACE_PREFIX, 0).None?
    ensures Find(NAME_PREFIX + name, NAMESPACE_PREFIX, 0).Some? ==> Headed(namespace_, name).name == "" != name
  {
    var s := NAME_PREFIX + name;
    assert OccursAt(s, NAME_PREFIX, 0);
  }

  lemma ParsesHeader(namespace_: string, name: string, rest: seq<string>)
    ensures ParsePayload(EMPTY_NODE, Header(namespace_, name) + rest) == ParsePayload(Headed(namespace_, name), rest)
  {
    hide ParseEntry;
    var payload := Header(namespace_, name) + rest;
    ParseUndoesNamespace(EMPTY_NODE, namespace_);
    assert payload[1..][0] == NAME_PREFIX + name && payload[1..][1..] == rest;
  }

  /** Whole-run convergence: after any creations and destructions, a peer that received what the
      node last published holds, kind by kind, exactly the live endpoints' topics with their types,
      each as often as it is live.  It holds the node's name and namespace if and only if the name
      entry does not hold the namespace prefix. */
  lemma PeerHoldsLiveEndpoints(namespace_: string, name: string, ops: seq<Op>)
    requires IsRun(ops) && |ops| < TWO_64 - 2 && IsPayload(Header(namespace_, name))
    ensures IsPayload(PayloadAfter(Header(namespace_, name), ops))
    ensures var r := Receive(PayloadBytes(PayloadAfter(Header(namespace_, name), ops)));
            && r.Some?
            && (r.value.name == name && r.value.namespace_ == namespace_
                <==> Find(NAME_PREFIX + name, NAMESPACE_PREFIX, 0).None?)
            && forall kind, t :: multiset(r.value.Topics(kind))[t] == Live(ops)[Endpoint(kind, t)]
  {
    hide ParsePayload, Live, PayloadAfter, IsRun, IsPayload, Receive, PayloadBytes, Header, PrintAll;
    var es := PayloadIsHeaderAndLive(namespace_, name, ops);
    var payload := Header(namespace_, name) + PrintAll(es);
    WholeIsPayload(namespace_, name, es);
    HoldsLive(namespace_, name, es);
    ReceivesPayload(payload);
  }

  lemma WholeIsPayload(namespace_: string, name: string, es: seq<Endpoint>)
    requires AllPrintable(es) && |es| < TWO_64 - 2 && IsPayload(Header(namespace_, name))
    ensures IsPayload(Header(namespace_, name) + PrintAll(es))
  {
  }

  lemma HoldsLive(namespace_: string, name: string, es: seq<Endpoint>)
    requires AllPrintable(es)
    ensures var r := ParsePayload(EMPTY_NODE, Header(namespace_, name) + PrintAll(es));
            && (r.name == name && r.namespace_ == namespace_ <==> Find(NAME_PREFIX + name, NAMESPACE_PREFIX, 0).None?)
            && forall kind, t :: multiset(r.Topics(kind))[t] == multiset(es)[Endpoint(kind, t)]
  {
    var payload := Header(namespace_, name) + PrintAll(es);
    forall kind, t: Topic
      ensures multiset(ParsePayload(EMPTY_NODE, payload).Topics(kind))[t] == multiset(es)[Endpoint(kind, t)]
    {
      ParsesWhole(namespace_, name, es, kind);
      OfKindCounts(es, kind, t);
    }
    ParsesWhole(namespace_, name, es, Subscriber);
    HeadedView(namespace_, name, Subscriber);
  }

  lemma ParsesWhole(namespace_: string, name: string, es: seq<Endpoint>, kind: EndpointKind)
    requires AllPrintable(es)
    ensures var r := ParsePayload(EMPTY_NODE, Header(namespace_, name) + PrintAll(es));
            var headed := Headed(namespace_, name);
            r.name == headed.name && r.namespace_ == headed.namespace_ && r.Topics(kind) == OfKind(es, kind)
  {
    hide ParseEntry;
    var headed := Headed(namespace_, name);
    ParsesHeader(namespace_, name, PrintAll(es));
    ParsesAll(headed, es);
    AddingTopics(headed, es, kind);
    HeadedView(namespace_, name, kind);
    assert [] + OfKind(es, kind) == OfKind(es, kind);
  }
}
