/** The strings a node announces itself with, and how a peer takes them apart. */
module Discovery {
  import opened Wrappers
  import opened Strings

  const NAMESPACE_PREFIX := "namespace="
  const NAME_PREFIX := "name="
  const TYPES_SEPARATOR := "&types="

  datatype EndpointKind = Subscriber | Publisher | Service | Client

  function Prefix(kind: EndpointKind): string {
    match kind
    case Subscriber => "subscriber&topic="
    case Publisher => "publisher&topic="
    case Service => "service&topic="
    case Client => "client&topic="
  }

  datatype Topic = Topic(topic: string, types: seq<string>)

  datatype Endpoint = Endpoint(kind: EndpointKind, topic: Topic)

  /** What a peer keeps of a node: `NodeListener::Node`. */
  datatype NodeView = NodeView(name: string, namespace_: string, subscribers: seq<Topic>,
                               publishers: seq<Topic>, services: seq<Topic>, clients: seq<Topic>) {
    function Topics(kind: EndpointKind): seq<Topic> {
      match kind
      case Subscriber => subscribers
      case Publisher => publishers
      case Service => services
      case Client => clients
    }

    function With(kind: EndpointKind, topics: seq<Topic>): NodeView {
      match kind
      case Subscriber => this.(subscribers := topics)
      case Publisher => this.(publishers := topics)
      case Service => this.(services := topics)
      case Client => this.(clients := topics)
    }
  }

  const EMPTY_NODE := NodeView("", "", [], [], [], [])

  // ---------- printing ----------

  /** `discovery_name_` of an endpoint. */
  function Print(e: Endpoint): string
    requires e.topic.types != []
  {
    Prefix(e.kind) + e.topic.topic + TYPES_SEPARATOR + Join(e.topic.types)
  }

  /** The discovery names, spelled out. */
  lemma PrintedText(topic: string, a: string, b: string)
    ensures Print(Endpoint(Publisher, Topic(topic, [a]))) == "publisher&topic=" + topic + "&types=" + a
    ensures Print(Endpoint(Subscriber, Topic(topic, [a]))) == "subscriber&topic=" + topic + "&types=" + a
    ensures Print(Endpoint(Service, Topic(topic, [a, b]))) == "service&topic=" + topic + "&types=" + a + "," + b
    ensures Print(Endpoint(Client, Topic(topic, [a, b]))) == "client&topic=" + topic + "&types=" + a + "," + b
  {
    assert Join([a]) == a;
    assert [a, b][1..] == [b] && Join([a, b]) == a + "," + b;
  }

  /** No '=' anywhere, no ',' in types, and at least one type. */
  predicate IsPrintable(e: Endpoint) {
    && e.topic.types != []
    && '=' !in e.topic.topic
    && forall i :: 0 <= i < |e.topic.types| ==> '=' !in e.topic.types[i] && ',' !in e.topic.types[i]
  }

  // ---------- parsing ----------

  /** The part of `s` that an entry's topic takes.  The separator is searched from the start of
      the string, and a length that would be negative wraps round to all of the rest. */
  function TopicPart(s: string, from: nat, separator: Option<nat>): string
    requires from <= |s| && (separator.Some? ==> separator.value <= |s|)
  {
    if separator.Some? && from <= separator.value then s[from..separator.value] else s[from..]
  }

  function ParseTopic(s: string, prefix: string): Option<Topic> {
    match Find(s, prefix, 0)
    case None => None
    case Some(p) =>
      var from := p + |prefix|;
      var separator := Find(s, TYPES_SEPARATOR, 0);
      var typesFrom := if separator.Some? then separator.value + |TYPES_SEPARATOR| else from;
      Some(Topic(TopicPart(s, from, separator), SplitFrom(s, typesFrom)))
  }

  /** One string of a payload; the six searches are tried in this order. */
  function ParseEntry(node: NodeView, s: string): NodeView {
    var inNamespace := Find(s, NAMESPACE_PREFIX, 0);
    var inName := Find(s, NAME_PREFIX, 0);
    if inNamespace.Some? then node.(namespace_ := s[inNamespace.value + |NAMESPACE_PREFIX|..])
    else if inName.Some? then node.(name := s[inName.value + |NAME_PREFIX|..])
    else ParseEndpoint(node, s)
  }

  function ParseEndpoint(node: NodeView, s: string): NodeView {
    var subscriber := ParseTopic(s, Prefix(Subscriber));
    var publisher := ParseTopic(s, Prefix(Publisher));
    var service := ParseTopic(s, Prefix(Service));
    var client := ParseTopic(s, Prefix(Client));
    if subscriber.Some? then node.With(Subscriber, node.subscribers + [subscriber.value])
    else if publisher.Some? then node.With(Publisher, node.publishers + [publisher.value])
    else if service.Some? then node.With(Service, node.services + [service.value])
    else if client.Some? then node.With(Client, node.clients + [client.value])
    else node
  }

  function ParsePayload(node: NodeView, payload: seq<string>): NodeView
    decreases |payload|
  {
    if payload == [] then node else ParsePayload(ParseEntry(node, payload[0]), payload[1..])
  }

  /** `process_topic_info`: appends to the topics if the prefix is found. */
  method ProcessTopicInfo(s: string, prefix: string, topics: seq<Topic>) returns (found: bool, result: seq<Topic>)
    ensures found == ParseTopic(s, prefix).Some?
    ensures result == topics + if found then [ParseTopic(s, prefix).value] else []
  {
    var start := Find(s, prefix, 0);
    if start.None? {
      return false, topics;
    }
    var pos := start.value + |prefix|;
    var end := Find(s, TYPES_SEPARATOR, 0);
    var topic := TopicPart(s, pos, end);
    if end.Some? {
      pos := end.value + |TYPES_SEPARATOR|;
    }
    var types := SplitTypes(s, pos);
    return true, topics + [Topic(topic, types)];
  }

  /** The loop over the types of an entry, until no comma is found. */
  method SplitTypes(s: string, from: nat) returns (types: seq<string>)
    requires from <= |s|
    ensures types == SplitFrom(s, from)
  {
    hide Find;
    types := [];
    var pos, more := from, true;
    while more
      invariant pos <= |s|
      invariant SplitFrom(s, from) == if more then types + SplitFrom(s, pos) else types
      decreases more, |s| - pos
    {
      ghost var done, left := types, SplitFrom(s, pos);
      var end := Find(s, ",", pos);
      if end.Some? {
        types := types + [s[pos..end.value]];
        pos := end.value + 1;
        assert types + SplitFrom(s, pos) == done + left;
      } else {
        types := types + [s[pos..]];
        more := false;
      }
    }
  }

  /** The loop of `onDiscovery` over the strings of a payload. */
  method ReadPayload(payload: seq<string>) returns (node: NodeView)
    ensures node == ParsePayload(EMPTY_NODE, payload)
  {
    node := EMPTY_NODE;
    for i := 0 to |payload|
      invariant ParsePayload(EMPTY_NODE, payload) == ParsePayload(node, payload[i..])
    {
      assert payload[i..][0] == payload[i] && payload[i..][1..] == payload[i + 1..];
      node := ReadEntry(node, payload[i]);
    }
  }

  method ReadEntry(node: NodeView, s: string) returns (result: NodeView)
    ensures result == ParseEntry(node, s)
  {
    var pos := Find(s, NAMESPACE_PREFIX, 0);
    if pos.Some? {
      return node.(namespace_ := s[pos.value + |NAMESPACE_PREFIX|..]);
    }
    pos := Find(s, NAME_PREFIX, 0);
    if pos.Some? {
      return node.(name := s[pos.value + |NAME_PREFIX|..]);
    }
    var found, topics := ProcessTopicInfo(s, Prefix(Subscriber), node.subscribers);
    if found {
      return node.(subscribers := topics);
    }
    found, topics := ProcessTopicInfo(s, Prefix(Publisher), node.publishers);
    if found {
      return node.(publishers := topics);
    }
    found, topics := ProcessTopicInfo(s, Prefix(Service), node.services);
    if found {
      return node.(services := topics);
    }
    found, topics := ProcessTopicInfo(s, Prefix(Client), node.clients);
    if found {
      return node.(clients := topics);
    }
    return node;
  }

  // ---------- what can be found in a printed entry ----------

  /** Everything searched for in an entry. */
  predicate IsNeedle(p: string) {
    p == NAMESPACE_PREFIX || p == NAME_PREFIX || p == TYPES_SEPARATOR || exists kind :: p == Prefix(kind)
  }

  /** A needle has one '=', at its end. */
  lemma NeedleEndsWithItsEquals(p: string)
    requires IsNeedle(p)
    ensures p != "" && forall k | 0 <= k < |p| :: p[k] == '=' <==> k == |p| - 1
  {
  }

  function LetterBack8(kind: EndpointKind): char {
    match kind case Subscriber => 'r' case Publisher => 'r' case Service => 'e' case Client => 't'
  }

  function LetterBack10(kind: EndpointKind): char {
    match kind case Subscriber => 'b' case Publisher => 'h' case Service => 'i' case Client => 'e'
  }

  lemma PrefixEnd(kind: EndpointKind)
    ensures var own := Prefix(kind);
            && |own| >= 13
            && own[|own| - 2] == 'c'
            && own[|own| - 8] == LetterBack8(kind)
            && own[|own| - 10] == LetterBack10(kind)
  {
  }

  /** Only the separator has 's' before its '='; needles other than a prefix differ from it near
      their ends, where it would have to match. */
  lemma NeedlesDiffer(p: string, kind: EndpointKind)
    requires IsNeedle(p)
    ensures p != TYPES_SEPARATOR ==> p[|p| - 2] != TYPES_SEPARATOR[5]
    ensures p != Prefix(kind) ==>
            DifferAt(p, Prefix(kind), 2) || DifferAt(p, Prefix(kind), 8) || DifferAt(p, Prefix(kind), 10)
  {
    PrefixEnd(kind);
    if p != NAMESPACE_PREFIX && p != NAME_PREFIX && p != TYPES_SEPARATOR {
      var other :| p == Prefix(other);
      PrefixEnd(other);
    }
  }

  /** The characters `back` places before the ends differ. */
  predicate DifferAt(p: string, q: string, back: nat) {
    1 <= back <= |p| && back <= |q| && p[|p| - back] != q[|q| - back]
  }

  /** A printed entry has two '='. */
  lemma EqualsInPrinted(e: Endpoint, k: nat)
    requires IsPrintable(e) && k < |Print(e)|
    ensures Print(e)[k] == '=' ==>
              k + 1 in {|Prefix(e.kind)|, |Prefix(e.kind)| + |e.topic.topic| + |TYPES_SEPARATOR|}
  {
    var s, own, t, types := Print(e), Prefix(e.kind), e.topic.topic, Join(e.topic.types);
    NeedleEndsWithItsEquals(own);
    JoinHasNo(e.topic.types, '=');
    var b := |own| + |t|;
    if k < |own| {
      assert s[k] == own[k];
    } else if k < b {
      assert s[k] == t[k - |own|];
    } else if k < b + |TYPES_SEPARATOR| {
      assert s[k] == TYPES_SEPARATOR[k - b];
    } else {
      assert s[k] == types[k - b - |TYPES_SEPARATOR|];
    }
  }

  /** What ends at the first '=' of a printed entry is its prefix. */
  lemma FoundAtFirstEquals(e: Endpoint, p: string, i: nat)
    requires IsPrintable(e) && IsNeedle(p) && OccursAt(Print(e), p, i) && i + |p| == |Prefix(e.kind)|
    ensures p == Prefix(e.kind)
  {
    NeedlesDiffer(p, e.kind);
    DoNotDiffer(e, p, i, 2);
    DoNotDiffer(e, p, i, 8);
    DoNotDiffer(e, p, i, 10);
  }

  lemma DoNotDiffer(e: Endpoint, p: string, i: nat, back: nat)
    requires IsPrintable(e) && OccursAt(Print(e), p, i) && i + |p| == |Prefix(e.kind)|
    ensures !DifferAt(p, Prefix(e.kind), back)
  {
    if DifferAt(p, Prefix(e.kind), back) {
      OccurrenceChar(Print(e), p, i, |p| - back);
      OccurrenceChar(Print(e), Prefix(e.kind), 0, |Prefix(e.kind)| - back);
    }
  }

  /** What ends at the second '=' is the separator. */
  lemma FoundAtSecondEquals(e: Endpoint, p: string, i: nat)
    requires IsPrintable(e) && IsNeedle(p) && OccursAt(Print(e), p, i)
    requires i + |p| == |Prefix(e.kind)| + |e.topic.topic| + |TYPES_SEPARATOR|
    ensures p == TYPES_SEPARATOR
  {
    NeedlesDiffer(p, e.kind);
    OccurrenceChar(Print(e), p, i, |p| - 2);
    OccurrenceChar(Print(e), TYPES_SEPARATOR, |Prefix(e.kind)| + |e.topic.topic|, 5);
  }

  /** Which needles occur where: an entry's own prefix at the front, the separator after the
      topic, and nothing else. */
  lemma FoundInPrinted(e: Endpoint, p: string, i: nat)
    requires IsPrintable(e) && IsNeedle(p) && OccursAt(Print(e), p, i)
    ensures (p == Prefix(e.kind) && i == 0)
         || (p == TYPES_SEPARATOR && i == |Prefix(e.kind)| + |e.topic.topic|)
  {
    NeedleEndsWithItsEquals(p);
    OccurrenceChar(Print(e), p, i, |p| - 1);
    EqualsInPrinted(e, i + |p| - 1);
    if i + |p| == |Prefix(e.kind)| {
      FoundAtFirstEquals(e, p, i);
    } else {
      FoundAtSecondEquals(e, p, i);
    }
  }

  lemma PrintedParts(e: Endpoint)
    requires IsPrintable(e)
    ensures var s, b := Print(e), |Prefix(e.kind)| + |e.topic.topic|;
            && OccursAt(s, Prefix(e.kind), 0)
            && OccursAt(s, TYPES_SEPARATOR, b)
            && s[|Prefix(e.kind)|..b] == e.topic.topic
            && SplitFrom(s, b + |TYPES_SEPARATOR|) == e.topic.types
  {
    SplitUndoesJoin(Prefix(e.kind) + e.topic.topic + TYPES_SEPARATOR, e.topic.types);
  }

  lemma OwnTopicParses(e: Endpoint)
    requires IsPrintable(e)
    ensures ParseTopic(Print(e), Prefix(e.kind)) == Some(e.topic)
  {
    var s := Print(e);
    PrintedParts(e);
    var separator := Find(s, TYPES_SEPARATOR, 0);
    FoundInPrinted(e, TYPES_SEPARATOR, separator.value);
    FoundInPrinted(e, Prefix(e.kind), Find(s, Prefix(e.kind), 0).value);
  }

  lemma NoOtherNeedle(e: Endpoint, p: string)
    requires IsPrintable(e) && IsNeedle(p) && p != Prefix(e.kind) && p != TYPES_SEPARATOR
    ensures Find(Print(e), p, 0).None?
  {
    var r := Find(Print(e), p, 0);
    if r.Some? {
      FoundInPrinted(e, p, r.value);
    }
  }

  /** The discovery string round trip: parsing a printed endpoint appends exactly its topic with
      exactly its types to the topics of its own kind, and changes nothing else. */
  lemma ParseUndoesPrint(node: NodeView, e: Endpoint)
    requires IsPrintable(e)
    ensures ParseEntry(node, Print(e)) == node.With(e.kind, node.Topics(e.kind) + [e.topic])
  {
    OwnTopicParses(e);
    NoOtherNeedle(e, NAMESPACE_PREFIX);
    NoOtherNeedle(e, NAME_PREFIX);
    forall kind | kind != e.kind
      ensures ParseTopic(Print(e), Prefix(kind)).None?
    {
      PrefixesDiffer(kind, e.kind);
      NoOtherNeedle(e, Prefix(kind));
    }
  }

  lemma PrefixesDiffer(a: EndpointKind, b: EndpointKind)
    ensures Prefix(a) == Prefix(b) ==> a == b
    ensures Prefix(a) != TYPES_SEPARATOR
  {
    assert |Prefix(Subscriber)| == 17 && |Prefix(Publisher)| == 16 && |Prefix(Service)| == 14 && |Prefix(Client)| == 13;
  }

  /** The namespace entry is found whatever the namespace is. */
  lemma ParseUndoesNamespace(node: NodeView, namespace_: string)
    ensures ParseEntry(node, NAMESPACE_PREFIX + namespace_) == node.(namespace_ := namespace_)
  {
    var s := NAMESPACE_PREFIX + namespace_;
    assert OccursAt(s, NAMESPACE_PREFIX, 0);
  }

  /** The name entry is read back if and only if it does not hold the namespace prefix, which is
      searched first. */
  lemma ParseUndoesName(name: string)
    ensures (forall node :: ParseEntry(node, NAME_PREFIX + name) == node.(name := name))
       <==> Find(NAME_PREFIX + name, NAMESPACE_PREFIX, 0).None?
  {
    var s := NAME_PREFIX + name;
    assert OccursAt(s, NAME_PREFIX, 0);
    if Find(s, NAMESPACE_PREFIX, 0).Some? {
      var other := EMPTY_NODE.(name := name + "!");
      assert ParseEntry(other, s).name == name + "!" != name;
    }
  }
}
