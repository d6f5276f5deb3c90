/** Inputs on which the code does something other than its reader might expect.  The exact
    conditions are in the modules that these lemmas draw on. */
module Findings {
  import opened Wrappers
  import opened Messages
  import Cbor
  import Wire
  import WellFormed
  import opened Strings
  import opened Discovery
  import MatchedSets
  import DiscoveryRuns
  import Listeners
  import Ledger

  // ---------- bounds of C strings ----------

  /** The C binding lets a string over its bound pass exactly if it is one unit too long. */
  lemma OverTheBoundByOne(s: seq<Cbor.byte>, maxLen: nat)
    requires 0 < maxLen && |s| < Cbor.TWO_64
    ensures Accepted(C, String(maxLen), StrV(s)) && CLength(s) > maxLen <==> CLength(s) == maxLen + 1
  {
  }

  lemma WideOverTheBoundByOne(units: seq<nat>, maxLen: nat)
    requires 0 < maxLen && HasKind(WString(maxLen), WStrV(units))
    ensures Accepted(C, WString(maxLen), WStrV(units)) && CLength(units) > maxLen <==> CLength(units) == maxLen + 1
  {
  }

  /** No bound is checked for strings of the C++ binding, nor for arrays of strings of either. */
  lemma UncheckedStrings(b: Binding, m: Member, v: Value)
    requires HasMember(m, v) && !m.kind.Num? && !m.kind.Message? && (m.isArray || b.Cpp?)
    ensures AcceptedMember(b, m, v)
  {
  }

  /** A bounded sequence of messages is accepted exactly if it is within its bound and every message
      is accepted; without a bound only the messages count. */
  lemma {:induction false} MessagesWithinTheirBound(b: Binding, m: Member, vs: seq<Value>)
    requires m.isArray && m.kind.Message? && HasMember(m, ListV(vs))
    ensures forall i :: 0 <= i < |vs| ==> HasKind(m.kind, vs[i])
    ensures AcceptedMember(b, m, ListV(vs)) <==>
            && (m.isUpperBound ==> |vs| <= m.arraySize)
            && forall i :: 0 <= i < |vs| ==> Accepted(b, m.kind, vs[i])
  {
    EachAccepted(b, m.kind, vs);
  }

  lemma {:induction false} EachAccepted(b: Binding, k: Kind, vs: seq<Value>)
    requires HasKinds(k, vs)
    ensures forall i :: 0 <= i < |vs| ==> HasKind(k, vs[i])
    ensures AcceptedEach(b, k, vs) <==> forall i :: 0 <= i < |vs| ==> Accepted(b, k, vs[i])
    decreases |vs|
  {
    hide HasKind, Accepted;
    if vs != [] {
      EachAccepted(b, k, vs[1..]);
      assert forall i :: 0 < i < |vs| ==> vs[i] == vs[1..][i - 1];
      assert forall i :: 0 <= i < |vs| - 1 ==> vs[1..][i] == vs[i + 1];
    }
  }

  lemma TwoUnitsPassABoundOfOne()
    ensures Accepted(C, String(1), StrV([65, 66])) && CLength([65, 66]) == 2
  {
    assert CLength([65, 66][1..]) == 1;
  }

  // ---------- sequences of messages ----------

  /** A message whose one member is a sequence of messages, each with one `uint8`. */
  const NESTED := [Member(Message([Member(Num(Uint8), false, 0, false)]), true, 0, false)]

  const ONE_NESTED := MsgV([ListV([MsgV([IntV(7)])])])

  /** With one element in the sequence, the encoding is not one CBOR item. */
  lemma SequenceOfMessagesIsNotOneItem()
    ensures HasKind(Message(NESTED), ONE_NESTED)
    ensures var p := WellFormed.ReadItem(Wire.WriteTop(NESTED, ONE_NESTED));
            !(p.Got? && p.rest == [])
  {
    var inner, element := [Member(Num(Uint8), false, 0, false)], MsgV([IntV(7)]);
    assert HasMember(inner[0], element.fields[0]);
    assert HasMembers(inner, element.fields) && HasKind(Message(inner), element);
    assert HasKinds(Message(inner), [element]);
    assert HasMember(NESTED[0], ONE_NESTED.fields[0]);
    assert WellFormed.ExtraMember(NESTED[0], ONE_NESTED.fields[0]) >= 1;
    assert WellFormed.Extra(Message(NESTED), ONE_NESTED) >= 1;
    WellFormed.OneItemExactlyWithoutExtra(NESTED, ONE_NESTED, []);
    assert Wire.WriteTop(NESTED, ONE_NESTED) + [] == Wire.WriteTop(NESTED, ONE_NESTED);
  }

  // ---------- node names ----------

  /** A node named "namespace=x" leaves its peers without a name and with the namespace "x". */
  lemma NameTakenForNamespace()
    ensures ParseEntry(EMPTY_NODE, NAME_PREFIX + "namespace=x") == EMPTY_NODE.(namespace_ := "x")
  {
    var s := NAME_PREFIX + "namespace=x";
    assert s == "name=namespace=x";
    assert s[5..15] == NAMESPACE_PREFIX;
    assert OccursAt(s, NAMESPACE_PREFIX, 5);
    forall i: nat | i < 5
      ensures !OccursAt(s, NAMESPACE_PREFIX, i)
    {
      assert s[i..i + 10][0] == s[i] && s[i..i + 10][4] == s[i + 4];
    }
    assert s[15..] == "x";
  }

  // ---------- late publishers ----------

  lemma RunThen(actions: seq<DiscoveryRuns.Action>, a: DiscoveryRuns.Action)
    requires DiscoveryRuns.Run(actions).Some?
    ensures DiscoveryRuns.Run(actions + [a]) == DiscoveryRuns.Step(DiscoveryRuns.Run(actions).value, a)
  {
    assert (actions + [a])[..|actions + [a]| - 1] == actions;
  }

  const CHATTER := Topic("chatter", ["std_msgs::dps_::String_"])

  /** A publisher created after the only announcement of a subscription on its topic has an empty
      set, although the map lists the subscription. */
  lemma LatePublisherMissesSubscription() returns (actions: seq<DiscoveryRuns.Action>)
    ensures DiscoveryRuns.Run(actions).Some?
    ensures var s := DiscoveryRuns.Run(actions).value;
            && s.phase.Quiet? && 1 in s.publishers
            && s.publishers[1] == MatchedSets.Cached("chatter", {}, 0)
            && DiscoveryRuns.Listing(s.discovered, Subscriber, "chatter") == {"peer"}
  {
    var node := EMPTY_NODE.(subscribers := [CHATTER]);
    RunThen([], DiscoveryRuns.Announce("peer", node));
    actions := [] + [DiscoveryRuns.Announce("peer", node)];
    RunThen(actions, DiscoveryRuns.UpdatePublishers);
    actions := actions + [DiscoveryRuns.UpdatePublishers];
    RunThen(actions, DiscoveryRuns.UpdateSubscribers);
    actions := actions + [DiscoveryRuns.UpdateSubscribers];
    RunThen(actions, DiscoveryRuns.Notify);
    actions := actions + [DiscoveryRuns.Notify];
    RunThen(actions, DiscoveryRuns.CreatePublisher(1, "chatter"));
    actions := actions + [DiscoveryRuns.CreatePublisher(1, "chatter")];
    assert CHATTER in node.subscribers;
  }

  // ---------- responses that throw ----------

  lemma ServiceThen(actions: seq<Ledger.Action>, a: Ledger.Action, next: Ledger.Service)
    returns (more: seq<Ledger.Action>)
    requires Ledger.Step(Ledger.Run(actions), a).0 == next
    ensures more == actions + [a] && Ledger.Run(more) == next
  {
    more := actions + [a];
    assert more[..|more| - 1] == actions;
  }

  /** After a response that threw, a request taken again under the same id stays without its
      publication. */
  lemma TakingAgainDoesNotRestore(d: Listeners.Delivery) returns (actions: seq<Ledger.Action>)
    ensures |actions| == 5 && actions[4] == Ledger.Take(true)
    ensures Ledger.EffectAt(actions, 4) == Ledger.Taken(d, false)
    ensures Ledger.Run(actions) == Ledger.Service([], map[Ledger.HeaderOf(d.publication) := None])
  {
    hide Ledger.Run, Ledger.HeaderOf;
    var id := Ledger.HeaderOf(d.publication);
    var held, lost := map[id := Some(d.publication)], map[id := None];
    NothingYet();
    actions := ServiceThen([], Ledger.Deliver(d), Ledger.Service([d], map[]));
    actions := ServiceThen(actions, Ledger.Take(true), Ledger.Service([], held));
    actions := ServiceThen(actions, Ledger.Respond(id, Ledger.Throws), Ledger.Service([], lost));
    actions := ServiceThen(actions, Ledger.Deliver(d), Ledger.Service([d], lost));
    var before := actions;
    actions := ServiceThen(actions, Ledger.Take(true), Ledger.Service([], lost));
    assert actions[..4] == before;
  }

  lemma NothingYet()
    ensures Ledger.Run([]) == Ledger.Service([], map[])
  {
  }
}
