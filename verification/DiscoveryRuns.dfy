/** `onDiscovery` as the critical sections it is made of, interleaved in any order with the
    creation and destruction of local endpoints.  Callbacks of one node do not overlap. */
module DiscoveryRuns {
  import opened Wrappers
  import opened Discovery
  import opened MatchedSets

  /** How far the callback in progress is: it has replaced the map entry `past` by `node`, then
      updated the publishers' sets, then the subscriptions' sets. */
  datatype Phase = Quiet
                 | MapUpdated(uuid: Uuid, past: NodeView, node: NodeView, trigger: bool)
                 | PublishersUpdated(uuid: Uuid, past: NodeView, node: NodeView, trigger: bool)
                 | SubscribersUpdated(trigger: bool)

  /** The logs, and the number of changes of the map, are history. */
  datatype State = State(discovered: map<Uuid, NodeView>, phase: Phase,
                         publishers: map<nat, Cached>, subscribers: map<nat, Cached>, triggers: nat,
                         publisherLog: seq<Event>, subscriberLog: seq<Event>, changes: nat)

  const INITIAL := State(map[], Quiet, map[], map[], 0, [], [], 0)

  datatype Action = Announce(uuid: Uuid, node: NodeView)
                  | Depart(uuid: Uuid)
                  | UpdatePublishers
                  | UpdateSubscribers
                  | Notify
                  | CreatePublisher(id: nat, topic: string)
                  | DestroyPublisher(id: nat)
                  | CreateSubscriber(id: nat, topic: string)
                  | DestroySubscriber(id: nat)

  /** The entry of a node, empty if there is none. */
  function NodeOf(discovered: map<Uuid, NodeView>, uuid: Uuid): NodeView {
    if uuid in discovered then discovered[uuid] else EMPTY_NODE
  }

  /** The first critical section, for an announcement or, without a node, a departure. */
  function UpdateMap(discovered: map<Uuid, NodeView>, uuid: Uuid, node: Option<NodeView>): (map<Uuid, NodeView>, bool) {
    match node
    case None => (discovered - {uuid}, uuid in discovered)
    case Some(n) => (discovered[uuid := n], uuid !in discovered || discovered[uuid] != n)
  }

  /** A later critical section: nothing if the topics are equal, else the two loops. */
  function UpdateSide<K>(index: map<K, Cached>, uuid: Uuid, past: seq<Topic>, now: seq<Topic>): map<K, Cached> {
    if past != now then ApplyChange(index, uuid, Names(past) - Names(now), Names(now) - Names(past)) else index
  }

  function Receive(s: State, uuid: Uuid, node: Option<NodeView>): State {
    var (discovered, trigger) := UpdateMap(s.discovered, uuid, node);
    s.(discovered := discovered,
       phase := MapUpdated(uuid, NodeOf(s.discovered, uuid), NodeOf(discovered, uuid), trigger),
       changes := s.changes + if discovered != s.discovered then 1 else 0)
  }

  function Step(s: State, a: Action): Option<State> {
    match a
    case Announce(uuid, node) => if s.phase.Quiet? then Some(Receive(s, uuid, Some(node))) else None
    case Depart(uuid) => if s.phase.Quiet? then Some(Receive(s, uuid, None)) else None
    case UpdatePublishers =>
      if !s.phase.MapUpdated? then None else
        var MapUpdated(uuid, past, node, trigger) := s.phase;
        Some(s.(publishers := UpdateSide(s.publishers, uuid, past.subscribers, node.subscribers),
                publisherLog := s.publisherLog + [Apply(uuid, Names(node.subscribers))],
                phase := PublishersUpdated(uuid, past, node, trigger)))
    case UpdateSubscribers =>
      if !s.phase.PublishersUpdated? then None else
        var PublishersUpdated(uuid, past, node, trigger) := s.phase;
        Some(s.(subscribers := UpdateSide(s.subscribers, uuid, past.publishers, node.publishers),
                subscriberLog := s.subscriberLog + [Apply(uuid, Names(node.publishers))],
                phase := SubscribersUpdated(trigger)))
    case Notify =>
      if !s.phase.SubscribersUpdated? then None else
        Some(s.(phase := Quiet, triggers := s.triggers + if s.phase.trigger then 1 else 0))
    case CreatePublisher(id, topic) =>
      if id in s.publishers then None else
        Some(s.(publishers := s.publishers[id := Cached(topic, {}, 0)],
                publisherLog := s.publisherLog + [Register(id, topic)]))
    case DestroyPublisher(id) =>
      Some(s.(publishers := s.publishers - {id}, publisherLog := s.publisherLog + [Unregister(id)]))
    case CreateSubscriber(id, topic) =>
      if id in s.subscribers then None else
        Some(s.(subscribers := s.subscribers[id := Cached(topic, {}, 0)],
                subscriberLog := s.subscriberLog + [Register(id, topic)]))
    case DestroySubscriber(id) =>
      Some(s.(subscribers := s.subscribers - {id}, subscriberLog := s.subscriberLog + [Unregister(id)]))
  }

  /** The state after a run, if every action was enabled. */
  function Run(actions: seq<Action>): Option<State> {
    if actions == [] then Some(INITIAL) else
      match Run(actions[..|actions| - 1])
      case None => None
      case Some(s) => Step(s, actions[|actions| - 1])
  }

  // ---------- the invariant ----------

  /** The topics of kind `kind` that an index was last told a node has: those of the map, or, while
      the callback has changed the map and not yet this index, those from before. */
  function Told(discovered: map<Uuid, NodeView>, kind: EndpointKind, behind: Option<(Uuid, NodeView)>,
                uuid: Uuid): seq<Topic> {
    if behind.Some? && behind.value.0 == uuid then behind.value.1.Topics(kind)
        else NodeOf(discovered, uuid).Topics(kind)
  }

  ghost predicate SideInv(index: map<nat, Cached>, log: seq<Event>, discovered: map<Uuid, NodeView>,
                          kind: EndpointKind, behind: Option<(Uuid, NodeView)>)
  {
    && IsHistory(log) && index == IndexAfter(log)
    && forall uuid :: LastApplied(log, uuid) == Names(Told(discovered, kind, behind, uuid))
  }

  function PublishersBehind(p: Phase): Option<(Uuid, NodeView)> {
    if p.MapUpdated? then Some((p.uuid, p.past)) else None
  }

  function SubscribersBehind(p: Phase): Option<(Uuid, NodeView)> {
    if p.MapUpdated? || p.PublishersUpdated? then Some((p.uuid, p.past)) else None
  }

  ghost predicate Inv(s: State) {
    && SideInv(s.publishers, s.publisherLog, s.discovered, Subscriber, PublishersBehind(s.phase))
    && SideInv(s.subscribers, s.subscriberLog, s.discovered, Publisher, SubscribersBehind(s.phase))
    && (s.phase.MapUpdated? || s.phase.PublishersUpdated? ==> s.phase.node == NodeOf(s.discovered, s.phase.uuid))
    && s.changes == s.triggers + if !s.phase.Quiet? && s.phase.trigger then 1 else 0
  }

  lemma LogExtends(log: seq<Event>, e: Event)
    ensures (log + [e])[..|log + [e]| - 1] == log
  {
  }

  lemma SideReceives(index: map<nat, Cached>, log: seq<Event>, s: State,
                     uuid: Uuid, node: Option<NodeView>, kind: EndpointKind)
    requires SideInv(index, log, s.discovered, kind, None)
    ensures SideInv(index, log, UpdateMap(s.discovered, uuid, node).0, kind, Some((uuid, NodeOf(s.discovered, uuid))))
  {
    var behind := Some((uuid, NodeOf(s.discovered, uuid)));
    var discovered := UpdateMap(s.discovered, uuid, node).0;
    forall u
      ensures Told(discovered, kind, behind, u) == Told(s.discovered, kind, None, u)
    {
    }
  }

  lemma SideUpdates(index: map<nat, Cached>, log: seq<Event>, discovered: map<Uuid, NodeView>, kind: EndpointKind,
                    uuid: Uuid, past: NodeView)
    requires SideInv(index, log, discovered, kind, Some((uuid, past)))
    ensures var now := NodeOf(discovered, uuid).Topics(kind);
            SideInv(UpdateSide(index, uuid, past.Topics(kind), now),
                    log + [Apply(uuid, Names(now))], discovered, kind, None)
  {
    var before, now := past.Topics(kind), NodeOf(discovered, uuid).Topics(kind);
    var e := Apply(uuid, Names(now));
    LogExtends(log, e);
    assert Told(discovered, kind, Some((uuid, past)), uuid) == before;
    if before == now {
      NothingToChange(index, uuid, Names(now));
    }
    forall u
      ensures LastApplied(log + [e], u) == Names(Told(discovered, kind, None, u))
    {
      assert u != uuid ==> Told(discovered, kind, None, u) == Told(discovered, kind, Some((uuid, past)), u);
    }
  }

  lemma NothingToChange(index: map<nat, Cached>, uuid: Uuid, names: set<string>)
    ensures ApplyChange(index, uuid, names - names, names - names) == index
  {
  }

  lemma SideRegisters(index: map<nat, Cached>, log: seq<Event>, discovered: map<Uuid, NodeView>, kind: EndpointKind,
                      behind: Option<(Uuid, NodeView)>, e: Event)
    requires SideInv(index, log, discovered, kind, behind) && !e.Apply? && (e.Register? ==> e.id !in index)
    ensures SideInv(if e.Register? then index[e.id := Cached(e.topic, {}, 0)] else index - {e.id},
                    log + [e], discovered, kind, behind)
  {
    LogExtends(log, e);
    forall u
      ensures LastApplied(log + [e], u) == LastApplied(log, u)
    {
    }
  }

  lemma StepKeepsInv(s: State, a: Action)
    requires Inv(s) && Step(s, a).Some?
    ensures Inv(Step(s, a).value)
  {
    hide SideInv, UpdateSide;
    match a
    case Announce(uuid, node) => ReceiveKeepsInv(s, uuid, Some(node));
    case Depart(uuid) => ReceiveKeepsInv(s, uuid, None);
    case UpdatePublishers =>
      SideUpdates(s.publishers, s.publisherLog, s.discovered, Subscriber, s.phase.uuid, s.phase.past);
    case UpdateSubscribers =>
      SideUpdates(s.subscribers, s.subscriberLog, s.discovered, Publisher, s.phase.uuid, s.phase.past);
    case Notify =>
    case CreatePublisher(id, topic) =>
      SideRegisters(s.publishers, s.publisherLog, s.discovered, Subscriber,
                    PublishersBehind(s.phase), Register(id, topic));
    case DestroyPublisher(id) =>
      SideRegisters(s.publishers, s.publisherLog, s.discovered, Subscriber, PublishersBehind(s.phase), Unregister(id));
    case CreateSubscriber(id, topic) =>
      SideRegisters(s.subscribers, s.subscriberLog, s.discovered, Publisher,
                    SubscribersBehind(s.phase), Register(id, topic));
    case DestroySubscriber(id) =>
      SideRegisters(s.subscribers, s.subscriberLog, s.discovered, Publisher,
                    SubscribersBehind(s.phase), Unregister(id));
  }

  lemma ReceiveKeepsInv(s: State, uuid: Uuid, node: Option<NodeView>)
    requires Inv(s) && s.phase.Quiet?
    ensures Inv(Receive(s, uuid, node))
  {
    SideReceives(s.publishers, s.publisherLog, s, uuid, node, Subscriber);
    SideReceives(s.subscribers, s.subscriberLog, s, uuid, node, Publisher);
    TriggerIffChanged(s.discovered, uuid, node);
  }

  /** The flag computed with the map says exactly whether the map changed. */
  lemma TriggerIffChanged(discovered: map<Uuid, NodeView>, uuid: Uuid, node: Option<NodeView>)
    ensures var (updated, trigger) := UpdateMap(discovered, uuid, node);
            trigger <==> updated != discovered
  {
    var (updated, trigger) := UpdateMap(discovered, uuid, node);
    if node.Some? {
      assert updated[uuid] == node.value;
    } else {
      assert uuid !in updated;
    }
  }

  /** The invariant holds after every run. */
  lemma {:induction false} RunKeepsInv(actions: seq<Action>)
    requires Run(actions).Some?
    ensures Inv(Run(actions).value)
  {
    if actions == [] {
      assert SideInv(map[], [], map[], Subscriber, None) && SideInv(map[], [], map[], Publisher, None);
    } else {
      RunKeepsInv(actions[..|actions| - 1]);
      StepKeepsInv(Run(actions[..|actions| - 1]).value, actions[|actions| - 1]);
    }
  }

  // ---------- what the map holds ----------

  predicate IsAbout(a: Action, uuid: Uuid) {
    (a.Announce? || a.Depart?) && a.uuid == uuid
  }

  /** Action `i` announced the node, and nothing was heard from it since. */
  predicate LastAnnounced(actions: seq<Action>, uuid: Uuid, node: NodeView, i: nat) {
    && i < |actions| && actions[i] == Announce(uuid, node)
    && forall j :: i < j < |actions| ==> !IsAbout(actions[j], uuid)
  }

  ghost predicate IsAnnounced(actions: seq<Action>, uuid: Uuid, node: NodeView) {
    exists i: nat :: LastAnnounced(actions, uuid, node, i)
  }

  lemma AnnouncedStep(actions: seq<Action>, uuid: Uuid, node: NodeView)
    requires actions != []
    ensures var last := actions[|actions| - 1];
            IsAnnounced(actions, uuid, node) <==>
            if IsAbout(last, uuid) then last == Announce(uuid, node)
            else IsAnnounced(actions[..|actions| - 1], uuid, node)
  {
    var before, n := actions[..|actions| - 1], |actions| - 1;
    assert forall j :: 0 <= j < n ==> before[j] == actions[j];
    if actions[n] == Announce(uuid, node) {
      assert LastAnnounced(actions, uuid, node, n);
    }
    if i: nat :| LastAnnounced(before, uuid, node, i) && !IsAbout(actions[n], uuid) {
      assert LastAnnounced(actions, uuid, node, i);
    }
    if i: nat :| LastAnnounced(actions, uuid, node, i) && i < n {
      assert LastAnnounced(before, uuid, node, i);
    }
  }

  /** After every run, the map holds a node exactly if the last that was heard from it was an
      announcement, and then what that announced. */
  lemma {:induction false} MapIsLastAnnounced(actions: seq<Action>, uuid: Uuid, node: NodeView)
    requires Run(actions).Some?
    ensures var discovered := Run(actions).value.discovered;
            uuid in discovered && discovered[uuid] == node <==> IsAnnounced(actions, uuid, node)
  {
    hide IsAnnounced;
    if actions == [] {
      NothingAnnounced(uuid, node);
    } else {
      MapIsLastAnnounced(actions[..|actions| - 1], uuid, node);
      AnnouncedStep(actions, uuid, node);
    }
  }

  lemma NothingAnnounced(uuid: Uuid, node: NodeView)
    ensures !IsAnnounced([], uuid, node)
  {
  }

  /** The entry of one node is replaced or, without a new one, removed; the others stay. */
  ghost predicate ReplacesEntry(before: map<Uuid, NodeView>, after: map<Uuid, NodeView>,
                                uuid: Uuid, node: Option<NodeView>) {
    && (node.Some? ==> uuid in after && after[uuid] == node.value)
    && (node.None? ==> uuid !in after)
    && forall u :: u != uuid ==> (u in after <==> u in before) && (u in after ==> after[u] == before[u])
  }

  // ---------- the main results ----------

  /** The cached sets of a side of the node, told about endpoints of kind `kind`. */
  function Index(s: State, kind: EndpointKind): map<nat, Cached> {
    if kind.Subscriber? then s.publishers else s.subscribers
  }

  function Log(s: State, kind: EndpointKind): seq<Event> {
    if kind.Subscriber? then s.publisherLog else s.subscriberLog
  }

  /** After every run, in every phase: a node is in an endpoint's set exactly when it lists the
      topic since an announcement that reached the index after the endpoint's registration. */
  lemma MatchedSetsAreExact(actions: seq<Action>, kind: EndpointKind, id: nat, uuid: Uuid)
    requires Run(actions).Some? && kind in {Subscriber, Publisher} && id in Index(Run(actions).value, kind)
    ensures var s := Run(actions).value;
            var c := Index(s, kind)[id];
            && (uuid in c.matched <==> IntroducedAfterRegistration(Log(s, kind), id, c.topic, uuid))
            && c.count == |c.matched|
  {
    RunKeepsInv(actions);
    MatchedIsIntroducedAfterRegistration(Log(Run(actions).value, kind), id, uuid);
  }

  /** The registrations and removals among the actions, for one side. */
  function EndpointActions(actions: seq<Action>, kind: EndpointKind): seq<Event> {
    if actions == [] then [] else
      EndpointActions(actions[..|actions| - 1], kind) +
        match actions[|actions| - 1]
        case CreatePublisher(id, topic) => if kind.Subscriber? then [Register(id, topic)] else []
        case DestroyPublisher(id) => if kind.Subscriber? then [Unregister(id)] else []
        case CreateSubscriber(id, topic) => if kind.Subscriber? then [] else [Register(id, topic)]
        case DestroySubscriber(id) => if kind.Subscriber? then [] else [Unregister(id)]
        case _ => []
  }

  /** Those in the history of an index. */
  function EndpointEvents(log: seq<Event>): seq<Event> {
    if log == [] then [] else
      var last := log[|log| - 1];
      EndpointEvents(log[..|log| - 1]) + if last.Apply? then [] else [last]
  }

  lemma EventsAppended(log: seq<Event>, e: Event)
    ensures EndpointEvents(log + [e]) == EndpointEvents(log) + if e.Apply? then [] else [e]
  {
    LogExtends(log, e);
  }

  /** The history of an index has exactly the registrations and removals that the run has, in their
      order: publishers are told of subscriptions, and subscriptions of publishers. */
  lemma {:induction false} HistoryFollowsActions(actions: seq<Action>, kind: EndpointKind)
    requires Run(actions).Some? && kind in {Subscriber, Publisher}
    ensures EndpointEvents(Log(Run(actions).value, kind)) == EndpointActions(actions, kind)
  {
    hide EndpointEvents;
    if actions == [] {
      NoEvents();
    } else {
      var before := Run(actions[..|actions| - 1]).value;
      HistoryFollowsActions(actions[..|actions| - 1], kind);
      LogGrowsByOne(before, actions[|actions| - 1], kind);
      var log, after := Log(before, kind), Log(Run(actions).value, kind);
      if |after| > |log| {
        EventsAppended(log, after[|log|]);
      }
      hide Step;
    }
  }

  lemma NoEvents()
    ensures EndpointEvents([]) == []
  {
  }

  lemma LogGrowsByOne(s: State, a: Action, kind: EndpointKind)
    requires Step(s, a).Some?
    ensures var log, after := Log(s, kind), Log(Step(s, a).value, kind);
            after == log || (|after| == |log| + 1 && after == log + [after[|log|]])
  {
  }

  /** The nodes whose current entry lists the topic. */
  function Listing(discovered: map<Uuid, NodeView>, kind: EndpointKind, topic: string): set<Uuid> {
    set uuid | uuid in discovered && topic in Names(discovered[uuid].Topics(kind))
  }

  /** The node's last announcement lists the topic, and it has not departed since. */
  ghost predicate StillLists(actions: seq<Action>, uuid: Uuid, kind: EndpointKind, topic: string) {
    exists node, t :: IsAnnounced(actions, uuid, node) && t in node.Topics(kind) && t.topic == topic
  }

  lemma ListingIsStillLists(actions: seq<Action>, uuid: Uuid, kind: EndpointKind, topic: string)
    requires Run(actions).Some?
    ensures uuid in Listing(Run(actions).value.discovered, kind, topic) <==> StillLists(actions, uuid, kind, topic)
  {
    var discovered := Run(actions).value.discovered;
    if uuid in Listing(discovered, kind, topic) {
      MapIsLastAnnounced(actions, uuid, discovered[uuid]);
      var t :| t in discovered[uuid].Topics(kind) && t.topic == topic;
    }
    if node, t :| IsAnnounced(actions, uuid, node) && t in node.Topics(kind) && t.topic == topic {
      MapIsLastAnnounced(actions, uuid, node);
    }
  }

  ghost predicate RegisteredBeforeContact(log: seq<Event>, id: nat, topic: string) {
    exists r: nat :: Registered(log, id, topic, r) && forall j :: 0 <= j < r ==> !log[j].Apply?
  }

  /** Between callbacks, whatever was lost or repeated before: a set holds only nodes whose current
      entry lists the topic, so no departed node; and for an endpoint registered before any
      announcement it holds all of them, as if it were recomputed from the map. */
  lemma QuietSetsFollowTheMap(actions: seq<Action>, kind: EndpointKind, id: nat)
    requires Run(actions).Some? && Run(actions).value.phase.Quiet?
    requires kind in {Subscriber, Publisher} && id in Index(Run(actions).value, kind)
    ensures var s := Run(actions).value;
            var c := Index(s, kind)[id];
            && c.matched <= Listing(s.discovered, kind, c.topic)
            && (RegisteredBeforeContact(Log(s, kind), id, c.topic) ==>
                  c.matched == Listing(s.discovered, kind, c.topic))
            && forall uuid :: uuid in Listing(s.discovered, kind, c.topic) <==> StillLists(actions, uuid, kind, c.topic)
  {
    forall uuid
      ensures uuid in Listing(Run(actions).value.discovered, kind, Index(Run(actions).value, kind)[id].topic)
         <==> StillLists(actions, uuid, kind, Index(Run(actions).value, kind)[id].topic)
    {
      ListingIsStillLists(actions, uuid, kind, Index(Run(actions).value, kind)[id].topic);
    }
    hide StillLists;
    RunKeepsInv(actions);
    var s := Run(actions).value;
    var log, c := Log(s, kind), Index(s, kind)[id];
    forall uuid
      ensures c.topic in LastApplied(log, uuid) <==> uuid in Listing(s.discovered, kind, c.topic)
    {
      assert LastApplied(log, uuid) == Names(Told(s.discovered, kind, None, uuid));
    }
    forall uuid | uuid in c.matched
      ensures uuid in Listing(s.discovered, kind, c.topic)
    {
      MatchedIsListed(log, id, uuid);
    }
    if r: nat :| Registered(log, id, c.topic, r) && forall j :: 0 <= j < r ==> !log[j].Apply? {
      forall uuid
        ensures uuid in c.matched <==> uuid in Listing(s.discovered, kind, c.topic)
      {
        EarlyEndpointIsComplete(log, id, r, uuid);
      }
    }
  }

  // ---------- counting endpoints over the map ----------

  /** `count_if` over the topics of one node. */
  function CountTopic(topics: seq<Topic>, topic: string): nat {
    if topics == [] then 0 else (if topics[0].topic == topic then 1 else 0) + CountTopic(topics[1..], topic)
  }

  /** `count_subscribers` and `count_publishers`: the sum over all nodes. */
  ghost function CountEndpoints(discovered: map<Uuid, NodeView>, kind: EndpointKind, topic: string): nat
    decreases |discovered|
  {
    if discovered == map[] then 0 else
      var uuid :| uuid in discovered;
      assert (discovered - {uuid}).Keys == discovered.Keys - {uuid};
      CountTopic(discovered[uuid].Topics(kind), topic) + CountEndpoints(discovered - {uuid}, kind, topic)
  }

  /** The positions at which a list of topics has the name. */
  function Positions(topics: seq<Topic>, topic: string): set<nat> {
    set i: nat | i < |topics| && topics[i].topic == topic
  }

  lemma {:induction false} CountLast(topics: seq<Topic>, topic: string)
    requires topics != []
    ensures var n := |topics| - 1;
            CountTopic(topics, topic) == CountTopic(topics[..n], topic) + if topics[n].topic == topic then 1 else 0
    decreases |topics|
  {
    if |topics| > 1 {
      CountLast(topics[1..], topic);
      assert topics[1..][..|topics| - 2] == topics[..|topics| - 1][1..];
    }
  }

  lemma PositionsLast(topics: seq<Topic>, topic: string)
    requires topics != []
    ensures var n := |topics| - 1;
            var now := if topics[n].topic == topic then {n} else {};
            && Positions(topics, topic) == Positions(topics[..n], topic) + now
            && n !in Positions(topics[..n], topic)
  {
  }

  /** Counting gives the number of positions. */
  lemma {:induction false} CountIsPositions(topics: seq<Topic>, topic: string)
    ensures CountTopic(topics, topic) == |Positions(topics, topic)|
    decreases |topics|
  {
    if topics == [] {
      assert Positions(topics, topic) == {};
    } else {
      hide CountTopic, Positions;
      CountIsPositions(topics[..|topics| - 1], topic);
      CountLast(topics, topic);
      PositionsLast(topics, topic);
    }
  }

  /** All endpoints on the topic, each as a node and a position in its list. */
  function EndpointsOn(discovered: map<Uuid, NodeView>, kind: EndpointKind, topic: string): (pairs: set<(Uuid, nat)>)
    ensures forall p :: p in pairs <==>
              && p.0 in discovered && p.1 < |discovered[p.0].Topics(kind)|
              && discovered[p.0].Topics(kind)[p.1].topic == topic
  {
    set uuid, i | uuid in discovered && i in Positions(discovered[uuid].Topics(kind), topic) :: (uuid, i)
  }

  function Paired(uuid: Uuid, s: set<nat>): (pairs: set<(Uuid, nat)>)
    ensures forall p :: p in pairs <==> p.0 == uuid && p.1 in s
  {
    set i | i in s :: (uuid, i)
  }

  lemma {:induction false} PairedCount(uuid: Uuid, s: set<nat>)
    ensures |Paired(uuid, s)| == |s|
    decreases |s|
  {
    hide Paired;
    if s == {} {
      assert Paired(uuid, s) == {};
    } else {
      var x :| x in s;
      PairedCount(uuid, s - {x});
      assert Paired(uuid, s) == Paired(uuid, s - {x}) + {(uuid, x)};
    }
  }

  lemma EndpointsWithout(discovered: map<Uuid, NodeView>, kind: EndpointKind, topic: string, uuid: Uuid)
    requires uuid in discovered
    ensures |EndpointsOn(discovered, kind, topic)|
         == CountTopic(discovered[uuid].Topics(kind), topic) + |EndpointsOn(discovered - {uuid}, kind, topic)|
  {
    hide EndpointsOn, Paired, CountTopic;
    var others := EndpointsOn(discovered - {uuid}, kind, topic);
    var own := Paired(uuid, Positions(discovered[uuid].Topics(kind), topic));
    CountIsPositions(discovered[uuid].Topics(kind), topic);
    PairedCount(uuid, Positions(discovered[uuid].Topics(kind), topic));
    forall p
      ensures p in EndpointsOn(discovered, kind, topic) <==> p in others || p in own
      ensures !(p in others && p in own)
    {
    }
    assert EndpointsOn(discovered, kind, topic) == others + own;
  }

  /** The sum over the map is the number of endpoints on the topic. */
  lemma {:induction false} CountIsEndpoints(discovered: map<Uuid, NodeView>, kind: EndpointKind, topic: string)
    ensures CountEndpoints(discovered, kind, topic) == |EndpointsOn(discovered, kind, topic)|
    decreases |discovered|
  {
    hide EndpointsOn, CountTopic;
    if discovered == map[] {
      assert EndpointsOn(discovered, kind, topic) == {};
    } else {
      var uuid :| uuid in discovered;
      assert (discovered - {uuid}).Keys == discovered.Keys - {uuid};
      CountWithout(discovered, kind, topic, uuid);
      EndpointsWithout(discovered, kind, topic, uuid);
      hide CountEndpoints;
      CountIsEndpoints(discovered - {uuid}, kind, topic);
    }
  }

  /** The sum does not depend on the order of the nodes. */
  lemma {:induction false} CountWithout(discovered: map<Uuid, NodeView>, kind: EndpointKind, topic: string, uuid: Uuid)
    requires uuid in discovered
    ensures CountEndpoints(discovered, kind, topic)
         == CountTopic(discovered[uuid].Topics(kind), topic) + CountEndpoints(discovered - {uuid}, kind, topic)
    decreases |discovered|
  {
    var first :| first in discovered && CountEndpoints(discovered, kind, topic)
      == CountTopic(discovered[first].Topics(kind), topic) + CountEndpoints(discovered - {first}, kind, topic);
    if first != uuid {
      var both := discovered - {first} - {uuid};
      assert both == discovered - {uuid} - {first};
      assert (discovered - {first}).Keys == discovered.Keys - {first};
      assert (discovered - {uuid}).Keys == discovered.Keys - {uuid};
      CountWithout(discovered - {first}, kind, topic, uuid);
      CountWithout(discovered - {uuid}, kind, topic, first);
    }
  }

  lemma {:induction false} ListedCounts(topics: seq<Topic>, topic: string)
    ensures topic in Names(topics) <==> CountTopic(topics, topic) > 0
  {
    if topics != [] {
      ListedCounts(topics[1..], topic);
      assert topics == [topics[0]] + topics[1..];
    }
  }

  /** Nodes listing a topic are no more than endpoints on it. */
  lemma {:induction false} ListingIsBounded(nodes: set<Uuid>, discovered: map<Uuid, NodeView>,
                                            kind: EndpointKind, topic: string)
    requires nodes <= Listing(discovered, kind, topic)
    ensures |nodes| <= CountEndpoints(discovered, kind, topic)
    decreases |nodes|
  {
    if nodes != {} {
      var uuid :| uuid in nodes;
      CountWithout(discovered, kind, topic, uuid);
      ListedCounts(discovered[uuid].Topics(kind), topic);
      ListingIsBounded(nodes - {uuid}, discovered - {uuid}, kind, topic);
    }
  }

  /** Cross-index bound: with no callback in progress, an endpoint's matched count, which counts
      nodes, is at most the count over the map, which counts endpoints. */
  lemma MatchedCountIsBounded(actions: seq<Action>, kind: EndpointKind, id: nat)
    requires Run(actions).Some? && Run(actions).value.phase.Quiet?
    requires kind in {Subscriber, Publisher} && id in Index(Run(actions).value, kind)
    ensures var s := Run(actions).value;
            Index(s, kind)[id].count <= |EndpointsOn(s.discovered, kind, Index(s, kind)[id].topic)|
  {
    CountIsEndpoints(Run(actions).value.discovered, kind, Index(Run(actions).value, kind)[id].topic);
    var s := Run(actions).value;
    QuietSetsFollowTheMap(actions, kind, id);
    MatchedSetsAreExact(actions, kind, id, "");
    ListingIsBounded(Index(s, kind)[id].matched, s.discovered, kind, Index(s, kind)[id].topic);
  }

  /** An index with this log was last told, of every node, the topics its entry in `discovered` lists. */
  ghost predicate ToldAll(log: seq<Event>, discovered: map<Uuid, NodeView>, kind: EndpointKind) {
    forall uuid :: LastApplied(log, uuid) == Names(NodeOf(discovered, uuid).Topics(kind))
  }

  /** Change notification: over every run the graph condition was triggered once per change of the
      map, but for one trigger still owed by the callback in progress; and when it is triggered
      both indexes have been told what the map holds. */
  lemma TriggeredOncePerChange(actions: seq<Action>)
    requires Run(actions).Some?
    ensures var s := Run(actions).value;
            && (s.phase.Quiet? ==> s.triggers == s.changes)
            && s.triggers <= s.changes <= s.triggers + 1
            && (Step(s, Notify).Some? ==>
                  && Step(s, Notify).value.triggers == s.changes
                  && ToldAll(s.publisherLog, s.discovered, Subscriber)
                  && ToldAll(s.subscriberLog, s.discovered, Publisher))
  {
    RunKeepsInv(actions);
    var s := Run(actions).value;
    if Step(s, Notify).Some? {
      forall uuid
        ensures LastApplied(s.publisherLog, uuid) == Names(NodeOf(s.discovered, uuid).Topics(Subscriber))
        ensures LastApplied(s.subscriberLog, uuid) == Names(NodeOf(s.discovered, uuid).Topics(Publisher))
      {
        assert LastApplied(s.publisherLog, uuid) == Names(Told(s.discovered, Subscriber, None, uuid));
        assert LastApplied(s.subscriberLog, uuid) == Names(Told(s.discovered, Publisher, None, uuid));
      }
    }
  }
}
