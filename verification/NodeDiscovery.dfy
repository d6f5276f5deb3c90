/** `NodeListener` and the endpoint indexes it updates, in place.  Each method is one critical
    section of the source and does what the machine of `DiscoveryRuns` does in one step. */
module NodeDiscovery {
  import opened Wrappers
  import opened Cbor
  import opened Discovery
  import opened MatchedSets
  import opened DiscoveryRuns
  import NodePayload

  /** `CustomPublisherInfo` or `CustomSubscriberInfo`: the cached set and its stored size. */
  class EndpointInfo {
    const topic: string
    var matched: set<Uuid>
    var count: nat

    constructor (topic: string)
      ensures this.topic == topic && matched == {} && count == 0
    {
      this.topic := topic;
      matched, count := {}, 0;
    }

    ghost function Cache(): Cached
      reads this
    {
      Cached(topic, matched, count)
    }

    method Erase(uuid: Uuid)
      modifies this
      ensures Cache() == Cached(topic, old(matched) - {uuid}, |old(matched) - {uuid}|)
    {
      matched := matched - {uuid};
      count := |matched|;
    }

    method Insert(uuid: Uuid)
      modifies this
      ensures Cache() == Cached(topic, old(matched) + {uuid}, |old(matched) + {uuid}|)
    {
      matched := matched + {uuid};
      count := |matched|;
    }
  }

  /** `publishers_` or `subscribers_`: the registered endpoints of each topic. */
  class EndpointIndex {
    var byTopic: map<string, set<EndpointInfo>>

    /** Every registered endpoint is filed under its own topic. */
    ghost predicate Valid()
      reads this
    {
      forall t, e :: t in byTopic && e in byTopic[t] ==> e.topic == t
    }

    ghost function Endpoints(): set<EndpointInfo>
      reads this
    {
      set t, e | t in byTopic && e in byTopic[t] :: e
    }

    lemma FiledUnderTopic()
      requires Valid()
      ensures forall e :: e in Endpoints() <==> e.topic in byTopic && e in byTopic[e.topic]
    {
    }

    /** What the machine of `DiscoveryRuns` keeps of this index. */
    ghost function View(): map<EndpointInfo, Cached>
      reads this, Endpoints()
    {
      map e | e in Endpoints() :: e.Cache()
    }

    constructor ()
      ensures Valid() && Endpoints() == {} && View() == map[]
    {
      byTopic := map[];
    }

    /** The last step of creating an endpoint. */
    method Register(info: EndpointInfo)
      requires Valid() && info !in Endpoints() && info.matched == {} && info.count == 0
      modifies this
      ensures Valid() && View() == old(View())[info := Cached(info.topic, {}, 0)]
    {
      FiledUnderTopic();
      var filed := if info.topic in byTopic then byTopic[info.topic] else {};
      byTopic := byTopic[info.topic := filed + {info}];
      FiledUnderTopic();
      assert Endpoints() == old(Endpoints()) + {info};
    }

    /** The first step of destroying an endpoint. */
    method Unregister(info: EndpointInfo)
      requires Valid()
      modifies this
      ensures Valid() && View() == old(View()) - {info}
    {
      FiledUnderTopic();
      var filed := if info.topic in byTopic then byTopic[info.topic] else {};
      byTopic := byTopic[info.topic := filed - {info}];
      FiledUnderTopic();
      assert Endpoints() == old(Endpoints()) - {info};
    }

    /** What an update of the topics `names` does to every endpoint. */
    ghost function Updated(view: map<EndpointInfo, Cached>, names: set<string>,
                               uuid: Uuid, insert: bool): map<EndpointInfo, Cached> {
      ApplyChange(view, uuid, if insert then {} else names, if insert then names else {})
    }

    /** `operator[]` of the map: a topic that was not there is filed, without endpoints. */
    method LookUp(topic: string) returns (infos: set<EndpointInfo>)
      requires Valid()
      modifies this
      ensures Valid() && Endpoints() == old(Endpoints())
      ensures forall e :: e in infos <==> e in Endpoints() && e.topic == topic
    {
      FiledUnderTopic();
      if topic !in byTopic {
        byTopic := byTopic[topic := {}];
      }
      FiledUnderTopic();
      infos := byTopic[topic];
    }

    /** The loop over the endpoints of one topic, erasing or inserting the node. */
    static method UpdateEach(infos: set<EndpointInfo>, uuid: Uuid, insert: bool)
      modifies infos
      ensures forall e :: e in infos ==> e.Cache() == AfterTopic(old(e.Cache()), uuid, insert)
    {
      var todo := infos;
      while todo != {}
        invariant todo <= infos
        invariant forall e :: e in infos ==>
                    e.Cache() == if e in todo then old(e.Cache()) else AfterTopic(old(e.Cache()), uuid, insert)
      {
        var e :| e in todo;
        if insert {
          e.Insert(uuid);
        } else {
          e.Erase(uuid);
        }
        todo := todo - {e};
      }
    }

    static ghost function AfterTopic(c: Cached, uuid: Uuid, insert: bool): Cached {
      var matched := if insert then c.matched + {uuid} else c.matched - {uuid};
      Cached(c.topic, matched, |matched|)
    }

    method UpdateTopic(topic: string, uuid: Uuid, insert: bool)
      requires Valid()
      modifies this, Endpoints()
      ensures Valid() && Endpoints() == old(Endpoints())
      ensures View() == Updated(old(View()), {topic}, uuid, insert)
    {
      var infos := LookUp(topic);
      UpdateEach(infos, uuid, insert);
      forall e | e in Endpoints()
        ensures e.Cache() == Updated(old(View()), {topic}, uuid, insert)[e]
      {
        UpdatedOnce(old(e.Cache()), topic, uuid, insert);
      }
    }

    lemma UpdatedOnce(c: Cached, topic: string, uuid: Uuid, insert: bool)
      ensures Changed(c, uuid, if insert then {} else {topic}, if insert then {topic} else {})
           == if c.topic == topic then AfterTopic(c, uuid, insert) else c
    {
      assert c.matched - {uuid} + {} == c.matched - {uuid};
    }

    lemma UpdatedTwice(view: map<EndpointInfo, Cached>, names: set<string>, topic: string, uuid: Uuid, insert: bool)
      ensures Updated(Updated(view, names, uuid, insert), {topic}, uuid, insert)
         == Updated(view, names + {topic}, uuid, insert)
    {
      forall e | e in view
        ensures Updated(Updated(view, names, uuid, insert), {topic}, uuid, insert)[e]
           == Updated(view, names + {topic}, uuid, insert)[e]
      {
        ChangedTwice(view[e], names, topic, uuid);
      }
    }

    lemma ChangedTwice(c: Cached, names: set<string>, topic: string, uuid: Uuid)
      ensures Changed(Changed(c, uuid, names, {}), uuid, {topic}, {}) == Changed(c, uuid, names + {topic}, {})
      ensures Changed(Changed(c, uuid, {}, names), uuid, {}, {topic}) == Changed(c, uuid, {}, names + {topic})
    {
      var m := c.matched;
      assert m - {uuid} + {} == m - {uuid} && m - {uuid} - {uuid} + {} == m - {uuid};
      assert m + {uuid} + {uuid} == m + {uuid};
    }

    /** The loops over the topics a node no longer lists, and those it lists now. */
    method UpdateTopics(topics: seq<string>, uuid: Uuid, insert: bool)
      requires Valid()
      modifies this, Endpoints()
      ensures Valid() && Endpoints() == old(Endpoints())
      ensures View() == Updated(old(View()), (set t | t in topics), uuid, insert)
    {
      ghost var names := {};
      UpdatedByNothing(View(), uuid, insert);
      for i := 0 to |topics|
        invariant Valid() && Endpoints() == old(Endpoints())
        invariant names == set t | t in topics[..i]
        invariant View() == Updated(old(View()), names, uuid, insert)
      {
        UpdateTopic(topics[i], uuid, insert);
        UpdatedTwice(old(View()), names, topics[i], uuid, insert);
        names := names + {topics[i]};
      }
      assert topics[..|topics|] == topics;
    }

    lemma UpdatedByNothing(view: map<EndpointInfo, Cached>, uuid: Uuid, insert: bool)
      ensures Updated(view, {}, uuid, insert) == view
    {
    }
  }

  /** Erasing for the topics gone and then inserting for those added is the whole change. */
  lemma ErasedThenInserted(index: EndpointIndex, view: map<EndpointInfo, Cached>, uuid: Uuid,
                             removed: set<string>, added: set<string>)
    requires removed !! added
    ensures index.Updated(index.Updated(view, removed, uuid, false), added, uuid, true)
       == ApplyChange(view, uuid, removed, added)
  {
    forall e | e in view
      ensures Changed(Changed(view[e], uuid, removed, {}), uuid, {}, added) == Changed(view[e], uuid, removed, added)
    {
    }
  }

  class NodeListener {
    var discovered: map<Uuid, NodeView>
    const publishers: EndpointIndex
    const subscribers: EndpointIndex
    /** How often the graph guard condition was triggered. */
    var triggers: nat

    ghost predicate Valid()
      reads this, publishers, subscribers
    {
      && publishers != subscribers && publishers.Valid() && subscribers.Valid()
      && publishers.Endpoints() !! subscribers.Endpoints()
    }

    constructor ()
      ensures Valid() && discovered == map[] && triggers == 0
      ensures publishers.View() == map[] && subscribers.View() == map[]
    {
      discovered, triggers := map[], 0;
      publishers := new EndpointIndex();
      subscribers := new EndpointIndex();
    }

    /** The `std::transform` of `topic_difference` into a set of names. */
    static method CollectNames(topics: seq<Topic>) returns (names: set<string>)
      ensures names == Names(topics)
    {
      names := {};
      for i := 0 to |topics|
        invariant names == Names(topics[..i])
      {
        names := names + {topics[i].topic};
        assert topics[..i + 1] == topics[..i] + [topics[i]];
      }
      assert topics[..|topics|] == topics;
    }

    /** `std::set_difference` into a vector. */
    static method Difference(a: set<string>, b: set<string>) returns (names: seq<string>)
      ensures (set t | t in names) == a - b
    {
      names := [];
      var todo := a - b;
      while todo != {}
        invariant (set t | t in names) + todo == a - b
      {
        var t :| t in todo;
        ghost var before := names;
        names := names + [t];
        todo := todo - {t};
        assert (set t | t in names) == (set t | t in before) + {t};
      }
    }

    static method TopicDifference(past: seq<Topic>, now: seq<Topic>) returns (added: seq<string>, removed: seq<string>)
      ensures (set t | t in added) == Names(now) - Names(past)
      ensures (set t | t in removed) == Names(past) - Names(now)
    {
      var pastNames := CollectNames(past);
      var nowNames := CollectNames(now);
      removed := Difference(pastNames, nowNames);
      added := Difference(nowNames, pastNames);
    }

    /** The critical section of the map. */
    method UpdateEntry(uuid: Uuid, node: Option<NodeView>) returns (past: NodeView, now: NodeView, trigger: bool)
      modifies this`discovered
      ensures (discovered, trigger) == UpdateMap(old(discovered), uuid, node)
      ensures past == NodeOf(old(discovered), uuid) && now == NodeOf(discovered, uuid)
      ensures ReplacesEntry(old(discovered), discovered, uuid, node) && trigger == (discovered != old(discovered))
    {
      TriggerIffChanged(discovered, uuid, node);
      past := if uuid in discovered then discovered[uuid] else EMPTY_NODE;
      now := if node.Some? then node.value else EMPTY_NODE;
      if node.Some? {
        if uuid !in discovered {
          discovered := discovered[uuid := node.value];
          trigger := true;
        } else if discovered[uuid] == node.value {
          assert discovered == discovered[uuid := node.value];
          trigger := false;
        } else {
          discovered := discovered[uuid := node.value];
          trigger := true;
        }
      } else {
        trigger := uuid in discovered;
        discovered := discovered - {uuid};
      }
    }

    /** The critical section of one index. */
    static method UpdateIndex(index: EndpointIndex, uuid: Uuid, past: seq<Topic>, now: seq<Topic>)
      requires index.Valid()
      modifies index, index.Endpoints()
      ensures index.Valid() && index.Endpoints() == old(index.Endpoints())
      ensures index.View() == UpdateSide(old(index.View()), uuid, past, now)
    {
      if past != now {
        var added, removed := TopicDifference(past, now);
        index.UpdateTopics(removed, uuid, false);
        index.UpdateTopics(added, uuid, true);
        ErasedThenInserted(index, old(index.View()), uuid, Names(past) - Names(now), Names(now) - Names(past));
      }
    }

    /** Under `publishers_mutex_`. */
    method UpdatePublishers(uuid: Uuid, past: NodeView, now: NodeView)
      requires Valid()
      modifies publishers, publishers.Endpoints()
      ensures Valid() && publishers.Endpoints() == old(publishers.Endpoints())
      ensures publishers.View() == UpdateSide(old(publishers.View()), uuid, past.subscribers, now.subscribers)
      ensures subscribers.View() == old(subscribers.View())
    {
      UpdateIndex(publishers, uuid, past.subscribers, now.subscribers);
    }

    /** Under `subscribers_mutex_`. */
    method UpdateSubscribers(uuid: Uuid, past: NodeView, now: NodeView)
      requires Valid()
      modifies subscribers, subscribers.Endpoints()
      ensures Valid() && subscribers.Endpoints() == old(subscribers.Endpoints())
      ensures subscribers.View() == UpdateSide(old(subscribers.View()), uuid, past.publishers, now.publishers)
      ensures publishers.View() == old(publishers.View())
    {
      UpdateIndex(subscribers, uuid, past.publishers, now.publishers);
    }

    /** The callback after decoding, alone: the machine's four steps in a row. */
    method ApplyAnnouncement(uuid: Uuid, node: Option<NodeView>)
      requires Valid()
      modifies this, publishers, subscribers, publishers.Endpoints(), subscribers.Endpoints()
      ensures Valid() && discovered == UpdateMap(old(discovered), uuid, node).0
      ensures ReplacesEntry(old(discovered), discovered, uuid, node)
      ensures publishers.View() == UpdateSide(old(publishers.View()), uuid,
                NodeOf(old(discovered), uuid).subscribers, NodeOf(discovered, uuid).subscribers)
      ensures subscribers.View() == UpdateSide(old(subscribers.View()), uuid,
                NodeOf(old(discovered), uuid).publishers, NodeOf(discovered, uuid).publishers)
      ensures triggers == old(triggers) + if discovered != old(discovered) then 1 else 0
    {
      hide UpdateSide, UpdateMap, NodeOf, ReplacesEntry;
      var past, now, trigger := UpdateEntry(uuid, node);
      UpdatePublishers(uuid, past, now);
      UpdateSubscribers(uuid, past, now);
      if trigger {
        triggers := triggers + 1;
      }
    }

    /** `onDiscovery`: an announcement, or, without a payload, a departure.  The result is false,
        and nothing changes, where decoding throws. */
    method OnDiscovery(uuid: Uuid, payload: seq<byte>) returns (ok: bool)
      requires Valid()
      modifies this, publishers, subscribers, publishers.Endpoints(), subscribers.Endpoints()
      ensures Valid() && ok == (payload == [] || NodePayload.Receive(payload).Some?)
      ensures ok ==> ReplacesEntry(old(discovered), discovered, uuid, Announced(payload))
      ensures !ok ==> discovered == old(discovered)
      ensures publishers.View() == UpdateSide(old(publishers.View()), uuid,
                NodeOf(old(discovered), uuid).subscribers, NodeOf(discovered, uuid).subscribers)
      ensures subscribers.View() == UpdateSide(old(subscribers.View()), uuid,
                NodeOf(old(discovered), uuid).publishers, NodeOf(discovered, uuid).publishers)
      ensures triggers == old(triggers) + if discovered != old(discovered) then 1 else 0
    {
      var node := None;
      if payload != [] {
        node := NodePayload.ReceiveDiscoveryPayload(payload);
        if node.None? {
          return false;
        }
      }
      ApplyAnnouncement(uuid, node);
      return true;
    }

    static ghost function Announced(payload: seq<byte>): Option<NodeView> {
      if payload == [] then None else NodePayload.Receive(payload)
    }

    /** `std::count_if` over the topics of one node. */
    static method CountMatching(topics: seq<Topic>, topic: string) returns (count: nat)
      ensures count == CountTopic(topics, topic) == |Positions(topics, topic)|
    {
      CountIsPositions(topics, topic);
      count := 0;
      for i := 0 to |topics|
        invariant CountTopic(topics, topic) == count + CountTopic(topics[i..], topic)
      {
        assert topics[i..][0] == topics[i] && topics[i..][1..] == topics[i + 1..];
        count := count + if topics[i].topic == topic then 1 else 0;
      }
    }

    /** `count_subscribers`, `count_publishers` and `count_services`: the nodes are visited in any
        order. */
    method Count(kind: EndpointKind, topic: string) returns (count: nat)
      ensures count == |EndpointsOn(discovered, kind, topic)|
    {
      count := 0;
      var todo := discovered;
      while todo != map[]
        invariant CountEndpoints(discovered, kind, topic) == count + CountEndpoints(todo, kind, topic)
        decreases |todo|
      {
        var uuid :| uuid in todo;
        CountWithout(todo, kind, topic, uuid);
        var matching := CountMatching(todo[uuid].Topics(kind), topic);
        count := count + matching;
        assert (todo - {uuid}).Keys == todo.Keys - {uuid};
        todo := todo - {uuid};
      }
      CountIsEndpoints(discovered, kind, topic);
    }
  }
}
