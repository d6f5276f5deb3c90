/** The matched-endpoint sets that local publishers and subscriptions cache, maintained
    incrementally from announcements.  First the history of one index, then the node's callback
    as a machine of critical sections that interleave with creating and destroying endpoints. */
module MatchedSets {
  import opened Wrappers
  import opened Discovery

  type Uuid = string

  /** An endpoint's topic, its set of matched nodes and the stored count. */
  datatype Cached = Cached(topic: string, matched: set<Uuid>, count: nat)

  function Names(topics: seq<Topic>): set<string> {
    set t | t in topics :: t.topic
  }

  /** What the two loops over removed and added topics do to one endpoint. */
  function Changed(c: Cached, uuid: Uuid, removed: set<string>, added: set<string>): Cached {
    var matched := (if c.topic in removed then c.matched - {uuid} else c.matched)
                 + (if c.topic in added then {uuid} else {});
    if c.topic in removed || c.topic in added then Cached(c.topic, matched, |matched|) else c
  }

  function ApplyChange<K>(index: map<K, Cached>, uuid: Uuid, removed: set<string>, added: set<string>): map<K, Cached> {
    map k | k in index :: Changed(index[k], uuid, removed, added)
  }

  // ---------- the history of one index ----------

  /** A local endpoint is registered or removed, or an announcement reaches the index, in which
      the node `uuid` lists the topics `names`. */
  datatype Event = Register(id: nat, topic: string)
                 | Unregister(id: nat)
                 | Apply(uuid: Uuid, names: set<string>)

  /** The topics of a node as last applied. */
  function LastApplied(log: seq<Event>, uuid: Uuid): set<string> {
    if log == [] then {} else
      var last := log[|log| - 1];
      if last.Apply? && last.uuid == uuid then last.names else LastApplied(log[..|log| - 1], uuid)
  }

  function IndexAfter(log: seq<Event>): map<nat, Cached> {
    if log == [] then map[] else
      var before := log[..|log| - 1];
      match log[|log| - 1]
      case Register(id, topic) => IndexAfter(before)[id := Cached(topic, {}, 0)]
      case Unregister(id) => IndexAfter(before) - {id}
      case Apply(uuid, names) =>
        var known := LastApplied(before, uuid);
        ApplyChange(IndexAfter(before), uuid, known - names, names - known)
  }

  /** An endpoint's address is not used again before it is destroyed. */
  predicate IsHistory(log: seq<Event>) {
    log == [] ||
      (var last := log[|log| - 1];
       && IsHistory(log[..|log| - 1])
       && (last.Register? ==> last.id !in IndexAfter(log[..|log| - 1])))
  }

  /** Event `r` registered the endpoint, which was not removed since. */
  ghost predicate Registered(log: seq<Event>, id: nat, topic: string, r: nat) {
    && r < |log| && log[r] == Register(id, topic)
    && forall j :: r < j < |log| ==> log[j] != Unregister(id)
  }

  /** Event `i` introduced the topic: the node did not list it before, and has listed it since. */
  ghost predicate Introduced(log: seq<Event>, uuid: Uuid, topic: string, i: nat) {
    && i < |log| && log[i].Apply? && log[i].uuid == uuid && topic in log[i].names
    && topic !in LastApplied(log[..i], uuid)
    && forall j :: i < j < |log| && log[j].Apply? && log[j].uuid == uuid ==> topic in log[j].names
  }

  /** The declarative meaning of membership in a matched set. */
  ghost predicate IntroducedAfterRegistration(log: seq<Event>, id: nat, topic: string, uuid: Uuid) {
    exists r: nat, i: nat :: r < i && Registered(log, id, topic, r) && Introduced(log, uuid, topic, i)
  }

  /** Earlier events are the same in a longer log. */
  lemma PrefixOfPrefix(log: seq<Event>, i: nat)
    requires log != [] && i < |log|
    ensures log[..|log| - 1][..i] == log[..i]
  {
  }

  lemma RegisteredStep(log: seq<Event>, id: nat, topic: string, r: nat)
    requires log != [] && r < |log| - 1
    ensures Registered(log, id, topic, r) <==>
            Registered(log[..|log| - 1], id, topic, r) && log[|log| - 1] != Unregister(id)
  {
    var before := log[..|log| - 1];
    assert forall j :: 0 <= j < |before| ==> before[j] == log[j];
  }

  lemma RegisteredLater(log: seq<Event>, id: nat, topic: string, r: nat)
    requires log != [] && Registered(log[..|log| - 1], id, topic, r) && log[|log| - 1] != Unregister(id)
    ensures r < |log| - 1 && Registered(log, id, topic, r)
  {
    RegisteredStep(log, id, topic, r);
  }

  lemma IntroducedStep(log: seq<Event>, uuid: Uuid, topic: string, i: nat)
    requires log != [] && i < |log| - 1
    ensures Introduced(log, uuid, topic, i) <==>
            var last := log[|log| - 1];
            && Introduced(log[..|log| - 1], uuid, topic, i)
            && (last.Apply? && last.uuid == uuid ==> topic in last.names)
  {
    var before := log[..|log| - 1];
    PrefixOfPrefix(log, i);
    assert forall j :: 0 <= j < |before| ==> before[j] == log[j];
  }

  /** A registered endpoint was registered at some event. */
  lemma {:induction false} RegisteredExists(log: seq<Event>, id: nat) returns (r: nat)
    requires IsHistory(log) && id in IndexAfter(log)
    ensures Registered(log, id, IndexAfter(log)[id].topic, r)
    decreases |log|
  {
    var before, last := log[..|log| - 1], log[|log| - 1];
    if last.Register? && last.id == id {
      r := |log| - 1;
    } else {
      r := RegisteredExists(before, id);
      RegisteredStep(log, id, IndexAfter(log)[id].topic, r);
    }
  }

  /** Only one event can have registered an endpoint that is still registered. */
  lemma {:induction false} RegisteredIsIndexed(log: seq<Event>, id: nat, topic: string, r: nat)
    requires IsHistory(log) && Registered(log, id, topic, r)
    ensures id in IndexAfter(log) && IndexAfter(log)[id].topic == topic
    decreases |log|
  {
    if r < |log| - 1 {
      RegisteredStep(log, id, topic, r);
      RegisteredIsIndexed(log[..|log| - 1], id, topic, r);
    }
  }

  /** A topic a node lists was introduced by some event, and an introduced topic is listed. */
  lemma {:induction false} ListedIsIntroduced(log: seq<Event>, uuid: Uuid, topic: string)
    ensures topic in LastApplied(log, uuid) <==> exists i: nat :: Introduced(log, uuid, topic, i)
    decreases |log|
  {
    if log != [] {
      var before, last := log[..|log| - 1], log[|log| - 1];
      ListedIsIntroduced(before, uuid, topic);
      if topic in LastApplied(log, uuid) {
        if topic in LastApplied(before, uuid) {
          var i: nat :| Introduced(before, uuid, topic, i);
          IntroducedStep(log, uuid, topic, i);
          assert Introduced(log, uuid, topic, i);
        } else {
          assert Introduced(log, uuid, topic, |log| - 1);
        }
      } else if i: nat :| Introduced(log, uuid, topic, i) {
        if i < |log| - 1 {
          IntroducedStep(log, uuid, topic, i);
        }
      }
    }
  }

  /** The condition for membership after one more event, in terms of the condition before it. */
  ghost predicate StillMatched(log: seq<Event>, id: nat, topic: string, uuid: Uuid)
    requires log != []
  {
    var before, last := log[..|log| - 1], log[|log| - 1];
    if last.Apply? && last.uuid == uuid
    then topic in last.names && (topic in LastApplied(before, uuid)
                            ==> IntroducedAfterRegistration(before, id, topic, uuid))
    else IntroducedAfterRegistration(before, id, topic, uuid)
  }

  lemma MatchedWasMatched(log: seq<Event>, id: nat, topic: string, uuid: Uuid)
    requires log != [] && !(log[|log| - 1].Register? && log[|log| - 1].id == id)
    requires IntroducedAfterRegistration(log, id, topic, uuid)
    ensures StillMatched(log, id, topic, uuid)
  {
    var r: nat, i: nat :| r < i && Registered(log, id, topic, r) && Introduced(log, uuid, topic, i);
    RegisteredStep(log, id, topic, r);
    if i < |log| - 1 {
      IntroducedStep(log, uuid, topic, i);
    }
  }

  lemma StillMatchedIsMatched(log: seq<Event>, id: nat, topic: string, uuid: Uuid, r0: nat)
    requires log != [] && r0 < |log| - 1 && Registered(log, id, topic, r0)
    requires StillMatched(log, id, topic, uuid)
    ensures IntroducedAfterRegistration(log, id, topic, uuid)
  {
    var before, last := log[..|log| - 1], log[|log| - 1];
    if IntroducedAfterRegistration(before, id, topic, uuid) {
      var r: nat, i: nat :| r < i && Registered(before, id, topic, r) && Introduced(before, uuid, topic, i);
      RegisteredStep(log, id, topic, r0);
      RegisteredStep(log, id, topic, r);
      IntroducedStep(log, uuid, topic, i);
    } else {
      assert Introduced(log, uuid, topic, |log| - 1);
    }
  }

  /** Incremental matched sets: a node is in an endpoint's cached set exactly when it lists the
      endpoint's topic since an announcement that was applied after the endpoint was registered.
      The stored count is the size of the set. */
  lemma {:induction false} MatchedIsIntroducedAfterRegistration(log: seq<Event>, id: nat, uuid: Uuid)
    requires IsHistory(log) && id in IndexAfter(log)
    ensures var c := IndexAfter(log)[id];
            && (uuid in c.matched <==> IntroducedAfterRegistration(log, id, c.topic, uuid))
            && c.count == |c.matched|
    decreases |log|
  {
    var before, last := log[..|log| - 1], log[|log| - 1];
    if last.Register? && last.id == id {
      if r: nat, i: nat :| r < i && Registered(log, id, last.topic, r) && Introduced(log, uuid, last.topic, i) {
        RegisteredStep(log, id, last.topic, r);
        RegisteredIsIndexed(before, id, last.topic, r);
      }
    } else {
      hide Registered, Introduced;
      var topic := IndexAfter(log)[id].topic;
      MatchedIsIntroducedAfterRegistration(before, id, uuid);
      ListedIsIntroduced(before, uuid, topic);
      if IntroducedAfterRegistration(log, id, topic, uuid) {
        MatchedWasMatched(log, id, topic, uuid);
      }
      if StillMatched(log, id, topic, uuid) {
        var r0 := RegisteredExists(before, id);
        RegisteredLater(log, id, topic, r0);
        StillMatchedIsMatched(log, id, topic, uuid, r0);
      }
    }
  }

  /** No cached set holds a node that does not list the topic. */
  lemma {:induction false} MatchedIsListed(log: seq<Event>, id: nat, uuid: Uuid)
    requires IsHistory(log) && id in IndexAfter(log)
    ensures uuid in IndexAfter(log)[id].matched ==> IndexAfter(log)[id].topic in LastApplied(log, uuid)
  {
    MatchedIsIntroducedAfterRegistration(log, id, uuid);
    ListedIsIntroduced(log, uuid, IndexAfter(log)[id].topic);
  }

  /** For an endpoint registered before any announcement the set is what recomputing it gives. */
  lemma EarlyEndpointIsComplete(log: seq<Event>, id: nat, r: nat, uuid: Uuid)
    requires IsHistory(log) && id in IndexAfter(log) && Registered(log, id, IndexAfter(log)[id].topic, r)
    requires forall j :: 0 <= j < r ==> !log[j].Apply?
    ensures uuid in IndexAfter(log)[id].matched <==> IndexAfter(log)[id].topic in LastApplied(log, uuid)
  {
    var topic := IndexAfter(log)[id].topic;
    MatchedIsIntroducedAfterRegistration(log, id, uuid);
    ListedIsIntroduced(log, uuid, topic);
    if i: nat :| Introduced(log, uuid, topic, i) {
      assert r < i;
    }
  }
}
