/** A node's discovery callback and its waiters together: the callback's last step triggers the
    graph guard condition, a source that waits can watch.  What a waiter is told of the changes of
    the map, and what it finds when it then looks. */
module ChangeNotification {
  import opened Wrappers
  import opened Discovery
  import opened MatchedSets
  import Node = DiscoveryRuns
  import Wait = WaitProtocol

  /** `maps` are all versions of the map so far, and `seen` is the version at each event of the
      waits' history.  Both are history. */
  datatype State = State(node: Node.State, waits: Wait.State, maps: seq<map<Uuid, NodeView>>, seen: seq<nat>)

  datatype Action = OfNode(act: Node.Action, caller: nat) | OfWaits(move: Wait.Action)

  function Initial(kinds: seq<bool>): State {
    State(Node.INITIAL, Wait.Initial(kinds), [map[]], [])
  }

  function Recorded(s: State, node: Node.State, waits: Wait.State): State {
    State(node, waits,
          if node.changes > s.node.changes then s.maps + [node.discovered] else s.maps,
          if |waits.log| > |s.waits.log| then s.seen + [s.node.changes] else s.seen)
  }

  predicate Triggers(s: Node.State, a: Node.Action) {
    a.Notify? && s.phase.SubscribersUpdated? && s.phase.trigger
  }

  /** Only the callback triggers the graph condition.  The source's callback returns after the
      trigger; letting the next one start before only adds runs. */
  function Step(graph: Wait.SourceId, s: State, a: Action): Option<State> {
    match a
    case OfWaits(move) =>
      if move.Start? && move.source == graph then None else
        (match Wait.Step(s.waits, move)
         case None => None
         case Some(waits) => Some(Recorded(s, s.node, waits)))
    case OfNode(act, caller) =>
      match Node.Step(s.node, act)
      case None => None
      case Some(node) =>
        if !Triggers(s.node, act) then Some(Recorded(s, node, s.waits)) else
          match Wait.Step(s.waits, Wait.Start(caller, graph, false))
          case None => None
          case Some(waits) => Some(Recorded(s, node, waits))
  }

  function Run(kinds: seq<bool>, graph: Wait.SourceId, actions: seq<Action>): Option<State> {
    if actions == [] then Some(Initial(kinds)) else
      match Run(kinds, graph, actions[..|actions| - 1])
      case None => None
      case Some(s) => Step(graph, s, actions[|actions| - 1])
  }

  // ---------- triggers under way ----------

  function Raises(log: seq<Wait.Event>, graph: Wait.SourceId): nat {
    if log == [] then 0 else
      Raises(log[..|log| - 1], graph) + if log[|log| - 1] == Wait.Raised(graph) then 1 else 0
  }

  /** The calls on the graph condition that have not set its flag yet. */
  function UnderWay(waits: Wait.State, graph: Wait.SourceId): set<nat> {
    set id | id in waits.calls && waits.calls[id].source == graph && BeforeRaise(waits.calls[id].place)
  }

  predicate BeforeRaise(place: Wait.Place) {
    place.Want? || place.Holding? || place.PushFree? || place.WantCond? || place.HaveCond?
  }

  lemma RaisesAppended(log: seq<Wait.Event>, e: Wait.Event, graph: Wait.SourceId)
    ensures Raises(log + [e], graph) == Raises(log, graph) + if e == Wait.Raised(graph) then 1 else 0
  {
    assert (log + [e])[..|log + [e]| - 1] == log;
  }

  /** A call sets the flag when it leaves the places before that. */
  lemma CallRaises(st: Wait.State, id: nat)
    requires Wait.CallStep(st, id).Some?
    ensures var calls := Wait.CallStep(st, id).value.calls;
            id in calls && BeforeRaise(calls[id].place) <==> BeforeRaise(st.calls[id].place) && !Wait.Raises(st, id)
  {
  }

  ghost predicate OneEventAtMost(before: seq<Wait.Event>, after: seq<Wait.Event>) {
    after == before || (|after| == |before| + 1 && after == before + [after[|before|]])
  }

  lemma CallLeaves(st: Wait.State, id: nat, graph: Wait.SourceId)
    requires Wait.CallStep(st, id).Some?
    ensures UnderWay(Wait.CallStep(st, id).value, graph)
         == UnderWay(st, graph) - if Wait.Raises(st, id) && st.calls[id].source == graph then {id} else {}
    ensures Wait.Raises(st, id) && st.calls[id].source == graph ==> id in UnderWay(st, graph)
  {
    Wait.CallFrame(st, id);
    CallRaises(st, id);
    hide Wait.CallStep;
  }

  lemma CallKeepsCount(st: Wait.State, id: nat, graph: Wait.SourceId)
    requires Wait.CallStep(st, id).Some?
    ensures var after := Wait.CallStep(st, id).value;
            && OneEventAtMost(st.log, after.log)
            && Raises(after.log, graph) + |UnderWay(after, graph)| == Raises(st.log, graph) + |UnderWay(st, graph)|
  {
    Wait.CallEffect(st, id);
    CallLeaves(st, id, graph);
    hide Wait.CallStep, UnderWay, Raises;
    var after := Wait.CallStep(st, id).value;
    if |after.log| > |st.log| {
      RaisesAppended(st.log, after.log[|st.log|], graph);
    }
  }

  lemma WaiterKeepsCount(st: Wait.State, graph: Wait.SourceId)
    requires Wait.WaiterStep(st).Some?
    ensures var after := Wait.WaiterStep(st).value;
            && OneEventAtMost(st.log, after.log)
            && Raises(after.log, graph) == Raises(st.log, graph) && UnderWay(after, graph) == UnderWay(st, graph)
  {
    Wait.WaiterFrame(st);
    WaiterReports(st);
    var after := Wait.WaiterStep(st).value;
    hide Wait.WaiterStep;
    if |after.log| > |st.log| {
      RaisesAppended(st.log, after.log[|st.log|], graph);
    }
  }

  lemma WaiterReports(st: Wait.State)
    requires Wait.WaiterStep(st).Some?
    ensures var log := Wait.WaiterStep(st).value.log;
            OneEventAtMost(st.log, log) && (|log| > |st.log| ==> log[|st.log|].Reported?)
  {
  }

  /** Every step keeps the number of flags set and to be set, but for a new call. */
  lemma WaitsKeepCount(st: Wait.State, a: Wait.Action, graph: Wait.SourceId)
    requires Wait.Step(st, a).Some?
    ensures var after := Wait.Step(st, a).value;
            && OneEventAtMost(st.log, after.log)
            && (a.Start? ==> after.log == st.log)
            && Raises(after.log, graph) + |UnderWay(after, graph)|
            == Raises(st.log, graph) + |UnderWay(st, graph)|
               + if a.Start? && a.source == graph && !a.take then 1 else 0
  {
    var after := Wait.Step(st, a).value;
    match a
    case Proceed(id) => CallKeepsCount(st, id, graph);
    case Continue => WaiterKeepsCount(st, graph);
    case Start(id, source, take) =>
      if source == graph && !take {
        assert UnderWay(after, graph) == UnderWay(st, graph) + {id};
      } else {
        assert UnderWay(after, graph) == UnderWay(st, graph);
      }
    case _ => assert UnderWay(after, graph) == UnderWay(st, graph);
  }

  // ---------- the invariant ----------

  ghost predicate MapsInv(s: State) {
    |s.maps| == s.node.changes + 1 && s.maps[s.node.changes] == s.node.discovered
  }

  /** The map `now` is the map `before` but for the entry of one node, which was `past`. */
  ghost predicate Replaced(before: map<Uuid, NodeView>, now: map<Uuid, NodeView>, uuid: Uuid, past: NodeView) {
    forall u :: Node.NodeOf(before, u) == if u == uuid then past else Node.NodeOf(now, u)
  }

  /** While a callback is in progress the entry it has replaced is that of the version before, if
      it has changed anything. */
  ghost predicate PastInv(s: State) {
    var p := s.node.phase;
    p.MapUpdated? || p.PublishersUpdated? ==>
      if p.trigger
      then && 0 < s.node.changes < |s.maps|
           && Replaced(s.maps[s.node.changes - 1], s.node.discovered, p.uuid, p.past)
      else p.past == Node.NodeOf(s.node.discovered, p.uuid)
  }

  /** At event `k` the map had every change whose trigger was raised by then. */
  predicate UpToDate(s: State, graph: Wait.SourceId, k: nat)
    requires k < |s.waits.log| && k < |s.seen|
  {
    Raises(s.waits.log[..k + 1], graph) <= s.seen[k] <= s.node.changes
  }

  ghost predicate SeenInv(s: State, graph: Wait.SourceId) {
    && |s.seen| == |s.waits.log|
    && forall k: nat :: k < |s.seen| ==> UpToDate(s, graph, k)
  }

  ghost predicate Inv(kinds: seq<bool>, graph: Wait.SourceId, s: State) {
    && Node.Inv(s.node) && Wait.Inv(kinds, s.waits)
    && MapsInv(s) && PastInv(s) && SeenInv(s, graph)
    && Raises(s.waits.log, graph) + |UnderWay(s.waits, graph)| == s.node.triggers
  }

  lemma TriggersAtMostChanges(s: Node.State)
    requires Node.Inv(s)
    ensures s.triggers <= s.changes
  {
  }

  /** What a step of the node does to the counters and the map. */
  lemma NodeCounts(s: Node.State, a: Node.Action)
    requires Node.Inv(s) && Node.Step(s, a).Some?
    ensures var after := Node.Step(s, a).value;
            && s.changes <= after.changes <= s.changes + 1
            && (after.changes == s.changes ==> after.discovered == s.discovered)
            && after.triggers == s.triggers + if Triggers(s, a) then 1 else 0
  {
  }

  lemma SeenGrows(s: State, after: State, graph: Wait.SourceId)
    requires SeenInv(s, graph) && OneEventAtMost(s.waits.log, after.waits.log)
    requires after == Recorded(s, after.node, after.waits)
    requires s.node.changes <= after.node.changes && Raises(after.waits.log, graph) <= s.node.changes
    ensures SeenInv(after, graph)
  {
    forall k: nat | k < |after.seen|
      ensures UpToDate(after, graph, k)
    {
      if k < |s.seen| {
        assert UpToDate(s, graph, k);
        assert after.waits.log[..k + 1] == s.waits.log[..k + 1];
      } else {
        assert after.waits.log[..k + 1] == after.waits.log;
      }
    }
  }

  lemma NodeKeepsPast(s: State, a: Node.Action, waits: Wait.State)
    requires Node.Inv(s.node) && MapsInv(s) && PastInv(s) && Node.Step(s.node, a).Some?
    ensures MapsInv(Recorded(s, Node.Step(s.node, a).value, waits))
    ensures PastInv(Recorded(s, Node.Step(s.node, a).value, waits))
  {
    NodeCounts(s.node, a);
    if a.Announce? {
      Node.TriggerIffChanged(s.node.discovered, a.uuid, Some(a.node));
    } else if a.Depart? {
      Node.TriggerIffChanged(s.node.discovered, a.uuid, None);
    }
    hide Node.Inv;
  }

  lemma StepKeepsInv(kinds: seq<bool>, graph: Wait.SourceId, s: State, a: Action)
    requires Inv(kinds, graph, s) && Step(graph, s, a).Some?
    ensures Inv(kinds, graph, Step(graph, s, a).value)
  {
    hide Node.Inv, Wait.Inv, Node.Step, Wait.Step, UnderWay, SeenInv, PastInv, MapsInv, Raises;
    var after := Step(graph, s, a).value;
    TriggersAtMostChanges(s.node);
    match a
    case OfWaits(move) =>
      Wait.StepKeepsInv(kinds, s.waits, move);
      WaitsKeepCount(s.waits, move, graph);
      SeenGrows(s, after, graph);
      SameNode(s, after.waits);
    case OfNode(act, caller) =>
      Node.StepKeepsInv(s.node, act);
      NodeCounts(s.node, act);
      NodeKeepsPast(s, act, after.waits);
      if Triggers(s.node, act) {
        Wait.StepKeepsInv(kinds, s.waits, Wait.Start(caller, graph, false));
        WaitsKeepCount(s.waits, Wait.Start(caller, graph, false), graph);
      }
      SeenGrows(s, after, graph);
  }

  lemma SameNode(s: State, waits: Wait.State)
    requires MapsInv(s) && PastInv(s)
    ensures MapsInv(Recorded(s, s.node, waits)) && PastInv(Recorded(s, s.node, waits))
  {
    hide Replaced;
  }

  lemma {:induction false} RunKeepsInv(kinds: seq<bool>, graph: Wait.SourceId, actions: seq<Action>)
    requires Run(kinds, graph, actions).Some?
    ensures Inv(kinds, graph, Run(kinds, graph, actions).value)
  {
    if actions == [] {
      Wait.RunKeepsInv(kinds, []);
      Node.RunKeepsInv([]);
      assert UnderWay(Wait.Initial(kinds), graph) == {};
    } else {
      var before := actions[..|actions| - 1];
      RunKeepsInv(kinds, graph, before);
      StepKeepsInv(kinds, graph, Run(kinds, graph, before).value, actions[|actions| - 1]);
    }
  }

  // ---------- the main results ----------

  /** At every event of the waits, so at every report, the map has every change whose trigger was
      raised before: a waiter that is told, and then looks, finds them all. */
  lemma ReportsFindTheirChanges(kinds: seq<bool>, graph: Wait.SourceId, actions: seq<Action>, k: nat)
    requires Run(kinds, graph, actions).Some? && k < |Run(kinds, graph, actions).value.waits.log|
    ensures var s := Run(kinds, graph, actions).value;
            && |s.seen| == |s.waits.log| && UpToDate(s, graph, k)
            && |s.maps| == s.node.changes + 1 && s.maps[s.node.changes] == s.node.discovered
  {
    RunKeepsInv(kinds, graph, actions);
  }

  /** And both indexes hold the topics of one version of the map that has them all. */
  lemma IndexesFindTheirChanges(kinds: seq<bool>, graph: Wait.SourceId, actions: seq<Action>, kind: EndpointKind)
    returns (version: nat)
    requires Run(kinds, graph, actions).Some? && kind in {Subscriber, Publisher}
    ensures var s := Run(kinds, graph, actions).value;
            && Raises(s.waits.log, graph) <= version < |s.maps|
            && Node.ToldAll(Node.Log(s.node, kind), s.maps[version], kind)
  {
    hide Wait.Inv, Step;
    RunKeepsInv(kinds, graph, actions);
    TriggersAtMostChanges(Run(kinds, graph, actions).value.node);
    var s := Run(kinds, graph, actions).value;
    var behind := if kind.Subscriber? then Node.PublishersBehind(s.node.phase)
                  else Node.SubscribersBehind(s.node.phase);
    version := if behind.Some? && s.node.phase.trigger then s.node.changes - 1 else s.node.changes;
    forall u
      ensures LastApplied(Node.Log(s.node, kind), u) == Names(Node.NodeOf(s.maps[version], u).Topics(kind))
    {
      assert LastApplied(Node.Log(s.node, kind), u) == Names(Node.Told(s.node.discovered, kind, behind, u));
    }
  }

  /** No change goes unnoticed: when no callback and no trigger is under way and the condition is
      not triggered, then either the map has never changed, or some report has kept the graph
      condition while the map already was what it is now. */
  lemma NoChangeGoesUnnoticed(kinds: seq<bool>, graph: Wait.SourceId, actions: seq<Action>) returns (k: nat)
    requires graph < |kinds| && kinds[graph]
    requires Run(kinds, graph, actions).Some?
    requires var s := Run(kinds, graph, actions).value;
             && s.node.phase.Quiet? && UnderWay(s.waits, graph) == {}
             && graph < |s.waits.sources| && s.waits.sources[graph].pending == 0
    ensures var s := Run(kinds, graph, actions).value;
            s.node.changes == 0 ||
              (&& k < |s.waits.log| && s.waits.log[k] == Wait.Reported(graph, true)
               && k < |s.seen| && s.seen[k] == s.node.changes)
  {
    RunKeepsInv(kinds, graph, actions);
    var s := Run(kinds, graph, actions).value;
    k := 0;
    if s.node.changes > 0 {
      var i := LastRaise(s.waits.log, graph);
      k := KeptAfter(kinds, s.waits, graph, i);
      assert UpToDate(s, graph, k);
      NoMoreRaises(s.waits.log, graph, i, k + 1);
    }
  }

  lemma {:induction false} LastRaise(log: seq<Wait.Event>, graph: Wait.SourceId) returns (i: nat)
    requires Raises(log, graph) > 0
    ensures i < |log| && log[i] == Wait.Raised(graph)
    ensures forall m :: i < m < |log| ==> log[m] != Wait.Raised(graph)
  {
    var last := |log| - 1;
    if log[last] == Wait.Raised(graph) {
      i := last;
    } else {
      i := LastRaise(log[..last], graph);
    }
  }

  lemma {:induction false} NoMoreRaises(log: seq<Wait.Event>, graph: Wait.SourceId, i: nat, k: nat)
    requires i < k <= |log| && forall m :: i < m < |log| ==> log[m] != Wait.Raised(graph)
    ensures Raises(log[..k], graph) == Raises(log, graph)
    decreases |log|
  {
    if k < |log| {
      var before := log[..|log| - 1];
      NoMoreRaises(before, graph, i, k);
      assert before[..k] == log[..k];
    } else {
      assert log[..k] == log;
    }
  }

  /** Some report after a trigger keeps the condition, if it is not triggered any more. */
  lemma KeptAfter(kinds: seq<bool>, st: Wait.State, graph: Wait.SourceId, i: nat) returns (k: nat)
    requires Wait.LogInv(kinds, st) && graph < |kinds| && kinds[graph] && st.sources[graph].pending == 0
    requires i < |st.log| && st.log[i] == Wait.Raised(graph)
    ensures i < k < |st.log| && st.log[k] == Wait.Reported(graph, true)
  {
    var log := st.log;
    assert Wait.Level(true, log[..i], graph) >= 0;
    k := FirstReport(kinds, st, graph, i);
    Wait.RaisedStays(true, log, i, k, graph);
    hide Wait.Level;
    assert log[..|log|] == log;
    if k < |log| {
      assert Wait.Truthful(kinds, log, k);
    }
  }

  /** The first report after event `i`, or the end of the log; only triggers come before it. */
  lemma FirstReport(kinds: seq<bool>, st: Wait.State, graph: Wait.SourceId, i: nat) returns (k: nat)
    requires Wait.LogInv(kinds, st) && graph < |kinds| && kinds[graph] && i < |st.log|
    ensures i < k <= |st.log| && Wait.Untouched(st.log, i, k, graph)
    ensures k < |st.log| ==> st.log[k].Reported? && st.log[k].source == graph
  {
    hide Wait.Level, Wait.Truthful;
    k := i + 1;
    while k < |st.log| && !(st.log[k].Reported? && st.log[k].source == graph)
      invariant i < k <= |st.log| && Wait.Untouched(st.log, i, k, graph)
    {
      k := k + 1;
    }
  }

  // ---------- every push arrives ----------

  /** The calls that push to the source or trigger it. */
  function Pushes(actions: seq<Wait.Action>, s: Wait.SourceId): set<nat> {
    set i: nat | i < |actions| && actions[i].Start? && actions[i].source == s && !actions[i].take
  }

  lemma PushesLast(actions: seq<Wait.Action>, s: Wait.SourceId)
    requires actions != []
    ensures var n := |actions| - 1;
            var now := if actions[n].Start? && actions[n].source == s && !actions[n].take then {n} else {};
            && Pushes(actions, s) == Pushes(actions[..n], s) + now
            && n !in Pushes(actions[..n], s)
  {
  }

  /** Over every run, a source was raised once for every call that pushes to it or triggers it, but
      for the calls that have not come so far yet. */
  lemma {:induction false} EveryPushArrives(kinds: seq<bool>, actions: seq<Wait.Action>, s: Wait.SourceId)
    requires Wait.Run(kinds, actions).Some?
    ensures var st := Wait.Run(kinds, actions).value;
            |Pushes(actions, s)| == Raises(st.log, s) + |UnderWay(st, s)|
  {
    if actions == [] {
      assert UnderWay(Wait.Initial(kinds), s) == {} && Pushes(actions, s) == {};
    } else {
      hide Wait.Step, UnderWay, Raises, Pushes;
      EveryPushArrives(kinds, actions[..|actions| - 1], s);
      PushesLast(actions, s);
      WaitsKeepCount(Wait.Run(kinds, actions[..|actions| - 1]).value, actions[|actions| - 1], s);
    }
  }
}
