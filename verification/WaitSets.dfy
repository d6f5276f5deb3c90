/** The loops of `rmw_wait` over the arrays of a wait set, in place.  A null entry is `None`.
    These methods run alone; `WaitProtocol` interleaves their steps with other threads. */
module WaitSets {
  import opened Wrappers
  import opened Listeners
  import opened WaitProtocol

  type Entries = array<Option<Listener>>
  type Guards = array<Option<GuardCondition>>

  ghost function Members(entries: Entries): set<Listener>
    reads entries
  {
    set e | e in entries[..] && e.Some? :: e.value
  }

  ghost function GuardMembers(guards: Guards): set<GuardCondition>
    reads guards
  {
    set g | g in guards[..] && g.Some? :: g.value
  }

  /** The listeners of the array that have data. */
  ghost function WithData(entries: Entries): set<Listener>
    reads entries, Members(entries)`data
  {
    set l | l in Members(entries) && l.data != []
  }

  /** The guard conditions of the array that are triggered. */
  ghost function Triggered(guards: Guards): set<GuardCondition>
    reads guards, GuardMembers(guards)`hasTriggered
  {
    set g | g in GuardMembers(guards) && g.hasTriggered
  }

  ghost predicate AnyReady(subscriptions: Entries, guards: Guards, services: Entries, clients: Entries)
    reads subscriptions, guards, services, clients
    reads Members(subscriptions)`data, GuardMembers(guards)`hasTriggered, Members(services)`data, Members(clients)`data
  {
    WithData(subscriptions) != {} || WithData(clients) != {} || WithData(services) != {} || Triggered(guards) != {}
  }

  // ---------- the check ----------

  method CheckListeners(entries: Entries) returns (found: bool)
    ensures found <==> WithData(entries) != {}
  {
    for i := 0 to entries.Length
      invariant forall j :: 0 <= j < i && entries[j].Some? ==> entries[j].value.data == []
    {
      if entries[i].Some? {
        var has := entries[i].value.HasData();
        if has {
          assert entries[i] in entries[..] && entries[i].value in WithData(entries);
          return true;
        }
      }
    }
    return false;
  }

  method CheckGuards(guards: Guards) returns (found: bool)
    ensures found <==> Triggered(guards) != {}
  {
    for i := 0 to guards.Length
      invariant forall j :: 0 <= j < i && guards[j].Some? ==> !guards[j].value.hasTriggered
    {
      if guards[i].Some? && guards[i].value.hasTriggered {
        assert guards[i] in guards[..] && guards[i].value in Triggered(guards);
        return true;
      }
    }
    return false;
  }

  /** `check_wait_set_for_data`: looks no further than the first source that has something. */
  method CheckWaitSetForData(subscriptions: Entries, guards: Guards, services: Entries, clients: Entries)
    returns (found: bool)
    ensures found <==> AnyReady(subscriptions, guards, services, clients)
  {
    found := CheckListeners(subscriptions);
    if !found {
      found := CheckListeners(clients);
    }
    if !found {
      found := CheckListeners(services);
    }
    if !found {
      found := CheckGuards(guards);
    }
  }

  // ---------- attaching ----------

  ghost predicate NoNulls<T>(entries: array<Option<T>>)
    reads entries
  {
    forall i :: 0 <= i < entries.Length ==> entries[i].Some?
  }

  method AttachListeners(entries: Entries, waitSet: WaitSet)
    requires NoNulls(entries)
    modifies Members(entries)`condition
    ensures forall l :: l in Members(entries) ==> l.condition == Some(waitSet)
  {
    for i := 0 to entries.Length
      invariant forall j :: 0 <= j < i ==> entries[j].value.condition == Some(waitSet)
    {
      assert entries[i] in entries[..];
      entries[i].value.AttachCondition(waitSet);
    }
  }

  method AttachGuards(guards: Guards, waitSet: WaitSet)
    requires NoNulls(guards)
    modifies GuardMembers(guards)`condition
    ensures forall g :: g in GuardMembers(guards) ==> g.condition == Some(waitSet)
  {
    for i := 0 to guards.Length
      invariant forall j :: 0 <= j < i ==> guards[j].value.condition == Some(waitSet)
    {
      assert guards[i] in guards[..];
      guards[i].value.AttachCondition(waitSet);
    }
  }

  method AttachAll(subscriptions: Entries, guards: Guards, services: Entries, clients: Entries, waitSet: WaitSet)
    requires NoNulls(subscriptions) && NoNulls(guards) && NoNulls(services) && NoNulls(clients)
    modifies Members(subscriptions)`condition, GuardMembers(guards)`condition
    modifies Members(services)`condition, Members(clients)`condition
    ensures forall l :: l in Members(subscriptions) + Members(services) + Members(clients) ==>
                  l.condition == Some(waitSet)
    ensures forall g :: g in GuardMembers(guards) ==> g.condition == Some(waitSet)
  {
    hide NoNulls;
    AttachListeners(subscriptions, waitSet);
    AttachListeners(clients, waitSet);
    AttachListeners(services, waitSet);
    AttachGuards(guards, waitSet);
  }

  // ---------- detaching and filtering ----------

  /** The entries whose listener has data; the others are null. */
  function Kept(was: seq<Option<Listener>>, withData: set<Listener>): (now: seq<Option<Listener>>)
    ensures |now| == |was|
  {
    seq(|was|, i requires 0 <= i < |was| => if was[i].Some? && was[i].value in withData then was[i] else None)
  }

  /** The entries whose guard condition was triggered, unless an earlier entry took its flag. */
  function KeptGuards(was: seq<Option<GuardCondition>>, triggered: set<GuardCondition>):
      (now: seq<Option<GuardCondition>>)
    ensures |now| == |was|
  {
    seq(|was|, i requires 0 <= i < |was| =>
      if was[i].Some? && was[i].value in triggered && was[i] !in was[..i] then was[i] else None)
  }

  lemma KeptExactly(was: seq<Option<Listener>>, withData: set<Listener>)
    ensures forall i :: 0 <= i < |was| && was[i].Some? ==>
              Kept(was, withData)[i] == if was[i].value in withData then was[i] else None
  {
  }

  predicate AnyEntry<T>(entries: seq<Option<T>>) {
    exists i :: 0 <= i < |entries| && entries[i].Some?
  }

  /** Something is kept exactly if some listener of the array has data. */
  lemma KeptIffData(was: seq<Option<Listener>>, withData: set<Listener>)
    requires withData <= set e | e in was && e.Some? :: e.value
    ensures AnyEntry(Kept(was, withData)) <==> withData != {}
  {
    if l :| l in withData {
      var i :| 0 <= i < |was| && was[i] == Some(l);
      assert Kept(was, withData)[i].Some?;
    }
  }

  lemma {:induction false} FirstOccurrence<T>(s: seq<T>, x: T) returns (i: nat)
    requires x in s
    ensures i < |s| && s[i] == x && x !in s[..i]
  {
    if s[0] == x {
      i := 0;
    } else {
      assert s == [s[0]] + s[1..];
      var j := FirstOccurrence(s[1..], x);
      i := j + 1;
      assert s[..i] == [s[0]] + s[1..][..j];
    }
  }

  lemma KeptIffTriggered(was: seq<Option<GuardCondition>>, triggered: set<GuardCondition>)
    requires triggered <= set g | g in was && g.Some? :: g.value
    ensures AnyEntry(KeptGuards(was, triggered)) <==> triggered != {}
  {
    if g :| g in triggered {
      var i := FirstOccurrence(was, Some(g));
      assert KeptGuards(was, triggered)[i].Some?;
    }
  }

  /** Detaches every listener and nulls exactly the entries without data. */
  method FilterListeners(entries: Entries)
    requires NoNulls(entries)
    modifies entries, Members(entries)`condition
    ensures entries[..] == Kept(old(entries[..]), old(WithData(entries)))
    ensures forall i :: 0 <= i < entries.Length ==>
              entries[i] == if old(entries[i].value.data) != [] then old(entries[i]) else None
    ensures forall l :: l in old(Members(entries)) ==> l.condition == None
  {
    ghost var kept := Kept(old(entries[..]), old(WithData(entries)));
    for i := 0 to entries.Length
      invariant entries[i..] == old(entries[i..]) && entries[..i] == kept[..i]
      invariant forall j :: 0 <= j < i ==> old(entries[j].value).condition == None
    {
      assert entries[i] == old(entries[i]) && old(entries[i]) in old(entries[..]);
      entries[i].value.DetachCondition();
      var has := entries[i].value.HasData();
      if !has {
        entries[i] := None;
      }
      assert entries[i] == kept[i];
    }
    KeptExactly(old(entries[..]), old(WithData(entries)));
    assert forall i :: 0 <= i < entries.Length ==> old(entries[i]) in old(entries[..]);
  }

  /** Detaches and clears every guard condition, and nulls the entries whose flag was not set. */
  method FilterGuards(guards: Guards)
    requires NoNulls(guards)
    modifies guards, GuardMembers(guards)
    ensures guards[..] == KeptGuards(old(guards[..]), old(Triggered(guards)))
    ensures forall i :: 0 <= i < guards.Length ==>
              guards[i] == if old(guards[i].value.hasTriggered && guards[i] !in guards[..i])
                           then old(guards[i]) else None
    ensures forall g :: g in old(GuardMembers(guards)) ==> g.condition == None && !g.hasTriggered
  {
    ghost var was, triggered := guards[..], Triggered(guards);
    for i := 0 to guards.Length
      invariant guards[i..] == was[i..] && guards[..i] == KeptGuards(was, triggered)[..i]
      invariant forall g :: g in old(GuardMembers(guards)) ==>
                  if Some(g) in was[..i] then g.condition == None && !g.hasTriggered
                  else g.hasTriggered == (g in triggered)
    {
      assert guards[i] == was[i] && was[i] in was && was[..i + 1] == was[..i] + [was[i]];
      guards[i].value.DetachCondition();
      var triggeredNow := guards[i].value.GetHasTriggered();
      if !triggeredNow {
        guards[i] := None;
      }
      assert guards[i] == KeptGuards(was, triggered)[i];
    }
    forall i | 0 <= i < guards.Length
      ensures guards[i] == if old(guards[i].value.hasTriggered && guards[i] !in guards[..i])
                           then old(guards[i]) else None
    {
      assert guards[..][i] == guards[i] && was[i] in was && was[..i] == old(guards[..i]);
    }
  }

  method FilterAll(subscriptions: Entries, guards: Guards, services: Entries, clients: Entries)
    requires NoNulls(subscriptions) && NoNulls(guards) && NoNulls(services) && NoNulls(clients)
    requires subscriptions != services && subscriptions != clients && services != clients
    modifies subscriptions, guards, services, clients, GuardMembers(guards)
    modifies Members(subscriptions)`condition, Members(services)`condition, Members(clients)`condition
    ensures subscriptions[..] == Kept(old(subscriptions[..]), old(WithData(subscriptions)))
    ensures services[..] == Kept(old(services[..]), old(WithData(services)))
    ensures clients[..] == Kept(old(clients[..]), old(WithData(clients)))
    ensures guards[..] == KeptGuards(old(guards[..]), old(Triggered(guards)))
    ensures forall l :: l in old(Members(subscriptions) + Members(services) + Members(clients)) ==> l.condition == None
    ensures forall g :: g in old(GuardMembers(guards)) ==> g.condition == None && !g.hasTriggered
  {
    hide WithData, Triggered, Kept, KeptGuards;
    FilterListeners(subscriptions);
    FilterListeners(clients);
    FilterListeners(services);
    FilterGuards(guards);
  }

  /** What a wait comes to; one without a timeout that finds nothing is asleep until another thread
      notifies it. */
  datatype Outcome = Ready | TimedOut | Asleep

  /** The part of `rmw_wait` up to unlocking the wait set's mutex, or to falling asleep for good. */
  method AttachAndCheck(subscriptions: Entries, guards: Guards, services: Entries, clients: Entries,
                        waitSet: WaitSet, mode: Mode)
    returns (outcome: Outcome)
    requires NoNulls(subscriptions) && NoNulls(guards) && NoNulls(services) && NoNulls(clients)
    modifies Members(subscriptions)`condition, GuardMembers(guards)`condition
    modifies Members(services)`condition, Members(clients)`condition
    ensures outcome == if old(AnyReady(subscriptions, guards, services, clients)) then Ready
                       else if mode.Forever? then Asleep else TimedOut
    ensures forall l :: l in Members(subscriptions) + Members(services) + Members(clients) ==>
                  l.condition == Some(waitSet)
    ensures forall g :: g in GuardMembers(guards) ==> g.condition == Some(waitSet)
  {
    hide NoNulls, WithData, Triggered;
    AttachAll(subscriptions, guards, services, clients, waitSet);
    var hasData := CheckWaitSetForData(subscriptions, guards, services, clients);
    if hasData {
      return Ready;
    }
    if mode.Poll? {
      return TimedOut;
    }
    var found := CheckWaitSetForData(subscriptions, guards, services, clients);
    outcome := if found then Ready else if mode.Forever? then Asleep else TimedOut;
  }

  /** `rmw_wait` where no other thread runs.  It finds something exactly if something was ready; else
      it times out, or, without a timeout, is left asleep, attached to everything.  When it returns
      some entry is left exactly if something was ready, and nothing is attached or triggered. */
  method RmwWait(subscriptions: Entries, guards: Guards, services: Entries, clients: Entries,
                 waitSet: WaitSet, mode: Mode)
    returns (outcome: Outcome)
    requires NoNulls(subscriptions) && NoNulls(guards) && NoNulls(services) && NoNulls(clients)
    requires subscriptions != services && subscriptions != clients && services != clients
    modifies subscriptions, guards, services, clients, GuardMembers(guards)
    modifies Members(subscriptions)`condition, Members(services)`condition, Members(clients)`condition
    ensures outcome == if old(AnyReady(subscriptions, guards, services, clients)) then Ready
                       else if mode.Forever? then Asleep else TimedOut
    ensures !outcome.Asleep? ==>
      && subscriptions[..] == Kept(old(subscriptions[..]), old(WithData(subscriptions)))
      && services[..] == Kept(old(services[..]), old(WithData(services)))
      && clients[..] == Kept(old(clients[..]), old(WithData(clients)))
      && guards[..] == KeptGuards(old(guards[..]), old(Triggered(guards)))
      && (forall l :: l in old(Members(subscriptions) + Members(services) + Members(clients)) ==> l.condition == None)
      && (forall g :: g in old(GuardMembers(guards)) ==> g.condition == None && !g.hasTriggered)
      && outcome.Ready? == (AnyEntry(subscriptions[..]) || AnyEntry(guards[..])
                            || AnyEntry(services[..]) || AnyEntry(clients[..]))
    ensures outcome.Asleep? ==>
      && subscriptions[..] == old(subscriptions[..]) && services[..] == old(services[..])
      && clients[..] == old(clients[..]) && guards[..] == old(guards[..])
      && (forall l :: l in Members(subscriptions) + Members(services) + Members(clients) ==>
             l.condition == Some(waitSet))
      && (forall g :: g in GuardMembers(guards) ==>
             g.condition == Some(waitSet) && g.hasTriggered == old(g.hasTriggered))
  {
    KeptIffData(subscriptions[..], WithData(subscriptions));
    KeptIffData(services[..], WithData(services));
    KeptIffData(clients[..], WithData(clients));
    KeptIffTriggered(guards[..], Triggered(guards));
    hide Members, GuardMembers, NoNulls, WithData, Triggered, Kept, KeptGuards, AnyEntry;
    outcome := AttachAndCheck(subscriptions, guards, services, clients, waitSet, mode);
    if !outcome.Asleep? {
      FilterAll(subscriptions, guards, services, clients);
    }
  }
}
