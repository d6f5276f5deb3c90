/** What waits and their sources come to, said over the actions of a run and the events of its
    history. */
module WaitRuns {
  import opened Wrappers
  import opened WaitProtocol

  // ---------- timeouts ----------

  /** A sleep was ended by its time, and no wait has begun since. */
  ghost predicate ExpiredSinceBegin(actions: seq<Action>) {
    exists e: nat :: e < |actions| && actions[e].Expire? && forall j :: e < j < |actions| ==> !actions[j].Begin?
  }

  /** The wait has reported that its time is over, or is going to unless it finds something. */
  predicate Overdue(w: Wait) {
    w.mode.Timed? &&
      ((AfterCheck(w.pc) && w.timedOut) || (w.pc.Check? && w.pc.round.Final?) || (w.pc.Wake? && w.pc.expired))
  }

  lemma OverdueBefore(st: State, a: Action)
    requires Step(st, a).Some? && !a.Begin? && !a.Expire? && Overdue(Step(st, a).value.waiter)
    requires ModeInv(st.waiter)
    ensures Overdue(st.waiter)
  {
    if a.Proceed? {
      CallFrame(st, a.id);
      hide CallStep;
    }
  }

  lemma ExpiredStep(actions: seq<Action>)
    requires actions != [] && !actions[|actions| - 1].Begin?
    requires actions[|actions| - 1].Expire? || ExpiredSinceBegin(actions[..|actions| - 1])
    ensures ExpiredSinceBegin(actions)
  {
    var before, last := actions[..|actions| - 1], |actions| - 1;
    var e: nat := last;
    if !actions[last].Expire? {
      e :| e < |before| && before[e].Expire? && forall j :: e < j < |before| ==> !before[j].Begin?;
      assert forall j :: 0 <= j < last ==> before[j] == actions[j];
    }
    assert actions[e].Expire?;
  }

  /** A wait with a positive timeout reports it only if its time has ended a sleep since it began. */
  lemma {:induction false} TimeoutsExpire(kinds: seq<bool>, actions: seq<Action>)
    requires Run(kinds, actions).Some? && Overdue(Run(kinds, actions).value.waiter)
    ensures ExpiredSinceBegin(actions)
  {
    var before, last := actions[..|actions| - 1], actions[|actions| - 1];
    var st := Run(kinds, before).value;
    if !last.Expire? {
      RunKeepsInv(kinds, before);
      OverdueBefore(st, last);
      TimeoutsExpire(kinds, before);
    }
    ExpiredStep(actions);
  }

  /** A wait with a timeout of zero looks at its entries once, and one without a timeout never looks
      for the last time. */
  lemma RoundsOfModes(kinds: seq<bool>, actions: seq<Action>)
    requires Run(kinds, actions).Some? && Run(kinds, actions).value.waiter.pc.Check?
    ensures var w := Run(kinds, actions).value.waiter;
            && (w.mode.Poll? ==> w.pc.round.First?)
            && (w.pc.round.Final? ==> w.mode.Timed?)
  {
    RunKeepsInv(kinds, actions);
  }

  lemma RunThen(kinds: seq<bool>, actions: seq<Action>, a: Action)
    requires Run(kinds, actions).Some?
    ensures Run(kinds, actions + [a]) == Step(Run(kinds, actions).value, a)
  {
    assert (actions + [a])[..|actions + [a]| - 1] == actions;
  }

  /** After a check has found nothing: a wait with a timeout of zero gives up; another one, after its
      first check, evaluates the predicate, and then goes to sleep; and after the time has ended the
      sleep it gives up. */
  lemma RoundsLeadOn(kinds: seq<bool>, actions: seq<Action>)
    requires Run(kinds, actions).Some?
    requires var w := Run(kinds, actions).value.waiter; w.pc.Check? && w.pc.i == |w.entries|
    ensures Run(kinds, actions + [Continue]).Some?
    ensures var w, st := Run(kinds, actions).value.waiter, Run(kinds, actions + [Continue]).value;
            match w.pc.round
            case First =>
              if w.mode.Poll? then st.waiter.pc == Unlock && st.waiter.timedOut
              else st.waiter.pc == Check(0, Predicate) && st.cond == Some(TheWaiter)
            case Predicate => st.waiter.pc == Sleep && st.cond == None
            case Final => st.waiter.pc == Unlock && st.waiter.timedOut
  {
    RunThen(kinds, actions, Continue);
    RunKeepsInv(kinds, actions);
    assert HoldsCond(Run(kinds, actions).value, TheWaiter);
  }

  /** A check that finds something ends the wait without a timeout, in whatever round. */
  lemma FindingEndsTheWait(kinds: seq<bool>, actions: seq<Action>)
    requires Run(kinds, actions).Some?
    requires var st := Run(kinds, actions).value;
             && st.waiter.pc.Check? && Watches(st, st.waiter.pc.i)
             && st.sources[st.waiter.entries[st.waiter.pc.i]].pending > 0
    ensures Run(kinds, actions + [Continue]).Some?
    ensures var st := Run(kinds, actions + [Continue]).value; st.waiter.pc == Unlock && !st.waiter.timedOut
  {
    RunThen(kinds, actions, Continue);
  }

  /** A sleep ends by a notification, a spurious wakeup or, with a positive timeout, its time; the
      waiter then takes the mutex back and looks again, for the last time if its time is over. */
  lemma WakingLooksAgain(kinds: seq<bool>, actions: seq<Action>)
    requires Run(kinds, actions).Some?
    ensures var st := Run(kinds, actions).value;
            && (st.waiter.pc.Sleep? ==>
                  && Run(kinds, actions + [Spurious]) == Some(At(st, Wake(false)))
                  && Run(kinds, actions + [Expire]) == if st.waiter.mode.Timed? then Some(At(st, Wake(true))) else None)
            && (st.waiter.pc.Wake? && st.cond.None? ==>
                  && Run(kinds, actions + [Continue]).Some?
                  && Run(kinds, actions + [Continue]).value.cond == Some(TheWaiter)
                  && Run(kinds, actions + [Continue]).value.waiter.pc
                  == Check(0, if st.waiter.pc.expired then Final else Predicate))
  {
    RunThen(kinds, actions, Spurious);
    RunThen(kinds, actions, Expire);
    RunThen(kinds, actions, Continue);
  }

  // ---------- levels ----------

  function Occurrences(log: seq<Event>, e: Event): set<nat> {
    set k: nat | k < |log| && log[k] == e
  }

  lemma OccurrencesLast(log: seq<Event>, e: Event)
    requires log != []
    ensures var n := |log| - 1;
            && Occurrences(log, e) == Occurrences(log[..n], e) + (if log[n] == e then {n} else {})
            && n !in Occurrences(log[..n], e)
  {
  }

  /** A queue holds what was pushed and not popped. */
  lemma {:induction false} QueueLevel(log: seq<Event>, s: SourceId)
    ensures Level(false, log, s) == |Occurrences(log, Raised(s))| - |Occurrences(log, Popped(s))|
  {
    if log == [] {
      assert Occurrences(log, Raised(s)) == {} && Occurrences(log, Popped(s)) == {};
    } else {
      hide Occurrences;
      QueueLevel(log[..|log| - 1], s);
      OccurrencesLast(log, Raised(s));
      OccurrencesLast(log, Popped(s));
    }
  }

  /** The condition was triggered, and no report has kept it since. */
  ghost predicate Unreported(log: seq<Event>, s: SourceId) {
    exists i: nat :: i < |log| && log[i] == Raised(s) && forall j :: i < j < |log| ==> log[j] != Reported(s, true)
  }

  lemma UnreportedLast(log: seq<Event>, s: SourceId)
    requires log != []
    ensures var last := log[|log| - 1];
            Unreported(log, s) <==> last == Raised(s) || (last != Reported(s, true) && Unreported(log[..|log| - 1], s))
  {
    var before, n := log[..|log| - 1], |log| - 1;
    assert forall j :: 0 <= j < n ==> before[j] == log[j];
    if log[n] == Raised(s) {
      assert Unreported(log, s);
    }
    if Unreported(before, s) && log[n] != Reported(s, true) {
      var i: nat :| i < n && before[i] == Raised(s) && forall j :: i < j < n ==> before[j] != Reported(s, true);
      assert log[i] == Raised(s);
    }
    if Unreported(log, s) && log[n] != Raised(s) {
      var i: nat :| i < |log| && log[i] == Raised(s) && forall j :: i < j < |log| ==> log[j] != Reported(s, true);
      assert before[i] == Raised(s);
    }
  }

  /** A flag is set if it was triggered and not reported. */
  lemma {:induction false} FlagLevel(log: seq<Event>, s: SourceId)
    requires forall k :: 0 <= k < |log| ==> log[k] != Popped(s)
    ensures Level(true, log, s) == if Unreported(log, s) then 1 else 0
  {
    hide Unreported;
    if log == [] {
      NothingUnreported(s);
    } else {
      FlagLevel(log[..|log| - 1], s);
      UnreportedLast(log, s);
    }
  }

  lemma NothingUnreported(s: SourceId)
    ensures !Unreported([], s)
  {
  }

  /** Something is there, by the events alone: more pushes than takes, or a trigger that no report
      has kept. */
  ghost predicate HasSomething(isGuard: bool, log: seq<Event>, s: SourceId) {
    if isGuard then Unreported(log, s) else |Occurrences(log, Raised(s))| > |Occurrences(log, Popped(s))|
  }

  lemma LevelIsHistory(kinds: seq<bool>, st: State, k: nat, s: SourceId)
    requires LogInv(kinds, st) && k <= |st.log| && s < |kinds|
    ensures Level(kinds[s], st.log[..k], s) > 0 <==> HasSomething(kinds[s], st.log[..k], s)
  {
    hide Level, Truthful, Unreported, Occurrences;
    if kinds[s] {
      forall i | 0 <= i < k
        ensures st.log[..k][i] != Popped(s)
      {
        assert st.log[i].Popped? ==> !kinds[st.log[i].source];
      }
      FlagLevel(st.log[..k], s);
    } else {
      QueueLevel(st.log[..k], s);
    }
  }

  /** In every run, over successive waits, a report keeps an entry exactly if its source has
      something by the events before. */
  lemma ReportsFollowEvents(kinds: seq<bool>, actions: seq<Action>, k: nat)
    requires Run(kinds, actions).Some?
    requires k < |Run(kinds, actions).value.log| && Run(kinds, actions).value.log[k].Reported?
    ensures var log := Run(kinds, actions).value.log;
            log[k].source < |kinds| && (log[k].kept <==> HasSomething(kinds[log[k].source], log[..k], log[k].source))
  {
    RunKeepsInv(kinds, actions);
    var st := Run(kinds, actions).value;
    hide HasSomething;
    assert Truthful(kinds, st.log, k);
    LevelIsHistory(kinds, st, k, st.log[k].source);
  }

  /** And in every state a source has something exactly if it has by the events so far; a listener
      has as many messages as were pushed and not taken. */
  lemma PendingFollowsEvents(kinds: seq<bool>, actions: seq<Action>, s: SourceId)
    requires Run(kinds, actions).Some? && s < |kinds|
    ensures var st := Run(kinds, actions).value;
            && s < |st.sources|
            && (st.sources[s].pending > 0 <==> HasSomething(kinds[s], st.log, s))
            && (!kinds[s] ==>
                  st.sources[s].pending == |Occurrences(st.log, Raised(s))| - |Occurrences(st.log, Popped(s))|)
  {
    RunKeepsInv(kinds, actions);
    var st := Run(kinds, actions).value;
    hide HasSomething;
    assert st.log[..|st.log|] == st.log;
    LevelIsHistory(kinds, st, |st.log|, s);
    QueueLevel(st.log, s);
  }

  // ---------- entries and results ----------

  lemma StepKeepsWait(st: State, a: Action)
    requires Step(st, a).Some? && !a.Begin?
    ensures var w := Step(st, a).value.waiter; w.entries == st.waiter.entries && w.mode == st.waiter.mode
  {
    if a.Proceed? {
      CallFrame(st, a.id);
      hide CallStep;
    }
  }

  /** A wait watches the entries it began with, all of them and in their order. */
  lemma {:induction false} WaitIsAsBegun(kinds: seq<bool>, actions: seq<Action>, b: nat)
    requires Run(kinds, actions).Some? && b < |actions| && actions[b].Begin?
    requires forall j :: b < j < |actions| ==> !actions[j].Begin?
    ensures var w := Run(kinds, actions).value.waiter; w.entries == actions[b].entries && w.mode == actions[b].mode
    decreases |actions|
  {
    var before, last := actions[..|actions| - 1], actions[|actions| - 1];
    if b < |actions| - 1 {
      WaitIsAsBegun(kinds, before, b);
      StepKeepsWait(Run(kinds, before).value, last);
    }
  }

  function Reports(log: seq<Event>): seq<Event> {
    if log == [] then [] else
      var last := log[|log| - 1];
      Reports(log[..|log| - 1]) + if last.Reported? then [last] else []
  }

  lemma ReportsAppended(log: seq<Event>, e: Event)
    ensures Reports(log + [e]) == Reports(log) + if e.Reported? then [e] else []
  {
    assert (log + [e])[..|log + [e]| - 1] == log;
  }

  /** The last reports are those of this wait: entry by entry, whether it was kept. */
  predicate KeptInv(w: Wait, reports: seq<Event>) {
    && |w.kept| <= |w.entries| && |w.kept| <= |reports|
    && forall j :: 0 <= j < |w.kept| ==> reports[|reports| - |w.kept| + j] == Reported(w.entries[j], w.kept[j])
  }

  lemma StepReports(st: State, a: Action)
    requires Step(st, a).Some? && WaitInv(st)
    ensures var after := Step(st, a).value;
            if a.Continue? && st.waiter.pc.Filter? then
              && |st.waiter.kept| == st.waiter.pc.i < |st.waiter.entries|
              && after.waiter.entries == st.waiter.entries && |after.waiter.kept| == |st.waiter.kept| + 1
              && after.waiter.kept[..|st.waiter.kept|] == st.waiter.kept
              && after.log
              == st.log + [Reported(st.waiter.entries[st.waiter.pc.i], after.waiter.kept[|st.waiter.kept|])]
            else
              && Reports(after.log) == Reports(st.log)
              && (after.waiter.kept == []
                  || (after.waiter.kept == st.waiter.kept && after.waiter.entries == st.waiter.entries))
  {
    hide Reports;
    var after := Step(st, a).value;
    if a.Proceed? {
      CallFrame(st, a.id);
      CallEffect(st, a.id);
      if after.log != st.log {
        ReportsAppended(st.log, after.log[|st.log|]);
      }
      hide CallStep;
    }
  }

  /** One more report is one more result. */
  lemma KeptGrows(w: Wait, next: Wait, reports: seq<Event>, i: nat)
    requires KeptInv(w, reports) && i == |w.kept| < |w.entries|
    requires next.entries == w.entries && |next.kept| == i + 1 && next.kept[..i] == w.kept
    ensures KeptInv(next, reports + [Reported(w.entries[i], next.kept[i])])
  {
    var more := reports + [Reported(w.entries[i], next.kept[i])];
    forall j | 0 <= j < i + 1
      ensures more[|more| - (i + 1) + j] == Reported(next.entries[j], next.kept[j])
    {
      if j < i {
        assert next.kept[j] == next.kept[..i][j];
      }
    }
  }

  lemma StepKeepsKept(st: State, a: Action)
    requires Step(st, a).Some? && WaitInv(st) && KeptInv(st.waiter, Reports(st.log))
    ensures var after := Step(st, a).value; KeptInv(after.waiter, Reports(after.log))
  {
    StepReports(st, a);
    hide Step, Reports, WaitInv;
    var after := Step(st, a).value;
    if a.Continue? && st.waiter.pc.Filter? {
      var n := |st.waiter.kept|;
      ReportsAppended(st.log, Reported(st.waiter.entries[n], after.waiter.kept[n]));
      KeptGrows(st.waiter, after.waiter, Reports(st.log), n);
    }
  }

  lemma {:induction false} RunKeepsKept(kinds: seq<bool>, actions: seq<Action>)
    requires Run(kinds, actions).Some?
    ensures var st := Run(kinds, actions).value; KeptInv(st.waiter, Reports(st.log))
  {
    hide Reports;
    if actions == [] {
    } else {
      hide Step, KeptInv;
      RunKeepsKept(kinds, actions[..|actions| - 1]);
      RunKeepsInv(kinds, actions[..|actions| - 1]);
      StepKeepsKept(Run(kinds, actions[..|actions| - 1]).value, actions[|actions| - 1]);
    }
  }

  /** When a wait returns, its last reports are one for each entry in order, and an entry is kept in
      its array exactly if its report has kept it. */
  lemma ResultsAreReported(kinds: seq<bool>, actions: seq<Action>)
    requires Run(kinds, actions).Some? && Run(kinds, actions).value.waiter.pc.Out?
    ensures var w, reports := Run(kinds, actions).value.waiter, Reports(Run(kinds, actions).value.log);
            && |w.kept| == |w.entries| <= |reports|
            && forall j :: 0 <= j < |w.entries| ==>
                 reports[|reports| - |w.entries| + j] == Reported(w.entries[j], w.kept[j])
  {
    hide Inv, Reports, Run;
    RunKeepsInv(kinds, actions);
    RunKeepsKept(kinds, actions);
    WaitFits(kinds, Run(kinds, actions).value);
  }

  lemma WaitFits(kinds: seq<bool>, st: State)
    requires Inv(kinds, st) && st.waiter.pc.Out?
    ensures |st.waiter.kept| == |st.waiter.entries|
  {
  }
}
