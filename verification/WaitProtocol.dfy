/** The protocol between a thread in `rmw_wait` and the threads that push to, trigger and take from
    the sources it watches.  Every lock operation, every reading of a source and every change of
    one is a step; the steps of the threads interleave in any order. */
module WaitProtocol {
  import opened Wrappers

  type SourceId = nat

  /** A thread inside `rmw_wait`, or inside a call on one source. */
  datatype Thread = TheWaiter | Caller(id: nat)

  /** A listener with the length of its queue, or a guard condition with its flag as 0 or 1. */
  datatype Source = Source(isGuard: bool, pending: nat, attached: bool, owner: Option<Thread>)

  /** Where a call is: `onPublication` and `trigger` start at Want, `takeNextData` at TakeWant.
      WantCond follows reading a `conditionMutex_` that is not null, PushFree a null one. */
  datatype Place = Want | Holding | PushFree | WantCond | HaveCond | Pushed | Notifying | Releasing
                 | TakeWant | TakeHolding | TakeReleasing

  datatype Call = Call(place: Place, source: SourceId)

  /** No timeout, a positive timeout, a timeout of zero. */
  datatype Mode = Forever | Timed | Poll

  /** The check before waiting, the predicate of `wait` and `wait_for`, and its last evaluation
      when the time is over. */
  datatype Round = First | Predicate | Final

  datatype Pc = Out | Attach(i: nat) | Attaching(i: nat) | Lock | Check(i: nat, round: Round)
              | Sleep | Wake(expired: bool) | Unlock | Detach(i: nat) | Detaching(i: nat) | Filter(i: nat)

  /** The entries of all four arrays in order, and which of them were kept so far. */
  datatype Wait = Wait(pc: Pc, entries: seq<SourceId>, mode: Mode, timedOut: bool, kept: seq<bool>, hitAt: nat)

  datatype Event = Raised(source: SourceId) | Popped(source: SourceId) | Reported(source: SourceId, kept: bool)

  /** `log` and `hitAt`, the length of the log when a check found something, are history. */
  datatype State = State(sources: seq<Source>, cond: Option<Thread>, calls: map<nat, Call>,
                           waiter: Wait, log: seq<Event>)

  datatype Action = Start(id: nat, source: SourceId, take: bool)
                  | Proceed(id: nat)
                  | Begin(entries: seq<SourceId>, mode: Mode)
                  | Continue
                  | Expire
                  | Spurious

  function Initial(kinds: seq<bool>): State {
    State(seq(|kinds|, i requires 0 <= i < |kinds| => Source(kinds[i], 0, false, None)), None, map[],
          Wait(Out, [], Poll, true, [], 0), [])
  }

  // ---------- the steps of a call ----------

  function Moved(st: State, id: nat, place: Place): State
    requires id in st.calls
  {
    st.(calls := st.calls[id := st.calls[id].(place := place)])
  }

  function WithSource(st: State, s: SourceId, source: Source): State
    requires s < |st.sources|
  {
    st.(sources := st.sources[s := source])
  }

  /** `data_.push` or `hasTriggered_ = true`. */
  function Raise(st: State, s: SourceId): State
    requires s < |st.sources|
  {
    var source := st.sources[s];
    WithSource(st, s, source.(pending := if source.isGuard then 1 else source.pending + 1))
      .(log := st.log + [Raised(s)])
  }

  function Pop(st: State, s: SourceId): State
    requires s < |st.sources|
  {
    var source := st.sources[s];
    if source.pending == 0 then st else
      WithSource(st, s, source.(pending := source.pending - 1)).(log := st.log + [Popped(s)])
  }

  function CallStep(st: State, id: nat): Option<State> {
    if id !in st.calls || st.calls[id].source >= |st.sources| then None else
      var s := st.calls[id].source;
      var source := st.sources[s];
      match st.calls[id].place
      case Want | TakeWant =>
        if source.owner.Some? then None else
          Some(Moved(WithSource(st, s, source.(owner := Some(Caller(id)))), id,
                     if st.calls[id].place.Want? then Holding else TakeHolding))
      case Holding => Some(Moved(st, id, if source.attached then WantCond else PushFree))
      case PushFree => Some(Moved(Raise(st, s), id, Releasing))
      case WantCond => if st.cond.Some? then None else Some(Moved(st, id, HaveCond).(cond := Some(Caller(id))))
      case HaveCond => Some(Moved(Raise(st, s), id, Pushed))
      case Pushed => Some(Moved(st, id, Notifying).(cond := None))
      case Notifying => Some(Moved(Woken(st), id, Releasing))
      case TakeHolding => Some(Moved(Pop(st, s), id, TakeReleasing))
      case Releasing | TakeReleasing => Some(WithSource(st, s, source.(owner := None)).(calls := st.calls - {id}))
  }

  /** `notify_one`. */
  function Woken(st: State): State {
    if st.waiter.pc.Sleep? then At(st, Wake(false)) else st
  }

  // ---------- the steps of the waiter ----------

  function At(st: State, pc: Pc): State {
    st.(waiter := st.waiter.(pc := pc))
  }

  function NothingFound(st: State, round: Round): State {
    match round
    case First => if st.waiter.mode.Poll? then GaveUp(st) else At(st, Check(0, Predicate))
    case Predicate => At(st, Sleep).(cond := None)
    case Final => GaveUp(st)
  }

  function GaveUp(st: State): State {
    st.(waiter := st.waiter.(pc := Unlock, timedOut := true))
  }

  function Found(st: State): State {
    st.(waiter := st.waiter.(pc := Unlock, timedOut := false, hitAt := |st.log|))
  }

  /** `hasData`, or the exchange of `getHasTriggered`, and nulling the entry if it is false. */
  function Filtered(st: State, i: nat): State
    requires i < |st.waiter.entries| && st.waiter.entries[i] < |st.sources|
  {
    var s := st.waiter.entries[i];
    var source := st.sources[s];
    var kept := source.pending > 0;
    WithSource(st, s, if source.isGuard then source.(pending := 0) else source)
      .(waiter := st.waiter.(pc := Detach(i + 1), kept := st.waiter.kept + [kept]),
        log := st.log + [Reported(s, kept)])
  }

  predicate Watches(st: State, i: nat) {
    i < |st.waiter.entries| && st.waiter.entries[i] < |st.sources|
  }

  function WaiterStep(st: State): Option<State> {
    var w := st.waiter;
    match w.pc
    case Out | Sleep => None
    case Attach(i) =>
      if i == |w.entries| then Some(At(st, Lock)) else LockEntry(st, i, Attaching(i))
    case Attaching(i) => UnlockEntry(st, i, true, Attach(i + 1))
    case Lock => if st.cond.Some? then None else Some(At(st, Check(0, First)).(cond := Some(TheWaiter)))
    case Check(i, round) =>
      if i >= |w.entries| then Some(NothingFound(st, round))
      else if !Watches(st, i) then None
      else if st.sources[w.entries[i]].pending > 0 then Some(Found(st))
      else Some(At(st, Check(i + 1, round)))
    case Wake(expired) =>
      if st.cond.Some? then None else
        Some(At(st, Check(0, if expired then Final else Predicate)).(cond := Some(TheWaiter)))
    case Unlock => Some(At(st, Detach(0)).(cond := None))
    case Detach(i) =>
      if i == |w.entries| then Some(At(st, Out)) else LockEntry(st, i, Detaching(i))
    case Detaching(i) => UnlockEntry(st, i, false, Filter(i))
    case Filter(i) => if Watches(st, i) then Some(Filtered(st, i)) else None
  }

  function LockEntry(st: State, i: nat, pc: Pc): Option<State> {
    if !Watches(st, i) then None else
      var s := st.waiter.entries[i];
      if st.sources[s].owner.Some? then None else
        Some(At(WithSource(st, s, st.sources[s].(owner := Some(TheWaiter))), pc))
  }

  function UnlockEntry(st: State, i: nat, attached: bool, pc: Pc): Option<State> {
    if !Watches(st, i) then None else
      var s := st.waiter.entries[i];
      Some(At(WithSource(st, s, st.sources[s].(attached := attached, owner := None)), pc))
  }

  // ---------- runs ----------

  function Step(st: State, a: Action): Option<State> {
    match a
    case Start(id, s, take) =>
      if id in st.calls || s >= |st.sources| || (take && st.sources[s].isGuard) then None else
        Some(st.(calls := st.calls[id := Call(if take then TakeWant else Want, s)]))
    case Proceed(id) => CallStep(st, id)
    case Begin(entries, mode) =>
      if st.waiter.pc.Out? && forall i :: 0 <= i < |entries| ==> entries[i] < |st.sources|
      then Some(st.(waiter := Wait(Attach(0), entries, mode, true, [], 0))) else None
    case Continue => WaiterStep(st)
    case Expire => if st.waiter.pc.Sleep? && st.waiter.mode.Timed? then Some(At(st, Wake(true))) else None
    case Spurious => if st.waiter.pc.Sleep? then Some(At(st, Wake(false))) else None
  }

  function Run(kinds: seq<bool>, actions: seq<Action>): Option<State> {
    if actions == [] then Some(Initial(kinds)) else
      match Run(kinds, actions[..|actions| - 1])
      case None => None
      case Some(st) => Step(st, actions[|actions| - 1])
  }

  // ---------- the invariant: locks ----------

  predicate InsideSource(place: Place) {
    !place.Want? && !place.TakeWant?
  }

  /** The thread holds the internal mutex of the source. */
  predicate HoldsSource(st: State, t: Thread, s: SourceId) {
    match t
    case TheWaiter =>
      && (st.waiter.pc.Attaching? || st.waiter.pc.Detaching?)
      && st.waiter.pc.i < |st.waiter.entries| && st.waiter.entries[st.waiter.pc.i] == s
    case Caller(id) => id in st.calls && st.calls[id].source == s && InsideSource(st.calls[id].place)
  }

  /** The thread holds the wait set's mutex. */
  predicate HoldsCond(st: State, t: Thread) {
    match t
    case TheWaiter => st.waiter.pc.Check? || st.waiter.pc.Unlock?
    case Caller(id) => id in st.calls && (st.calls[id].place.HaveCond? || st.calls[id].place.Pushed?)
  }

  ghost predicate OwnersInv(st: State) {
    forall s: SourceId, t :: s < |st.sources| ==> (st.sources[s].owner == Some(t) <==> HoldsSource(st, t, s))
  }

  ghost predicate CondInv(st: State) {
    forall t :: st.cond == Some(t) <==> HoldsCond(st, t)
  }

  predicate Taking(place: Place) {
    place.TakeWant? || place.TakeHolding? || place.TakeReleasing?
  }

  /** Indices and results fit the entries. */
  predicate WaitInv(st: State) {
    var w := st.waiter;
    var n := |w.entries|;
    && (forall i :: 0 <= i < n ==> w.entries[i] < |st.sources|)
    && (match w.pc
        case Out => |w.kept| == n
        case Attach(i) => i <= n && w.kept == []
        case Attaching(i) => i < n && w.kept == []
        case Check(i, _) => i <= n && w.kept == []
        case Detach(i) => i <= n && |w.kept| == i
        case Detaching(i) => i < n && |w.kept| == i
        case Filter(i) => i < n && |w.kept| == i
        case _ => w.kept == [])
    && (forall id :: id in st.calls ==> st.calls[id].source < |st.sources|)
    && (forall id :: id in st.calls && Taking(st.calls[id].place) ==> !st.sources[st.calls[id].source].isGuard)
  }

  lemma CallFrameSources(st: State, id: nat)
    requires CallStep(st, id).Some?
    ensures var after, s := CallStep(st, id).value, st.calls[id].source;
            && s < |st.sources| && |after.sources| == |st.sources|
            && after.sources == st.sources[s := after.sources[s]]
            && after.sources[s].attached == st.sources[s].attached
            && after.sources[s].isGuard == st.sources[s].isGuard
  {
  }

  /** A step of a call changes its own place, its own source, and the waiter only by waking it. */
  lemma CallFrame(st: State, id: nat)
    requires CallStep(st, id).Some?
    ensures var after, s := CallStep(st, id).value, st.calls[id].source;
            && s < |st.sources| && |after.sources| == |st.sources|
            && (forall r: SourceId :: r < |st.sources| && r != s ==> after.sources[r] == st.sources[r])
            && (forall r: SourceId :: r < |st.sources| ==> after.sources[r].attached == st.sources[r].attached)
            && (forall r: SourceId :: r < |st.sources| ==> after.sources[r].isGuard == st.sources[r].isGuard)
            && (forall k :: k != id ==> (k in after.calls <==> k in st.calls))
            && (forall k :: k != id && k in st.calls ==> after.calls[k] == st.calls[k])
            && (id in after.calls ==> after.calls[id].source == s)
            && (id in after.calls ==> Taking(after.calls[id].place) == Taking(st.calls[id].place))
            && after.waiter == (if st.calls[id].place.Notifying? then Woken(st).waiter else st.waiter)
  {
    CallFrameSources(st, id);
    CallFrameCalls(st, id);
    hide CallStep;
  }

  lemma CallFrameCalls(st: State, id: nat)
    requires CallStep(st, id).Some?
    ensures id in st.calls
    ensures var after, call := CallStep(st, id).value, st.calls[id];
            && (after.calls == st.calls - {id} || exists place ::
                 Taking(place) == Taking(call.place) && after.calls == st.calls[id := call.(place := place)])
            && after.waiter == (if st.calls[id].place.Notifying? then Woken(st).waiter else st.waiter)
  {
  }

  /** The internal mutex is taken at the first step of a call, and released at its last. */
  lemma CallLocks(st: State, id: nat)
    requires CallStep(st, id).Some?
    ensures var after, s, place := CallStep(st, id).value, st.calls[id].source, st.calls[id].place;
            && (!InsideSource(place) ==> st.sources[s].owner.None? && after.sources[s].owner == Some(Caller(id)))
            && (place.Releasing? || place.TakeReleasing? ==> after.sources[s].owner == None && id !in after.calls)
            && (InsideSource(place) && !place.Releasing? && !place.TakeReleasing? ==>
                   after.sources[s].owner == st.sources[s].owner)
            && (id in after.calls <==> !place.Releasing? && !place.TakeReleasing?)
            && (id in after.calls ==> InsideSource(after.calls[id].place))
  {
  }

  lemma CallKeepsOwners(st: State, id: nat)
    requires OwnersInv(st) && CallStep(st, id).Some?
    ensures OwnersInv(CallStep(st, id).value)
  {
    CallFrame(st, id);
    CallLocks(st, id);
    hide CallStep;
    var s, after := st.calls[id].source, CallStep(st, id).value;
    assert HoldsSource(st, Caller(id), s) <==> InsideSource(st.calls[id].place);
    forall r: SourceId, t | r < |st.sources|
      ensures after.sources[r].owner == Some(t) <==> HoldsSource(after, t, r)
    {
      assert st.sources[r].owner == Some(t) <==> HoldsSource(st, t, r);
    }
  }

  lemma CallKeepsCond(st: State, id: nat)
    requires CondInv(st) && CallStep(st, id).Some?
    ensures CondInv(CallStep(st, id).value)
  {
    var after := CallStep(st, id).value;
    assert HoldsCond(st, Caller(id)) ==> st.cond == Some(Caller(id));
    forall t
      ensures after.cond == Some(t) <==> HoldsCond(after, t)
    {
      assert st.cond == Some(t) <==> HoldsCond(st, t);
    }
  }

  lemma CallKeepsWait(st: State, id: nat)
    requires WaitInv(st) && CallStep(st, id).Some?
    ensures WaitInv(CallStep(st, id).value)
  {
    CallFrame(st, id);
    hide CallStep;
  }

  /** The waiter is at the entry of this source, attaching or detaching it. */
  predicate Current(st: State, s: SourceId) {
    && (st.waiter.pc.Attach? || st.waiter.pc.Attaching? || st.waiter.pc.Detach? || st.waiter.pc.Detaching?)
    && Watches(st, st.waiter.pc.i) && st.waiter.entries[st.waiter.pc.i] == s
  }

  /** A step of the waiter attaches, detaches, locks and unlocks only the source of its entry. */
  lemma WaiterFrame(st: State)
    requires WaiterStep(st).Some?
    ensures var after := WaiterStep(st).value;
            && after.calls == st.calls && |after.sources| == |st.sources| && after.waiter.entries == st.waiter.entries
            && forall s: SourceId :: s < |st.sources| ==>
                 && after.sources[s].isGuard == st.sources[s].isGuard
                 && after.sources[s].attached == AttachedAfter(st, s)
  {
  }

  predicate AttachedAfter(st: State, s: SourceId)
    requires s < |st.sources|
  {
    if Current(st, s) && st.waiter.pc.Attaching? then true
    else if Current(st, s) && st.waiter.pc.Detaching? then false
    else st.sources[s].attached
  }

  function OwnerAfter(st: State, s: SourceId): Option<Thread>
    requires s < |st.sources|
  {
    if !Current(st, s) then st.sources[s].owner
    else if st.waiter.pc.Attach? || st.waiter.pc.Detach? then Some(TheWaiter)
    else None
  }

  lemma WaiterLocks(st: State)
    requires WaiterStep(st).Some?
    ensures var after := WaiterStep(st).value;
            && |after.sources| == |st.sources|
            && forall s: SourceId :: s < |st.sources| ==>
                 && after.sources[s].owner == OwnerAfter(st, s)
                 && (HoldsSource(after, TheWaiter, s) <==>
                        Current(st, s) && (st.waiter.pc.Attach? || st.waiter.pc.Detach?))
                 && (Current(st, s) && (st.waiter.pc.Attach? || st.waiter.pc.Detach?) ==> st.sources[s].owner.None?)
  {
  }

  lemma WaiterKeepsOwners(st: State)
    requires OwnersInv(st) && WaitInv(st) && WaiterStep(st).Some?
    ensures OwnersInv(WaiterStep(st).value)
  {
    WaiterFrame(st);
    WaiterLocks(st);
    hide WaiterStep;
    var after := WaiterStep(st).value;
    forall r: SourceId, t | r < |st.sources|
      ensures after.sources[r].owner == Some(t) <==> HoldsSource(after, t, r)
    {
      assert st.sources[r].owner == Some(t) <==> HoldsSource(st, t, r);
      assert HoldsSource(st, TheWaiter, r) <==> Current(st, r) && !st.waiter.pc.Attach? && !st.waiter.pc.Detach?;
      assert HoldsSource(st, TheWaiter, r) ==> st.sources[r].owner == Some(TheWaiter);
    }
  }

  lemma WaiterKeepsCond(st: State)
    requires CondInv(st) && WaiterStep(st).Some?
    ensures CondInv(WaiterStep(st).value)
  {
    var after := WaiterStep(st).value;
    assert HoldsCond(st, TheWaiter) ==> st.cond == Some(TheWaiter);
    forall t
      ensures after.cond == Some(t) <==> HoldsCond(after, t)
    {
      assert st.cond == Some(t) <==> HoldsCond(st, t);
    }
  }

  lemma WaiterKeepsWait(st: State)
    requires WaitInv(st) && WaiterStep(st).Some?
    ensures WaitInv(WaiterStep(st).value)
  {
    WaiterFrame(st);
  }

  // ---------- the invariant: who is attached ----------

  /** The call has read a `conditionMutex_` that is not null, and not finished with it. */
  predicate Announcing(place: Place) {
    place.WantCond? || place.HaveCond? || place.Pushed? || place.Notifying?
  }

  /** The source is attached at this point of the wait: it was passed while attaching, or not yet
      reached while detaching.  A source may be listed more than once. */
  predicate AttachedNow(w: Wait, s: SourceId) {
    var n := |w.entries|;
    match w.pc
    case Out => false
    case Attach(i) => i <= n && s in w.entries[..i]
    case Attaching(i) => i <= n && s in w.entries[..i]
    case Detach(i) => i <= n && s in w.entries && s !in w.entries[..i]
    case Detaching(i) => i <= n && s in w.entries && s !in w.entries[..i]
    case Filter(i) => i < n && s in w.entries && s !in w.entries[..i + 1]
    case _ => s in w.entries
  }

  ghost predicate AttachedInv(st: State) {
    forall s: SourceId :: s < |st.sources| ==> st.sources[s].attached == AttachedNow(st.waiter, s)
  }

  predicate CallInv(st: State, id: nat)
    requires id in st.calls && st.calls[id].source < |st.sources|
  {
    && (Announcing(st.calls[id].place) ==> st.sources[st.calls[id].source].attached)
    && (st.calls[id].place.PushFree? ==> !st.sources[st.calls[id].source].attached)
  }

  ghost predicate CallsInv(st: State) {
    forall id :: id in st.calls && st.calls[id].source < |st.sources| ==> CallInv(st, id)
  }

  lemma CallKeepsAttached(st: State, id: nat)
    requires AttachedInv(st) && CallStep(st, id).Some?
    ensures AttachedInv(CallStep(st, id).value)
  {
    CallFrame(st, id);
    hide CallStep;
    var after := CallStep(st, id).value;
    assert forall s :: AttachedNow(after.waiter, s) == AttachedNow(st.waiter, s);
  }

  lemma OwnCallInv(st: State, id: nat)
    requires CallStep(st, id).Some? && CallInv(st, id) && id in CallStep(st, id).value.calls
    requires CallStep(st, id).value.calls[id].source == st.calls[id].source
         && |CallStep(st, id).value.sources| == |st.sources|
    ensures CallInv(CallStep(st, id).value, id)
  {
  }

  lemma CallKeepsCalls(st: State, id: nat)
    requires CallsInv(st) && CallStep(st, id).Some?
    ensures CallsInv(CallStep(st, id).value)
  {
    CallFrame(st, id);
    var after := CallStep(st, id).value;
    if id in after.calls {
      OwnCallInv(st, id);
    }
    hide CallStep;
    forall k | k in after.calls && after.calls[k].source < |after.sources|
      ensures CallInv(after, k)
    {
      assert k in st.calls && CallInv(st, k);
    }
  }

  /** Where the waiter can be after one step. */
  predicate Follows(w: Wait, next: Pc) {
    match w.pc
    case Out | Sleep => false
    case Attach(i) => next == if i == |w.entries| then Lock else Attaching(i)
    case Attaching(i) => next == Attach(i + 1)
    case Lock | Wake(_) => next.Check?
    case Check(_, _) => next.Check? || next.Sleep? || next.Unlock?
    case Unlock => next == Detach(0)
    case Detach(i) => next == if i == |w.entries| then Out else Detaching(i)
    case Detaching(i) => next == Filter(i)
    case Filter(i) => next == Detach(i + 1)
  }

  lemma WaiterFollows(st: State)
    requires WaiterStep(st).Some?
    ensures Follows(st.waiter, WaiterStep(st).value.waiter.pc)
  {
  }

  /** What one step of the waiter does to the attachment of a source. */
  lemma AttachedStep(st: State, s: SourceId)
    requires WaitInv(st) && WaiterStep(st).Some?
    ensures AttachedNow(WaiterStep(st).value.waiter, s) <==>
            if Current(st, s) && st.waiter.pc.Attaching? then true
            else AttachedNow(st.waiter, s) && !(Current(st, s) && st.waiter.pc.Detaching?)
  {
    WaiterFrame(st);
    WaiterFollows(st);
    hide WaiterStep;
    var w := st.waiter;
    if w.pc.Attaching? || w.pc.Detaching? {
      assert w.entries[..w.pc.i + 1] == w.entries[..w.pc.i] + [w.entries[w.pc.i]];
    }
    assert w.entries[..|w.entries|] == w.entries;
  }

  lemma WaiterKeepsAttached(st: State)
    requires AttachedInv(st) && WaitInv(st) && WaiterStep(st).Some?
    ensures AttachedInv(WaiterStep(st).value)
  {
    WaiterFrame(st);
    var after := WaiterStep(st).value;
    forall s: SourceId | s < |st.sources|
      ensures after.sources[s].attached == AttachedNow(after.waiter, s)
    {
      AttachedStep(st, s);
      hide WaiterStep, AttachedNow;
    }
  }

  lemma WaiterKeepsCalls(st: State)
    requires CallsInv(st) && OwnersInv(st) && WaitInv(st) && WaiterStep(st).Some?
    ensures CallsInv(WaiterStep(st).value)
  {
    WaiterFrame(st);
    hide WaiterStep;
    var after, w := WaiterStep(st).value, st.waiter;
    forall id | id in st.calls && st.calls[id].source < |st.sources|
      ensures CallInv(after, id)
    {
      assert CallInv(st, id);
      var s := st.calls[id].source;
      assert HoldsSource(st, TheWaiter, s) ==> st.sources[s].owner == Some(TheWaiter);
      assert HoldsSource(st, Caller(id), s) ==> st.sources[s].owner == Some(Caller(id));
    }
  }

  // ---------- the invariant: what a check has seen ----------

  /** The call has changed the source and not yet notified. */
  predicate Announces(st: State, id: nat, s: SourceId) {
    id in st.calls && st.calls[id].source == s && (st.calls[id].place.Pushed? || st.calls[id].place.Notifying?)
  }

  /** Entry `j` has nothing, unless a call is about to say so. */
  ghost predicate Covered(st: State, j: nat)
    requires Watches(st, j)
  {
    st.sources[st.waiter.entries[j]].pending == 0 || exists id :: Announces(st, id, st.waiter.entries[j])
  }

  ghost predicate CheckInv(st: State) {
    && (st.waiter.pc.Check? ==>
           forall j: nat :: j < st.waiter.pc.i && Watches(st, j) ==> st.sources[st.waiter.entries[j]].pending == 0)
    && (st.waiter.pc.Sleep? ==> forall j: nat :: Watches(st, j) ==> Covered(st, j))
  }

  predicate Raises(st: State, id: nat) {
    id in st.calls && (st.calls[id].place.PushFree? || st.calls[id].place.HaveCond?)
  }

  /** What one step of a call does to its source and the log. */
  lemma CallEffect(st: State, id: nat)
    requires CallStep(st, id).Some?
    ensures var after, s := CallStep(st, id).value, st.calls[id].source;
            && s < |st.sources| && |after.sources| == |st.sources|
            && var was, now := st.sources[s].pending, after.sources[s].pending;
            if Raises(st, id) then
              && now == (if st.sources[s].isGuard then 1 else was + 1)
              && after.log == st.log + [Raised(s)]
            else if st.calls[id].place.TakeHolding? && was > 0 then now == was - 1 && after.log == st.log + [Popped(s)]
            else now == was && after.log == st.log
  {
  }

  lemma CallKeepsCheck(st: State, id: nat)
    requires CheckInv(st) && AttachedInv(st) && CallsInv(st) && CondInv(st) && CallStep(st, id).Some?
    ensures CheckInv(CallStep(st, id).value)
  {
    var after, s, w := CallStep(st, id).value, st.calls[id].source, st.waiter;
    CallFrame(st, id);
    CallEffect(st, id);
    assert CallInv(st, id);
    assert st.calls[id].place.HaveCond? ==> HoldsCond(st, Caller(id));
    assert w.pc.Check? ==> HoldsCond(st, TheWaiter);
    forall j: nat | Watches(st, j) && (w.pc.Check? || w.pc.Sleep?) && w.entries[j] == s && Raises(st, id)
      ensures w.pc.Sleep? && st.calls[id].place.HaveCond?
    {
      assert AttachedNow(w, s);
    }
    if w.pc.Sleep? && !st.calls[id].place.Notifying? {
      forall j: nat | Watches(st, j)
        ensures Covered(after, j)
      {
        CallKeepsCovered(st, id, j);
      }
    }
  }

  lemma CallKeepsCovered(st: State, id: nat, j: nat)
    requires CallStep(st, id).Some? && Watches(st, j) && Covered(st, j) && !st.calls[id].place.Notifying?
    requires !(st.waiter.entries[j] == st.calls[id].source && st.calls[id].place.PushFree?)
    ensures CallStep(st, id).value.waiter == st.waiter
    ensures |CallStep(st, id).value.sources| == |st.sources| && Covered(CallStep(st, id).value, j)
  {
    var after, s, w := CallStep(st, id).value, st.calls[id].source, st.waiter;
    CallFrame(st, id);
    CallEffect(st, id);
    if k :| Announces(st, k, w.entries[j]) {
      assert Announces(after, k, w.entries[j]);
    } else if w.entries[j] == s && st.calls[id].place.HaveCond? {
      assert Announces(after, id, s);
    }
  }

  lemma WaiterKeepsCheck(st: State)
    requires CheckInv(st) && WaitInv(st) && WaiterStep(st).Some?
    ensures CheckInv(WaiterStep(st).value)
  {
  }

  // ---------- the invariant: why a wait reports no timeout ----------

  /** Entry `f`, the first of its source, is kept, or will be unless somebody takes what it has. */
  predicate Hit(st: State, f: nat) {
    && f < |st.waiter.entries| && st.waiter.entries[f] !in st.waiter.entries[..f]
    && if f < |st.waiter.kept| then st.waiter.kept[f]
       else Watches(st, f) && st.sources[st.waiter.entries[f]].pending > 0
  }

  /** Since the successful check, nobody else has taken data from a watched listener. */
  predicate NoOtherConsumer(st: State) {
    forall k :: 0 <= k < |st.log| && st.waiter.hitAt <= k && st.log[k].Popped? ==>
        st.log[k].source !in st.waiter.entries
  }

  predicate AfterCheck(pc: Pc) {
    pc.Unlock? || pc.Detach? || pc.Detaching? || pc.Filter? || pc.Out?
  }

  ghost predicate HitInv(st: State) {
    AfterCheck(st.waiter.pc) && !st.waiter.timedOut ==>
      && st.waiter.hitAt <= |st.log|
      && (NoOtherConsumer(st) ==> exists f: nat :: Hit(st, f))
  }

  lemma CallKeepsHit(st: State, id: nat)
    requires HitInv(st) && CallStep(st, id).Some?
    ensures HitInv(CallStep(st, id).value)
  {
    var after, w := CallStep(st, id).value, st.waiter;
    CallFrame(st, id);
    CallEffect(st, id);
    hide CallStep;
    assert after.log[..|st.log|] == st.log;
    if AfterCheck(after.waiter.pc) && !after.waiter.timedOut && NoOtherConsumer(after) {
      forall k | 0 <= k < |st.log| && w.hitAt <= k && st.log[k].Popped?
        ensures st.log[k].source !in w.entries
      {
        assert after.log[k] == st.log[k];
      }
      var f: nat :| Hit(st, f);
      if |after.log| > |st.log| {
        assert after.log[|st.log|].source == st.calls[id].source;
      }
      assert Hit(after, f);
    }
  }

  lemma WaiterKeepsHit(st: State)
    requires HitInv(st) && CheckInv(st) && WaitInv(st) && WaiterStep(st).Some?
    ensures HitInv(WaiterStep(st).value)
  {
    var after, w := WaiterStep(st).value, st.waiter;
    if w.pc.Check? && after.waiter.pc.Unlock? && !after.waiter.timedOut {
      assert Hit(after, w.pc.i);
    } else if AfterCheck(w.pc) && !w.timedOut && NoOtherConsumer(after) {
      forall k | 0 <= k < |st.log| && w.hitAt <= k && st.log[k].Popped?
        ensures st.log[k].source !in w.entries
      {
        assert after.log[k] == st.log[k];
      }
      var f: nat :| Hit(st, f);
      assert Hit(after, f);
    }
  }

  // ---------- the invariant: the history of each source ----------

  /** What a source has according to its history: raised, and not popped or reported since. */
  function Level(isGuard: bool, log: seq<Event>, s: SourceId): int {
    if log == [] then 0 else
      var before := Level(isGuard, log[..|log| - 1], s);
      match log[|log| - 1]
      case Raised(r) => if r != s then before else if isGuard then 1 else before + 1
      case Popped(r) => if r != s then before else before - 1
      case Reported(r, kept) => if r == s && isGuard && kept then 0 else before
  }

  ghost predicate LogInv(kinds: seq<bool>, st: State) {
    && |st.sources| == |kinds|
    && (forall s: SourceId :: s < |kinds| ==>
           st.sources[s].isGuard == kinds[s] && st.sources[s].pending == Level(kinds[s], st.log, s))
    && (forall k: nat :: k < |st.log| && st.log[k].Reported? ==> Truthful(kinds, st.log, k))
    && (forall k: nat :: k < |st.log| && st.log[k].Popped? ==> st.log[k].source < |kinds| && !kinds[st.log[k].source])
    && (forall s: SourceId, k: nat :: s < |kinds| && k <= |st.log| ==> Level(kinds[s], st.log[..k], s) >= 0)
  }

  /** Report `k` kept the entry exactly if the source had something then. */
  predicate Truthful(kinds: seq<bool>, log: seq<Event>, k: nat)
    requires k < |log| && log[k].Reported?
  {
    log[k].source < |kinds| && (log[k].kept <==> Level(kinds[log[k].source], log[..k], log[k].source) > 0)
  }

  lemma LevelAppended(isGuard: bool, log: seq<Event>, e: Event, s: SourceId)
    ensures Level(isGuard, log + [e], s) ==
            if e.source != s then Level(isGuard, log, s)
            else if e.Raised? then if isGuard then 1 else Level(isGuard, log, s) + 1
            else if e.Popped? then Level(isGuard, log, s) - 1
            else if isGuard && e.kept then 0 else Level(isGuard, log, s)
  {
    assert (log + [e])[..|log + [e]| - 1] == log;
  }

  /** One more event keeps the history, if its source agrees with it. */
  lemma LogGrows(kinds: seq<bool>, st: State, after: State, e: Event)
    requires LogInv(kinds, st) && after.log == st.log + [e] && e.source < |kinds|
    requires |after.sources| == |kinds|
    requires forall s: SourceId :: s < |kinds| && s != e.source ==> after.sources[s].pending == st.sources[s].pending
    requires forall s: SourceId :: s < |kinds| ==> after.sources[s].isGuard == st.sources[s].isGuard
    requires after.sources[e.source].pending == Level(kinds[e.source], st.log + [e], e.source)
    requires e.Reported? ==> (e.kept <==> st.sources[e.source].pending > 0)
    requires e.Popped? ==> !kinds[e.source]
    ensures LogInv(kinds, after)
  {
    forall s: SourceId | s < |kinds|
      ensures after.sources[s].pending == Level(kinds[s], after.log, s)
    {
      LevelAppended(kinds[s], st.log, e, s);
    }
    hide Level;
    assert after.log[..|after.log|] == after.log;
    forall s: SourceId, k: nat | s < |kinds| && k <= |after.log|
      ensures Level(kinds[s], after.log[..k], s) >= 0
    {
      if k <= |st.log| {
        assert after.log[..k] == st.log[..k];
      }
    }
    forall k: nat | k < |after.log| && after.log[k].Reported?
      ensures Truthful(kinds, after.log, k)
    {
      if k < |st.log| {
        assert Truthful(kinds, st.log, k);
        assert after.log[..k] == st.log[..k];
      } else {
        assert after.log[..k] == st.log;
      }
    }
  }

  lemma CallKeepsLog(kinds: seq<bool>, st: State, id: nat)
    requires LogInv(kinds, st) && WaitInv(st) && CallStep(st, id).Some?
    ensures LogInv(kinds, CallStep(st, id).value)
  {
    hide Level, Truthful;
    var after := CallStep(st, id).value;
    CallFrame(st, id);
    CallEffect(st, id);
    hide CallStep;
    if |after.log| > |st.log| {
      var e := after.log[|st.log|];
      LevelAppended(kinds[e.source], st.log, e, e.source);
      LogGrows(kinds, st, after, e);
    }
  }

  lemma WaiterKeepsLog(kinds: seq<bool>, st: State)
    requires LogInv(kinds, st) && WaitInv(st) && WaiterStep(st).Some?
    ensures LogInv(kinds, WaiterStep(st).value)
  {
    var after, w := WaiterStep(st).value, st.waiter;
    if w.pc.Filter? {
      var s := w.entries[w.pc.i];
      var e := Reported(s, st.sources[s].pending > 0);
      LevelAppended(kinds[s], st.log, e, s);
      LogGrows(kinds, st, after, e);
    } else {
      WaiterElsewhere(st);
    }
  }

  lemma WaiterElsewhere(st: State)
    requires WaiterStep(st).Some? && !st.waiter.pc.Filter?
    ensures var after := WaiterStep(st).value;
            && after.log == st.log && |after.sources| == |st.sources|
            && forall s: SourceId :: s < |st.sources| ==>
                 after.sources[s].pending == st.sources[s].pending && after.sources[s].isGuard == st.sources[s].isGuard
  {
  }

  // ---------- the invariant: timeouts ----------

  predicate ModeInv(w: Wait) {
    && (AfterCheck(w.pc) && w.timedOut ==> !w.mode.Forever?)
    && ((w.pc.Check? && w.pc.round.Final?) || (w.pc.Wake? && w.pc.expired) ==> w.mode.Timed?)
    && ((w.pc.Check? && !w.pc.round.First?) || w.pc.Sleep? || w.pc.Wake? ==> !w.mode.Poll?)
  }

  lemma WaiterKeepsMode(st: State)
    requires ModeInv(st.waiter) && WaiterStep(st).Some?
    ensures ModeInv(WaiterStep(st).value.waiter)
  {
  }

  lemma CallKeepsMode(st: State, id: nat)
    requires ModeInv(st.waiter) && CallStep(st, id).Some?
    ensures ModeInv(CallStep(st, id).value.waiter)
  {
    CallFrame(st, id);
    hide CallStep;
  }

  // ---------- every run ----------

  ghost predicate Inv(kinds: seq<bool>, st: State) {
    && OwnersInv(st) && CondInv(st) && WaitInv(st)
    && AttachedInv(st) && CallsInv(st)
    && CheckInv(st) && HitInv(st) && ModeInv(st.waiter)
    && LogInv(kinds, st)
  }

  lemma StartKeepsInv(kinds: seq<bool>, st: State, a: Action)
    requires Inv(kinds, st) && a.Start? && Step(st, a).Some?
    ensures Inv(kinds, Step(st, a).value)
  {
    hide Level, Truthful;
    var after := Step(st, a).value;
    assert forall t, s :: HoldsSource(after, t, s) == HoldsSource(st, t, s);
    assert forall t :: HoldsCond(after, t) == HoldsCond(st, t);
    forall k | k in after.calls && after.calls[k].source < |after.sources|
      ensures CallInv(after, k)
    {
      assert k != a.id ==> CallInv(st, k);
    }
    assert forall k, s :: Announces(st, k, s) ==> Announces(after, k, s);
    assert forall j: nat :: Watches(st, j) && Covered(st, j) ==> Covered(after, j);
    assert NoOtherConsumer(after) == NoOtherConsumer(st);
    assert forall f: nat :: Hit(after, f) == Hit(st, f);
  }

  /** Beginning a wait, the end of its time, and a spurious wakeup. */
  lemma WaiterMovesKeepInv(kinds: seq<bool>, st: State, a: Action)
    requires Inv(kinds, st) && (a.Begin? || a.Expire? || a.Spurious?) && Step(st, a).Some?
    ensures Inv(kinds, Step(st, a).value)
  {
    hide Level, Truthful;
    var after := Step(st, a).value;
    assert forall t, s :: HoldsSource(after, t, s) == HoldsSource(st, t, s);
    assert forall t :: HoldsCond(after, t) == HoldsCond(st, t);
    assert forall s :: AttachedNow(after.waiter, s) == AttachedNow(st.waiter, s);
    forall k | k in after.calls && after.calls[k].source < |after.sources|
      ensures CallInv(after, k)
    {
      assert CallInv(st, k);
    }
  }

  lemma StepKeepsInv(kinds: seq<bool>, st: State, a: Action)
    requires Inv(kinds, st) && Step(st, a).Some?
    ensures Inv(kinds, Step(st, a).value)
  {
    hide CallStep, WaiterStep, OwnersInv, CondInv, WaitInv, AttachedInv, CallsInv, CheckInv, HitInv, ModeInv, LogInv;
    match a
    case Proceed(id) =>
      CallKeepsOwners(st, id);
      CallKeepsCond(st, id);
      CallKeepsWait(st, id);
      CallKeepsAttached(st, id);
      CallKeepsCalls(st, id);
      CallKeepsCheck(st, id);
      CallKeepsHit(st, id);
      CallKeepsLog(kinds, st, id);
      CallKeepsMode(st, id);
    case Continue =>
      WaiterKeepsOwners(st);
      WaiterKeepsCond(st);
      WaiterKeepsWait(st);
      WaiterKeepsAttached(st);
      WaiterKeepsCalls(st);
      WaiterKeepsCheck(st);
      WaiterKeepsHit(st);
      WaiterKeepsLog(kinds, st);
      WaiterKeepsMode(st);
    case Start(_, _, _) => StartKeepsInv(kinds, st, a);
    case _ => WaiterMovesKeepInv(kinds, st, a);
  }

  lemma {:induction false} RunKeepsInv(kinds: seq<bool>, actions: seq<Action>)
    requires Run(kinds, actions).Some?
    ensures Inv(kinds, Run(kinds, actions).value)
  {
    if actions == [] {
    } else {
      RunKeepsInv(kinds, actions[..|actions| - 1]);
      StepKeepsInv(kinds, Run(kinds, actions[..|actions| - 1]).value, actions[|actions| - 1]);
    }
  }

  // ---------- no lost wakeup ----------

  /** Whenever the waiter sleeps although an entry has something, a call on that entry is between
      its change and its notification; it can go on whatever the others do, and in at most two
      steps the waiter is awake. */
  lemma NoLostWakeup(kinds: seq<bool>, actions: seq<Action>, j: nat) returns (id: nat)
    requires Run(kinds, actions).Some?
    requires var st := Run(kinds, actions).value;
             st.waiter.pc.Sleep? && Watches(st, j) && st.sources[st.waiter.entries[j]].pending > 0
    ensures var st := Run(kinds, actions).value;
            && Announces(st, id, st.waiter.entries[j])
            && CallStep(st, id).Some?
            && var next := CallStep(st, id).value;
            if st.calls[id].place.Notifying? then next.waiter.pc == Wake(false)
            else next.waiter == st.waiter && CallStep(next, id).Some?
                 && CallStep(next, id).value.waiter.pc == Wake(false)
  {
    RunKeepsInv(kinds, actions);
    var st := Run(kinds, actions).value;
    assert Covered(st, j);
    id :| Announces(st, id, st.waiter.entries[j]);
  }

  /** A sleeping waiter's entries are all attached, and once it has returned nothing is. */
  lemma AttachedWhileWaiting(kinds: seq<bool>, actions: seq<Action>, s: SourceId)
    requires Run(kinds, actions).Some? && s < |Run(kinds, actions).value.sources|
    ensures var st := Run(kinds, actions).value;
            && (st.waiter.pc.Sleep? ==> (st.sources[s].attached <==> s in st.waiter.entries))
            && (st.waiter.pc.Out? ==> !st.sources[s].attached)
  {
    RunKeepsInv(kinds, actions);
    var st := Run(kinds, actions).value;
  }

  // ---------- deadlock freedom ----------

  /** The owner of the lock a thread is waiting for. */
  function BlockedOn(st: State, t: Thread): Option<Thread> {
    match t
    case TheWaiter =>
      if (st.waiter.pc.Attach? || st.waiter.pc.Detach?) && Watches(st, st.waiter.pc.i)
        then st.sources[st.waiter.entries[st.waiter.pc.i]].owner
      else if st.waiter.pc.Lock? || st.waiter.pc.Wake? then st.cond
      else None
    case Caller(id) =>
      if id !in st.calls || st.calls[id].source >= |st.sources| then None
      else if !InsideSource(st.calls[id].place) then st.sources[st.calls[id].source].owner
      else if st.calls[id].place.WantCond? then st.cond
      else None
  }

  predicate Active(st: State, t: Thread) {
    match t
    case TheWaiter => !st.waiter.pc.Out? && !st.waiter.pc.Sleep?
    case Caller(id) => id in st.calls
  }

  predicate Enabled(st: State, t: Thread) {
    match t
    case TheWaiter => WaiterStep(st).Some?
    case Caller(id) => CallStep(st, id).Some?
  }

  /** How many locks may have to be released before the thread can go on. */
  function Rank(st: State, t: Thread): nat {
    if BlockedOn(st, t).None? then 0
    else match t
      case TheWaiter => if st.waiter.pc.Lock? || st.waiter.pc.Wake? then 1 else 2
      case Caller(id) => if id in st.calls && st.calls[id].place.WantCond? then 1 else 2
  }

  lemma BlockedOnLower(kinds: seq<bool>, st: State, t: Thread)
    requires Inv(kinds, st) && BlockedOn(st, t).Some?
    ensures Active(st, BlockedOn(st, t).value) && Rank(st, BlockedOn(st, t).value) < Rank(st, t)
  {
    hide CallStep, WaiterStep;
    var u := BlockedOn(st, t).value;
    if Rank(st, t) == 1 {
      assert HoldsCond(st, u);
    } else {
      var s := if t.TheWaiter? then st.waiter.entries[st.waiter.pc.i] else st.calls[t.id].source;
      assert HoldsSource(st, u, s);
    }
  }

  lemma EnabledUnlessBlocked(kinds: seq<bool>, st: State, t: Thread)
    requires Inv(kinds, st) && Active(st, t)
    ensures Enabled(st, t) <==> BlockedOn(st, t).None?
  {
  }

  /** The holder of the wait set's mutex can always go on. */
  lemma CondHolderIsEnabled(kinds: seq<bool>, actions: seq<Action>)
    requires Run(kinds, actions).Some? && Run(kinds, actions).value.cond.Some?
    ensures Enabled(Run(kinds, actions).value, Run(kinds, actions).value.cond.value)
  {
    RunKeepsInv(kinds, actions);
    var st := Run(kinds, actions).value;
    assert HoldsCond(st, st.cond.value);
    EnabledUnlessBlocked(kinds, st, st.cond.value);
  }

  /** A cycle of threads each waiting for a lock of the next. */
  ghost predicate WaitCycle(st: State, ts: seq<Thread>) {
    && ts != [] && BlockedOn(st, ts[|ts| - 1]) == Some(ts[0])
    && forall i :: 0 <= i < |ts| - 1 ==> BlockedOn(st, ts[i]) == Some(ts[i + 1])
  }

  lemma {:induction false} RankFalls(kinds: seq<bool>, st: State, ts: seq<Thread>, i: nat)
    requires Inv(kinds, st) && WaitCycle(st, ts) && i < |ts|
    ensures Rank(st, ts[i]) + i <= Rank(st, ts[0])
  {
    hide Inv, Rank;
    if i > 0 {
      RankFalls(kinds, st, ts, i - 1);
      BlockedOnLower(kinds, st, ts[i - 1]);
    }
  }

  /** Deadlock freedom: no reachable state has a cycle of lock waits, and from every thread that is
      in a call or in a wait, and not asleep, following the locks leads to one that can go on. */
  lemma NoDeadlock(kinds: seq<bool>, actions: seq<Action>)
    requires Run(kinds, actions).Some?
    ensures var st := Run(kinds, actions).value;
            && (forall ts :: !WaitCycle(st, ts))
            && forall t :: Active(st, t) ==> CanGoOn(st, t)
  {
    RunKeepsInv(kinds, actions);
    var st := Run(kinds, actions).value;
    hide Inv, Rank, CallStep, WaiterStep;
    forall ts
      ensures !WaitCycle(st, ts)
    {
      if WaitCycle(st, ts) {
        RankFalls(kinds, st, ts, |ts| - 1);
        BlockedOnLower(kinds, st, ts[|ts| - 1]);
      }
    }
    forall t | Active(st, t)
      ensures CanGoOn(st, t)
    {
      FollowLocks(kinds, st, t);
    }
  }

  /** The thread, the owner of the lock it waits for, or the owner of the lock that one waits for. */
  predicate CanGoOn(st: State, t: Thread) {
    Enabled(st, t) ||
      (BlockedOn(st, t).Some? &&
        (var u := BlockedOn(st, t).value;
         Enabled(st, u) || (BlockedOn(st, u).Some? && Enabled(st, BlockedOn(st, u).value))))
  }

  lemma FollowLocks(kinds: seq<bool>, st: State, t: Thread)
    requires Inv(kinds, st) && Active(st, t)
    ensures CanGoOn(st, t)
  {
    hide Inv, CallStep, WaiterStep;
    EnabledUnlessBlocked(kinds, st, t);
    if BlockedOn(st, t).Some? {
      var u := BlockedOn(st, t).value;
      BlockedOnLower(kinds, st, t);
      EnabledUnlessBlocked(kinds, st, u);
      if BlockedOn(st, u).Some? {
        BlockedOnLower(kinds, st, u);
        EnabledUnlessBlocked(kinds, st, BlockedOn(st, u).value);
      }
    }
  }

  // ---------- the result of a wait ----------

  /** A wait that reports no timeout keeps an entry, if nobody else took from its listeners since
      its check. */
  lemma WaitKeepsAnEntry(kinds: seq<bool>, actions: seq<Action>)
    requires Run(kinds, actions).Some?
    requires var st := Run(kinds, actions).value;
             st.waiter.pc.Out? && !st.waiter.timedOut && NoOtherConsumer(st)
    ensures exists f: nat :: f < |Run(kinds, actions).value.waiter.kept| && Run(kinds, actions).value.waiter.kept[f]
  {
    RunKeepsInv(kinds, actions);
    var st := Run(kinds, actions).value;
    var f: nat :| Hit(st, f);
    assert st.waiter.kept[f];
  }

  /** A wait without a timeout never reports one, a wait with a timeout of zero never sleeps, and
      only a wait with a positive timeout is woken by its end. */
  lemma ModesAreKept(kinds: seq<bool>, actions: seq<Action>)
    requires Run(kinds, actions).Some?
    ensures var w := Run(kinds, actions).value.waiter;
            && (w.pc.Out? && w.timedOut ==> !w.mode.Forever?)
            && (w.pc.Sleep? ==> !w.mode.Poll?)
            && (w.pc.Wake? && w.pc.expired ==> w.mode.Timed?)
  {
    RunKeepsInv(kinds, actions);
  }

  /** The waiter gives up, or goes to sleep, only in a state in which all its entries are empty:
      nothing can come in between looking at the first entry and deciding. */
  lemma DecidesOnlyWhenEmpty(kinds: seq<bool>, actions: seq<Action>, j: nat)
    requires Run(kinds, actions).Some? && Run(kinds, actions).value.waiter.pc.Check?
    requires var st := Run(kinds, actions).value;
             Watches(st, j) && WaiterStep(st).Some?
             && (WaiterStep(st).value.waiter.pc.Sleep?
                 || (WaiterStep(st).value.waiter.pc.Unlock? && WaiterStep(st).value.waiter.timedOut))
    ensures Run(kinds, actions).value.sources[Run(kinds, actions).value.waiter.entries[j]].pending == 0
  {
    RunKeepsInv(kinds, actions);
  }

  /** Every report in every run is truthful: an entry is nulled exactly if its source had nothing at
      that moment, by the history of its own events; and only a guard condition is cleared. */
  lemma ReportsAreTruthful(kinds: seq<bool>, actions: seq<Action>, k: nat)
    requires Run(kinds, actions).Some?
    requires k < |Run(kinds, actions).value.log| && Run(kinds, actions).value.log[k].Reported?
    ensures Truthful(kinds, Run(kinds, actions).value.log, k)
  {
    RunKeepsInv(kinds, actions);
  }

  /** No report of the source between events `i` and `k`, and nothing popped from it. */
  predicate Untouched(log: seq<Event>, i: nat, k: nat, s: SourceId)
    requires k <= |log|
  {
    forall m :: i < m < k && log[m].source == s ==> log[m].Raised?
  }

  lemma {:induction false} RaisedStays(isGuard: bool, log: seq<Event>, i: nat, k: nat, s: SourceId)
    requires i < k <= |log| && log[i] == Raised(s) && Untouched(log, i, k, s)
    requires Level(isGuard, log[..i], s) >= 0
    ensures Level(isGuard, log[..k], s) > 0
    decreases k
  {
    assert log[..k] == log[..k - 1] + [log[k - 1]];
    LevelAppended(isGuard, log[..k - 1], log[k - 1], s);
    if k - 1 > i {
      RaisedStays(isGuard, log, i, k - 1, s);
    }
  }

  /** No trigger is dropped: after a trigger or a push, and unless somebody takes the data, the next
      report of the source keeps its entry, in this wait or a later one. */
  lemma NextReportKeeps(kinds: seq<bool>, actions: seq<Action>, i: nat, k: nat, s: SourceId)
    requires Run(kinds, actions).Some?
    requires var log := Run(kinds, actions).value.log;
             i < k < |log| && log[i] == Raised(s) && log[k].Reported? && log[k].source == s && Untouched(log, i, k, s)
    ensures Run(kinds, actions).value.log[k].kept
  {
    RunKeepsInv(kinds, actions);
    var log := Run(kinds, actions).value.log;
    assert Truthful(kinds, log, k);
    RaisedStays(kinds[s], log, i, k, s);
  }

  /** Nothing is popped from a guard condition, so there only a report that keeps the entry can
      stand between a trigger and the next report. */
  lemma GuardsAreNotPopped(kinds: seq<bool>, actions: seq<Action>, k: nat)
    requires Run(kinds, actions).Some?
    requires k < |Run(kinds, actions).value.log| && Run(kinds, actions).value.log[k].Popped?
    ensures Run(kinds, actions).value.log[k].source < |kinds| && !kinds[Run(kinds, actions).value.log[k].source]
  {
    RunKeepsInv(kinds, actions);
  }
}
