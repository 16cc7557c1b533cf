/**
  The condition-variable protocol of the watch ring (store/watch.go:72-122, 165-170).

  The threads are the callers of WaitForEvents, the appenders and the closer.
  Every action is one step between two points where another thread may run:
  taking the lock, checking, joining the notify list, releasing the lock,
  changing the ring, broadcasting. A timer broadcasts without the lock, so it
  may do so at any moment.
 */
module WatchMonitor {
  import opened Entries
  import opened WatchRing

  datatype Pc =
    | Entering
    | Checking
    | Enlisting
    | Releasing
    | Parked
    | Returned(events: seq<Event>)

  /** A caller; `late` says whether its deadline had passed when it last looked at the clock. */
  datatype Waiter = Waiter(afterRev: nat, prefix: string, pc: Pc, notified: bool, late: bool)

  datatype Change = AppendEvent(event: Event) | CloseCache

  datatype Phase = Holding | Changed | Announced

  datatype Owner = Nobody | Caller(w: nat) | Changer(change: Change, phase: Phase)

  datatype Monitor = Monitor(
    capacity: nat, history: seq<Event>, closed: bool, owner: Owner, waiters: seq<Waiter>)

  datatype Action =
    | Call(afterRev: nat, prefix: string)
    | Acquire(w: nat)
    | Check(w: nat, late: bool)
    | Enlist(w: nat)
    | Release(w: nat)
    | TimerFires
    | Begin(change: Change)
    | Mutate
    | Broadcast
    | Finish

  function Found(m: Monitor, w: Waiter): seq<Event> {
    Matching(Retained(m.history, m.capacity), w.afterRev, w.prefix)
  }

  predicate InCriticalSection(w: Waiter) {
    w.pc.Checking? || w.pc.Enlisting? || w.pc.Releasing?
  }

  /** On the notify list: it can be woken by a broadcast. */
  predicate Listed(w: Waiter) {
    w.pc.Releasing? || w.pc.Parked?
  }

  predicate Enabled(m: Monitor, a: Action) {
    match a
    case Call(_, _) => true
    case Acquire(w) =>
      && w < |m.waiters| && m.owner == Nobody
      && (m.waiters[w].pc.Entering? || (m.waiters[w].pc.Parked? && m.waiters[w].notified))
    case Check(w, _) => w < |m.waiters| && m.waiters[w].pc.Checking?
    case Enlist(w) => w < |m.waiters| && m.waiters[w].pc.Enlisting?
    case Release(w) => w < |m.waiters| && m.waiters[w].pc.Releasing?
    case TimerFires => true
    case Begin(_) => m.owner == Nobody
    case Mutate => m.owner.Changer? && m.owner.phase.Holding?
    case Broadcast => m.owner.Changer? && m.owner.phase.Changed?
    case Finish => m.owner.Changer? && m.owner.phase.Announced?
  }

  function NotifyAll(waiters: seq<Waiter>): seq<Waiter> {
    seq(|waiters|, i requires 0 <= i < |waiters| =>
      if Listed(waiters[i]) then waiters[i].(notified := true) else waiters[i])
  }

  /** One pass of the loop in WaitForEvents, up to the point where it would wait. */
  function CheckOnce(m: Monitor, w: Waiter, late: bool): Waiter {
    if m.closed then w.(pc := Returned([]))
    else if |Found(m, w)| > 0 then w.(pc := Returned(Found(m, w)))
    else if late then w.(pc := Returned([]), late := true)
    else w.(pc := Enlisting, late := false)
  }

  function Next(m: Monitor, a: Action): Monitor
    requires Enabled(m, a)
  {
    match a
    case Call(afterRev, prefix) =>
      m.(waiters := m.waiters + [Waiter(afterRev, prefix, Entering, false, false)])
    case Acquire(w) => m.(owner := Caller(w), waiters := m.waiters[w := m.waiters[w].(pc := Checking)])
    case Check(w, late) =>
      var checked := CheckOnce(m, m.waiters[w], late);
      m.(owner := if checked.pc.Returned? then Nobody else m.owner, waiters := m.waiters[w := checked])
    case Enlist(w) => m.(waiters := m.waiters[w := m.waiters[w].(pc := Releasing, notified := false)])
    case Release(w) => m.(owner := Nobody, waiters := m.waiters[w := m.waiters[w].(pc := Parked)])
    case TimerFires => m.(waiters := NotifyAll(m.waiters))
    case Begin(change) => m.(owner := Changer(change, Holding))
    case Mutate =>
      var m' := m.(owner := Changer(m.owner.change, Changed));
      if m.owner.change.CloseCache? then m'.(closed := true)
      else m'.(history := m.history + [m.owner.change.event])
    case Broadcast => m.(owner := Changer(m.owner.change, Announced), waiters := NotifyAll(m.waiters))
    case Finish => m.(owner := Nobody)
  }

  predicate Legal(m: Monitor, actions: seq<Action>)
    decreases |actions|, 0
  {
    actions == [] ||
    (Legal(m, actions[..|actions| - 1]) && Enabled(Run(m, actions[..|actions| - 1]), actions[|actions| - 1]))
  }

  function Run(m: Monitor, actions: seq<Action>): Monitor
    requires Legal(m, actions)
    decreases |actions|, 1
  {
    if actions == [] then m else Next(Run(m, actions[..|actions| - 1]), actions[|actions| - 1])
  }

  function NewMonitor(capacity: nat): Monitor {
    Monitor(capacity, [], false, Nobody, [])
  }

  // ----- The invariant -----

  /** There is nothing this caller should be told. */
  predicate Quiet(m: Monitor, w: Waiter) {
    !m.closed && Found(m, w) == []
  }

  predicate AnnouncementPending(m: Monitor) {
    m.owner.Changer? && m.owner.phase.Changed?
  }

  predicate WaiterSound(m: Monitor, i: nat)
    requires i < |m.waiters|
  {
    var w := m.waiters[i];
    && (InCriticalSection(w) <==> m.owner == Caller(i))
    && (w.pc.Enlisting? ==> Quiet(m, w))
    && (Listed(w) && !w.notified ==> Quiet(m, w) || AnnouncementPending(m))
    && (w.pc.Returned? && w.pc.events == [] ==> m.closed || w.late)
    && (w.pc.Returned? ==>
          forall ev | ev in w.pc.events :: ev in m.history && Wanted(ev, w.afterRev, w.prefix))
  }

  predicate Sound(m: Monitor) {
    && (m.owner.Caller? ==> m.owner.w < |m.waiters|)
    && forall i | 0 <= i < |m.waiters| :: WaiterSound(m, i)
  }

  lemma FoundAreWanted(m: Monitor, w: Waiter)
    ensures forall ev | ev in Found(m, w) :: ev in m.history && Wanted(ev, w.afterRev, w.prefix)
  {
    forall ev | ev in Found(m, w)
      ensures ev in m.history && Wanted(ev, w.afterRev, w.prefix)
    {
      MatchingMembers(Retained(m.history, m.capacity), w.afterRev, w.prefix, ev);
    }
  }

  lemma ActionKeepsSound(m: Monitor, a: Action)
    requires Sound(m) && Enabled(m, a)
    ensures Sound(Next(m, a))
  {
    var m' := Next(m, a);
    if a.Check? {
      FoundAreWanted(m, m.waiters[a.w]);
    }
    forall i | 0 <= i < |m'.waiters|
      ensures WaiterSound(m', i)
    {
      if i < |m.waiters| {
        assert WaiterSound(m, i);
        if a.Check? || a.Enlist? || a.Release? {
          assert WaiterSound(m, a.w);
        }
      }
    }
  }

  lemma {:induction false} RunKeepsSound(capacity: nat, actions: seq<Action>)
    requires Legal(NewMonitor(capacity), actions)
    ensures Sound(Run(NewMonitor(capacity), actions))
  {
    if actions != [] {
      RunKeepsSound(capacity, actions[..|actions| - 1]);
      ActionKeepsSound(Run(NewMonitor(capacity), actions[..|actions| - 1]), actions[|actions| - 1]);
    }
  }

  /**
    No lost wake-up: in every reachable state a caller that is parked and has
    not been notified has no retained event it asked for, and the ring is open;
    the one exception is while the thread that changed the ring still holds the
    lock and is about to broadcast, and then its next step notifies the caller.
   */
  lemma NoLostWakeUp(capacity: nat, actions: seq<Action>, i: nat)
    requires Legal(NewMonitor(capacity), actions) && i < |Run(NewMonitor(capacity), actions).waiters|
    ensures var m := Run(NewMonitor(capacity), actions);
            var w := m.waiters[i];
            w.pc.Parked? && !w.notified ==>
              if AnnouncementPending(m) then Enabled(m, Broadcast) && Next(m, Broadcast).waiters[i].notified
              else !m.closed && Found(m, w) == []
  {
    RunKeepsSound(capacity, actions);
    assert WaiterSound(Run(NewMonitor(capacity), actions), i);
  }

  /**
    A call returns nothing only when the ring is closed or when its deadline had
    passed at its last, empty check; what it does return was appended and asked for.
   */
  lemma ReturnsAreJustified(capacity: nat, actions: seq<Action>, i: nat)
    requires Legal(NewMonitor(capacity), actions) && i < |Run(NewMonitor(capacity), actions).waiters|
    requires Run(NewMonitor(capacity), actions).waiters[i].pc.Returned?
    ensures var m := Run(NewMonitor(capacity), actions);
            var w := m.waiters[i];
            && (w.pc.events == [] ==> m.closed || w.late)
            && forall ev | ev in w.pc.events :: ev in m.history && Wanted(ev, w.afterRev, w.prefix)
  {
    RunKeepsSound(capacity, actions);
    assert WaiterSound(Run(NewMonitor(capacity), actions), i);
  }

  // ----- What the calls return -----

  /**
    A check of any run: a closed ring gives nothing; an open one gives exactly
    the events that the query must answer at that moment, in order, and if there
    are none, nothing when late; else the caller goes on to wait.
   */
  lemma CheckTellsAll(m: Monitor, w: nat, late: bool) returns (at: seq<nat>)
    requires Enabled(m, Check(w, late))
    ensures var caller, m' := m.waiters[w], Next(m, Check(w, late));
            && w < |m'.waiters|
            && var pc := m'.waiters[w].pc;
            && AnswerAt(m.history, m.capacity, caller.afterRev, caller.prefix, at)
            && (m.closed ==> pc == Returned([]))
            && (!m.closed && at != [] ==> pc.Returned? && Picked(m.history, at, pc.events))
            && (!m.closed && at == [] ==> pc == if late then Returned([]) else Enlisting)
  {
    var caller := m.waiters[w];
    at := RingAnswers(m.history, m.capacity, caller.afterRev, caller.prefix);
  }

  lemma {:induction false} LegalBefore(m: Monitor, actions: seq<Action>, j: nat)
    requires Legal(m, actions) && j <= |actions|
    ensures Legal(m, actions[..j])
    ensures j < |actions| ==> Enabled(Run(m, actions[..j]), actions[j])
  {
    if j == |actions| {
      assert actions[..j] == actions;
    } else {
      var init := actions[..|actions| - 1];
      LegalBefore(m, init, j);
      assert actions[..j] == init[..j];
      assert j == |init| ==> init[..j] == init;
    }
  }

  /** Only its own check makes a call return, and what it has returned stays. */
  lemma ReturnedStays(m: Monitor, a: Action, i: nat)
    requires Enabled(m, a) && i < |Next(m, a).waiters| && Next(m, a).waiters[i].pc.Returned?
    requires !a.Check? || a.w != i
    ensures i < |m.waiters| && m.waiters[i].pc == Next(m, a).waiters[i].pc
  {
  }

  /** `events` is what a check by caller `i` gave at position `j` of the run. */
  ghost predicate GivenAt(capacity: nat, actions: seq<Action>, i: nat, j: nat, at: seq<nat>, events: seq<Event>)
    requires Legal(NewMonitor(capacity), actions)
  {
    && j < |actions| && actions[j].Check? && actions[j].w == i
    && Legal(NewMonitor(capacity), actions[..j])
    && var m := Run(NewMonitor(capacity), actions[..j]);
    && i < |m.waiters|
    && if m.closed then events == []
       else
         && AnswerAt(m.history, capacity, m.waiters[i].afterRev, m.waiters[i].prefix, at)
         && Picked(m.history, at, events)
         && (events == [] ==> actions[j].late)
  }

  /**
    Over every run, what a call has returned is what one of its checks found:
    nothing if the ring was closed then, else exactly the events that the query
    had to answer then, in order, which were none only if the call was late.
   */
  lemma {:induction false} ReturnsAreAnswers(capacity: nat, actions: seq<Action>, i: nat) returns (j: nat, at: seq<nat>)
    requires Legal(NewMonitor(capacity), actions) && i < |Run(NewMonitor(capacity), actions).waiters|
    requires Run(NewMonitor(capacity), actions).waiters[i].pc.Returned?
    ensures GivenAt(capacity, actions, i, j, at, Run(NewMonitor(capacity), actions).waiters[i].pc.events)
  {
    var start := NewMonitor(capacity);
    var init, a := actions[..|actions| - 1], actions[|actions| - 1];
    var m := Run(start, init);
    RunRecords(capacity, init);
    if a.Check? && a.w == i {
      j := |init|;
      at := CheckTellsAll(m, i, a.late);
      assert actions[..j] == init;
    } else {
      ReturnedStays(m, a, i);
      j, at := ReturnsAreAnswers(capacity, init, i);
      assert actions[..j] == init[..j];
    }
  }

  /** No idle wake-ups: a notified caller was notified by a broadcast or a timer since it began to wait. */
  lemma {:induction false} WakesAreTold(capacity: nat, actions: seq<Action>, i: nat) returns (j: nat)
    requires Legal(NewMonitor(capacity), actions) && i < |Run(NewMonitor(capacity), actions).waiters|
    requires Listed(Run(NewMonitor(capacity), actions).waiters[i])
    requires Run(NewMonitor(capacity), actions).waiters[i].notified
    ensures j < |actions| && (actions[j].Broadcast? || actions[j].TimerFires?)
    ensures forall l | j <= l < |actions| :: actions[l] != Enlist(i)
  {
    var init, a := actions[..|actions| - 1], actions[|actions| - 1];
    if a.Broadcast? || a.TimerFires? {
      j := |init|;
    } else {
      NotifiedBefore(Run(NewMonitor(capacity), init), a, i);
      j := WakesAreTold(capacity, init, i);
      assert forall l | j <= l < |init| :: init[l] == actions[l];
    }
  }

  lemma NotifiedBefore(m: Monitor, a: Action, i: nat)
    requires Enabled(m, a) && !a.Broadcast? && !a.TimerFires?
    requires i < |Next(m, a).waiters| && Listed(Next(m, a).waiters[i]) && Next(m, a).waiters[i].notified
    ensures a != Enlist(i) && i < |m.waiters| && Listed(m.waiters[i]) && m.waiters[i].notified
  {
  }

  // ----- What the run records -----

  /** The changes of the ring that have been begun, in order. */
  function Begun(actions: seq<Action>): seq<Change> {
    if actions == [] then []
    else
      var last := actions[|actions| - 1];
      Begun(actions[..|actions| - 1]) + if last.Begin? then [last.change] else []
  }

  /** The calls, in order. */
  function Calls(actions: seq<Action>): seq<(nat, string)> {
    if actions == [] then []
    else
      var last := actions[|actions| - 1];
      Calls(actions[..|actions| - 1]) + if last.Call? then [(last.afterRev, last.prefix)] else []
  }

  function EventsOf(changes: seq<Change>): seq<Event> {
    if changes == [] then []
    else
      var last := changes[|changes| - 1];
      EventsOf(changes[..|changes| - 1]) + if last.AppendEvent? then [last.event] else []
  }

  /** The thread that has the lock and has yet to make its change. */
  predicate AboutToChange(m: Monitor) {
    m.owner.Changer? && m.owner.phase.Holding?
  }

  /** The changes that have been made: all that were begun, but for one whose thread has not come to it yet. */
  function Made(m: Monitor, begun: seq<Change>): seq<Change> {
    if AboutToChange(m) && begun != [] then begun[..|begun| - 1] else begun
  }

  ghost predicate ChangesRecorded(m: Monitor, begun: seq<Change>) {
    && (m.owner.Changer? ==> begun != [] && begun[|begun| - 1] == m.owner.change)
    && m.history == EventsOf(Made(m, begun))
    && (m.closed <==> CloseCache in Made(m, begun))
  }

  ghost predicate CallsRecorded(m: Monitor, calls: seq<(nat, string)>) {
    && |m.waiters| == |calls|
    && forall i | 0 <= i < |calls| :: (m.waiters[i].afterRev, m.waiters[i].prefix) == calls[i]
  }

  /** Only Begin and Mutate touch what is recorded of the changes. */
  lemma OthersChangeNothing(m: Monitor, a: Action)
    requires Sound(m) && Enabled(m, a) && !a.Begin? && !a.Mutate?
    ensures var m' := Next(m, a);
            && m'.history == m.history && m'.closed == m.closed && (AboutToChange(m') <==> AboutToChange(m))
            && (m'.owner.Changer? ==> m.owner.Changer? && m'.owner.change == m.owner.change)
  {
    if a.Check? || a.Enlist? || a.Release? {
      assert WaiterSound(m, a.w);
    }
  }

  lemma BeginIsRecorded(m: Monitor, change: Change, begun: seq<Change>)
    requires ChangesRecorded(m, begun) && Enabled(m, Begin(change))
    ensures ChangesRecorded(Next(m, Begin(change)), begun + [change])
  {
    assert (begun + [change])[..|begun|] == begun;
  }

  lemma MutateIsRecorded(m: Monitor, begun: seq<Change>)
    requires ChangesRecorded(m, begun) && Enabled(m, Mutate)
    ensures ChangesRecorded(Next(m, Mutate), begun)
  {
    var init := begun[..|begun| - 1];
    assert begun == init + [m.owner.change];
    assert Made(m, begun) == init && Made(Next(m, Mutate), begun) == begun;
  }

  lemma ChangeIsRecorded(m: Monitor, a: Action, begun: seq<Change>)
    requires ChangesRecorded(m, begun) && Sound(m) && Enabled(m, a)
    ensures ChangesRecorded(Next(m, a), begun + if a.Begin? then [a.change] else [])
  {
    if a.Begin? {
      BeginIsRecorded(m, a.change, begun);
    } else {
      assert begun + [] == begun;
      if a.Mutate? {
        MutateIsRecorded(m, begun);
      } else {
        OthersChangeNothing(m, a);
        assert Made(Next(m, a), begun) == Made(m, begun);
      }
    }
  }

  lemma CallIsRecorded(m: Monitor, a: Action, calls: seq<(nat, string)>)
    requires CallsRecorded(m, calls) && Enabled(m, a)
    ensures CallsRecorded(Next(m, a), calls + if a.Call? then [(a.afterRev, a.prefix)] else [])
  {
    var m', calls' := Next(m, a), calls + if a.Call? then [(a.afterRev, a.prefix)] else [];
    assert |m'.waiters| == |calls'|;
    forall i | 0 <= i < |calls'|
      ensures (m'.waiters[i].afterRev, m'.waiters[i].prefix) == calls'[i]
    {
      assert i < |calls| ==> (m.waiters[i].afterRev, m.waiters[i].prefix) == calls[i];
    }
  }

  /** In every run the history is that of the appends, closed says that a close was made, calls keep their queries. */
  lemma {:induction false} RunRecords(capacity: nat, actions: seq<Action>)
    requires Legal(NewMonitor(capacity), actions)
    ensures Run(NewMonitor(capacity), actions).capacity == capacity
    ensures ChangesRecorded(Run(NewMonitor(capacity), actions), Begun(actions))
    ensures CallsRecorded(Run(NewMonitor(capacity), actions), Calls(actions))
  {
    if actions != [] {
      var init := actions[..|actions| - 1];
      RunRecords(capacity, init);
      RunKeepsSound(capacity, init);
      ChangeIsRecorded(Run(NewMonitor(capacity), init), actions[|actions| - 1], Begun(init));
      CallIsRecorded(Run(NewMonitor(capacity), init), actions[|actions| - 1], Calls(init));
    }
  }

  // ----- Progress -----

  lemma OneActionMore(m: Monitor, actions: seq<Action>, a: Action) returns (more: seq<Action>)
    requires Legal(m, actions) && Enabled(Run(m, actions), a)
    ensures more == actions + [a]
    ensures Legal(m, more) && Run(m, more) == Next(Run(m, actions), a)
  {
    more := actions + [a];
    assert more[..|more| - 1] == actions;
  }

  /** A caller that is not waiting to be told anything: it wants the lock. */
  predicate WantsLock(w: Waiter) {
    w.pc.Entering? || (w.pc.Parked? && w.notified)
  }

  /** The lock is free, and caller `i` still wants it. */
  predicate FreeFor(m: Monitor, i: nat) {
    m.owner == Nobody && i < |m.waiters| && WantsLock(m.waiters[i])
  }

  function StepsToFinish(phase: Phase): nat {
    if phase.Holding? then 3 else if phase.Changed? then 2 else 1
  }

  lemma {:induction false} ChangerCanFinish(start: Monitor, actions: seq<Action>, i: nat) returns (more: seq<Action>)
    requires Legal(start, actions) && Run(start, actions).owner.Changer?
    requires i < |Run(start, actions).waiters| && WantsLock(Run(start, actions).waiters[i])
    ensures actions <= more && |more| <= |actions| + StepsToFinish(Run(start, actions).owner.phase)
    ensures Legal(start, more) && FreeFor(Run(start, more), i)
    decreases StepsToFinish(Run(start, actions).owner.phase)
  {
    var phase := Run(start, actions).owner.phase;
    more := OneActionMore(start, actions,
                          if phase.Holding? then Mutate else if phase.Changed? then Broadcast else Finish);
    if Run(start, more).owner != Nobody {
      more := ChangerCanFinish(start, more, i);
    }
  }

  /** How many steps the holder of the lock is from giving it up. */
  function StepsToLeave(pc: Pc): nat {
    if pc.Checking? then 3 else if pc.Enlisting? then 2 else 1
  }

  lemma {:induction false} CallerCanLeave(start: Monitor, actions: seq<Action>, w: nat, i: nat)
    returns (more: seq<Action>)
    requires Legal(start, actions) && Run(start, actions).owner == Caller(w)
    requires w < |Run(start, actions).waiters| && InCriticalSection(Run(start, actions).waiters[w])
    requires i < |Run(start, actions).waiters| && WantsLock(Run(start, actions).waiters[i])
    ensures actions <= more && |more| <= |actions| + StepsToLeave(Run(start, actions).waiters[w].pc)
    ensures Legal(start, more) && FreeFor(Run(start, more), i)
    decreases StepsToLeave(Run(start, actions).waiters[w].pc)
  {
    var pc := Run(start, actions).waiters[w].pc;
    more := OneActionMore(start, actions,
                          if pc.Checking? then Check(w, false) else if pc.Enlisting? then Enlist(w) else Release(w));
    if Run(start, more).owner != Nobody {
      more := CallerCanLeave(start, more, w, i);
    }
  }

  /** In every reachable state the holder of the lock can give it up within three steps; no caller loses its turn. */
  lemma LockCanBeFreed(capacity: nat, actions: seq<Action>, i: nat) returns (more: seq<Action>)
    requires Legal(NewMonitor(capacity), actions) && i < |Run(NewMonitor(capacity), actions).waiters|
    requires WantsLock(Run(NewMonitor(capacity), actions).waiters[i])
    ensures actions <= more && |more| <= |actions| + 3
    ensures Legal(NewMonitor(capacity), more) && FreeFor(Run(NewMonitor(capacity), more), i)
  {
    var m := Run(NewMonitor(capacity), actions);
    RunKeepsSound(capacity, actions);
    match m.owner
    case Nobody => more := actions;
    case Changer(_, phase) => more := ChangerCanFinish(NewMonitor(capacity), actions, i);
    case Caller(w) =>
      assert WaiterSound(m, w);
      more := CallerCanLeave(NewMonitor(capacity), actions, w, i);
  }

  /** So a caller that enters, or has been notified, can come to check within four steps: it is never stuck. */
  lemma CallersCanCheck(capacity: nat, actions: seq<Action>, i: nat) returns (more: seq<Action>)
    requires Legal(NewMonitor(capacity), actions) && i < |Run(NewMonitor(capacity), actions).waiters|
    requires WantsLock(Run(NewMonitor(capacity), actions).waiters[i])
    ensures actions <= more && |more| <= |actions| + 4 && Legal(NewMonitor(capacity), more)
    ensures i < |Run(NewMonitor(capacity), more).waiters| && Run(NewMonitor(capacity), more).waiters[i].pc.Checking?
  {
    more := LockCanBeFreed(capacity, actions, i);
    more := OneActionMore(NewMonitor(capacity), more, Acquire(i));
  }

  function StepsToWake(w: Waiter): nat {
    if w.pc.Enlisting? then 3 else if w.pc.Releasing? then 2 else if WantsLock(w) then 0 else 1
  }

  /** The next step of a caller on its way to wait; a parked one is woken by its timer. */
  function Towards(w: Waiter, i: nat): Action {
    if w.pc.Enlisting? then Enlist(i) else if w.pc.Releasing? then Release(i) else TimerFires
  }

  lemma OneStepToWake(m: Monitor, i: nat)
    requires i < |m.waiters| && !WantsLock(m.waiters[i])
    requires !m.waiters[i].pc.Returned? && !m.waiters[i].pc.Checking?
    ensures Enabled(m, Towards(m.waiters[i], i))
    ensures var m' := Next(m, Towards(m.waiters[i], i));
            && i < |m'.waiters| && StepsToWake(m'.waiters[i]) < StepsToWake(m.waiters[i])
            && !m'.waiters[i].pc.Returned? && !m'.waiters[i].pc.Checking?
  {
    if m.waiters[i].pc.Parked? {
      assert Next(m, TimerFires).waiters[i] == m.waiters[i].(notified := true);
    }
  }

  /** A caller on its way to wait can be parked and, by its timer, told to look again. */
  lemma {:induction false} CallersCanBeWoken(start: Monitor, actions: seq<Action>, i: nat) returns (more: seq<Action>)
    requires Legal(start, actions) && i < |Run(start, actions).waiters|
    requires !Run(start, actions).waiters[i].pc.Returned? && !Run(start, actions).waiters[i].pc.Checking?
    ensures actions <= more && |more| <= |actions| + StepsToWake(Run(start, actions).waiters[i])
    ensures Legal(start, more) && i < |Run(start, more).waiters| && WantsLock(Run(start, more).waiters[i])
    decreases StepsToWake(Run(start, actions).waiters[i])
  {
    if WantsLock(Run(start, actions).waiters[i]) {
      more := actions;
    } else {
      OneStepToWake(Run(start, actions), i);
      more := OneActionMore(start, actions, Towards(Run(start, actions).waiters[i], i));
      more := CallersCanBeWoken(start, more, i);
    }
  }

  /** In every reachable state every call that has not returned can return within eight steps once it is late. */
  lemma CallsCanReturn(capacity: nat, actions: seq<Action>, i: nat) returns (more: seq<Action>)
    requires Legal(NewMonitor(capacity), actions) && i < |Run(NewMonitor(capacity), actions).waiters|
    requires !Run(NewMonitor(capacity), actions).waiters[i].pc.Returned?
    ensures actions <= more && |more| <= |actions| + 8 && Legal(NewMonitor(capacity), more)
    ensures i < |Run(NewMonitor(capacity), more).waiters| && Run(NewMonitor(capacity), more).waiters[i].pc.Returned?
  {
    more := actions;
    if !Run(NewMonitor(capacity), actions).waiters[i].pc.Checking? {
      more := CallersCanBeWoken(NewMonitor(capacity), actions, i);
      more := CallersCanCheck(capacity, more, i);
    }
    more := OneActionMore(NewMonitor(capacity), more, Check(i, true));
  }

  /** At most one thread is between taking and releasing the lock. */
  lemma MutualExclusion(capacity: nat, actions: seq<Action>, i: nat, j: nat)
    requires Legal(NewMonitor(capacity), actions)
    requires i < |Run(NewMonitor(capacity), actions).waiters| && j < |Run(NewMonitor(capacity), actions).waiters|
    ensures var m := Run(NewMonitor(capacity), actions);
            InCriticalSection(m.waiters[i]) ==>
              !m.owner.Changer? && (InCriticalSection(m.waiters[j]) ==> i == j)
  {
    RunKeepsSound(capacity, actions);
    assert WaiterSound(Run(NewMonitor(capacity), actions), i);
    assert WaiterSound(Run(NewMonitor(capacity), actions), j);
  }
}
