/**
 The shutdown protocol: a write-once start time, waiters that must not miss its
 notification, and a controller that lets one caller run the shutdown sequence.
 */
module Shutdown {
  import opened Wrappers

  function RemainingAt(startedAt: Option<nat>, grace: nat, now: nat): nat {
    match startedAt
    case None => grace
    case Some(start) =>
      var elapsed := if now < start then 0 else now - start;
      if elapsed < grace then grace - elapsed else 0
  }

  /** The start time is written once. */
  function Begun(startedAt: Option<nat>, now: nat): Option<nat> {
    if startedAt.Some? then startedAt else Some(now)
  }

  class ShutdownTracker {
    const grace: nat
    var startedAt: Option<nat>
    var notifications: nat

    constructor (grace: nat)
      ensures this.grace == grace && startedAt == None && notifications == 0
    {
      this.grace := grace;
      startedAt := None;
      notifications := 0;
    }

    /** Only the call that sets the start time notifies the waiters. */
    method Begin(now: nat)
      modifies this
      ensures startedAt == Begun(old(startedAt), now)
      ensures startedAt == if old(startedAt) == None then Some(now) else old(startedAt)
      ensures notifications == old(notifications) + if old(startedAt).Some? then 0 else 1
    {
      if startedAt.None? {
        startedAt := Some(now);
        notifications := notifications + 1;
      }
    }

    function Remaining(now: nat): (left: nat)
      reads this
      ensures left <= grace
      ensures startedAt == None || (startedAt.Some? && now <= startedAt.value) ==> left == grace
      ensures startedAt.Some? && startedAt.value <= now < startedAt.value + grace ==>
        left + (now - startedAt.value) == grace
      ensures startedAt.Some? && startedAt.value + grace <= now ==> left == 0
    {
      RemainingAt(startedAt, grace, now)
    }
  }

  class HttpLifecycleController {
    const tracker: ShutdownTracker
    var shutdownStarted: bool
    var executorClosed: bool
    var cancelled: bool

    constructor (tracker: ShutdownTracker)
      ensures this.tracker == tracker && !shutdownStarted && !executorClosed && !cancelled
    {
      this.tracker := tracker;
      shutdownStarted := false;
      executorClosed := false;
      cancelled := false;
    }

    /** The whole sequence, run without interruption. */
    method BeginShutdown(now: nat) returns (won: bool)
      modifies this, tracker
      ensures won <==> !old(shutdownStarted)
      ensures won ==> shutdownStarted && executorClosed && cancelled
      ensures won && old(tracker.startedAt) == None ==>
        tracker.startedAt == Some(now) && tracker.notifications == old(tracker.notifications) + 1
      ensures old(tracker.startedAt) != None ==>
        tracker.startedAt == old(tracker.startedAt) && tracker.notifications == old(tracker.notifications)
      ensures !won ==> unchanged(this) && unchanged(tracker)
    {
      if shutdownStarted {
        return false;
      }
      shutdownStarted := true;
      tracker.Begin(now);
      executorClosed := true;
      cancelled := true;
      return true;
    }
  }

  // ---------------------------------------------------------------------
  // Interleaved: any number of waiters and callers
  // ---------------------------------------------------------------------

  /**
   One `expired()` call. `woken` is whether the notification has reached the
   future; a future that is made but not yet enabled may or may not be reached.
   */
  datatype Waiter =
    | AtTop
    | Made(woken: bool)
    | Enabled(woken: bool)
    | Parked(woken: bool)
    | Sleeping(until: nat)
    | Expired

  /**
   A thread running a shutdown sequence. With `controller` it came through
   `begin_shutdown` and won its flag; without, it is a transport that calls
   `begin` and `close` itself.
   */
  datatype Caller =
    | Entering
    | Setting(controller: bool)
    | Notifying(controller: bool)
    | Closing(controller: bool)
    | Cancelling
    | Returned(won: bool)
    | Left

  /** `wait_for_transport`, racing its transport against its waiter. */
  datatype Transport = Polling | Finished(ok: bool) | TimedOut

  /** `startedBy` and `winner` record which thread set the time and the flag. */
  datatype State = State(
    clock: nat,
    startedAt: Option<nat>,
    startedBy: Option<nat>,
    notified: bool,
    winner: Option<nat>,
    closed: bool,
    cancelled: bool,
    waiters: map<nat, Waiter>,
    callers: map<nat, Caller>,
    transports: map<nat, Transport>)

  datatype Action =
    | Tick(elapsed: nat)
    | StartWaiter(w: nat)
    | StepWaiter(w: nat)
    | StartController(c: nat)
    | StartOther(c: nat)
    | StepCaller(c: nat, reached: set<nat>)
    | Poll(w: nat, ready: Option<bool>)

  ghost predicate Init(st: State) {
    st.startedAt.None? && st.startedBy.None? && !st.notified && st.winner.None? && !st.closed && !st.cancelled &&
    st.waiters == map[] && st.callers == map[] && st.transports == map[]
  }

  /** The next phase of a waiter, if it can move. */
  function WaiterNext(st: State, grace: nat, phase: Waiter): Option<Waiter> {
    match phase
    case AtTop => Some(if st.startedAt.Some? then Sleeping(st.startedAt.value + grace) else Made(false))
    case Made(woken) => Some(Enabled(woken))
    case Enabled(woken) => Some(if st.startedAt.Some? then AtTop else Parked(woken))
    case Parked(woken) => if woken then Some(AtTop) else None
    case Sleeping(until) => if st.clock >= until then Some(Expired) else None
    case Expired => None
  }

  /** `notify_waiters`: every enabled future, and those made that it reached. */
  function Notify(phase: Waiter, reached: bool): Waiter {
    match phase
    case Made(woken) => Made(woken || reached)
    case Enabled(_) => Enabled(true)
    case Parked(_) => Parked(true)
    case other => other
  }

  /** The compare-exchange on the controller's flag. */
  function EnterTo(st: State, c: nat): State {
    if st.winner.Some? then st.(callers := st.callers[c := Returned(false)])
    else st.(winner := Some(c), callers := st.callers[c := Setting(true)])
  }

  /** The write-once start time. */
  function SetTo(st: State, c: nat, controller: bool): State {
    if st.startedAt.Some? then st.(callers := st.callers[c := Closing(controller)])
    else
      st.(
        startedAt := Begun(st.startedAt, st.clock),
        startedBy := Some(c),
        callers := st.callers[c := Notifying(controller)])
  }

  function NotifyTo(st: State, c: nat, controller: bool, reached: set<nat>): State {
    st.(
      notified := true,
      waiters := map w | w in st.waiters :: Notify(st.waiters[w], w in reached),
      callers := st.callers[c := Closing(controller)])
  }

  function CloseTo(st: State, c: nat, controller: bool): State {
    st.(closed := true, callers := st.callers[c := if controller then Cancelling else Left])
  }

  function CancelTo(st: State, c: nat): State {
    st.(cancelled := true, callers := st.callers[c := Returned(true)])
  }

  /** The next step of a caller, if it has one. */
  function CallerTo(st: State, c: nat, reached: set<nat>): Option<State>
    requires c in st.callers
  {
    match st.callers[c]
    case Entering => Some(EnterTo(st, c))
    case Setting(controller) => Some(SetTo(st, c, controller))
    case Notifying(controller) => Some(NotifyTo(st, c, controller, reached))
    case Closing(controller) => Some(CloseTo(st, c, controller))
    case Cancelling => Some(CancelTo(st, c))
    case Returned(_) => None
    case Left => None
  }

  ghost predicate Next(grace: nat, st: State, a: Action, st': State) {
    match a
    case Tick(elapsed) => st' == st.(clock := st.clock + elapsed)
    case StartWaiter(w) =>
      w !in st.waiters && w !in st.transports &&
      st' == st.(waiters := st.waiters[w := AtTop], transports := st.transports[w := Polling])
    case StepWaiter(w) =>
      w in st.waiters && WaiterNext(st, grace, st.waiters[w]).Some? &&
      st' == st.(waiters := st.waiters[w := WaiterNext(st, grace, st.waiters[w]).value])
    case StartController(c) => c !in st.callers && st' == st.(callers := st.callers[c := Entering])
    case StartOther(c) => c !in st.callers && st' == st.(callers := st.callers[c := Setting(false)])
    case StepCaller(c, reached) => c in st.callers && CallerTo(st, c, reached) == Some(st')
    case Poll(w, ready) =>
      w in st.transports && w in st.waiters && st.transports[w].Polling? &&
      st' == st.(transports := st.transports[w :=
        if ready.Some? then Finished(ready.value) else if st.waiters[w].Expired? then TimedOut else Polling])
  }

  ghost predicate IsRun(grace: nat, run: seq<State>, actions: seq<Action>) {
    |run| == |actions| + 1 && Init(run[0]) &&
    forall k | 0 <= k < |actions| :: Next(grace, run[k], actions[k], run[k + 1])
  }

  predicate GraceOver(st: State, grace: nat) {
    st.startedAt.Some? && st.startedAt.value + grace <= st.clock
  }

  /** A parked waiter is woken, or the notification is still to come. */
  predicate WaiterOk(st: State, grace: nat, phase: Waiter) {
    match phase
    case Parked(woken) => woken || !st.notified
    case Sleeping(until) => st.startedAt.Some? && until == st.startedAt.value + grace
    case Expired => GraceOver(st, grace)
    case _ => true
  }

  /** Past the compare-exchange, as its winner. */
  predicate Won(phase: Caller) {
    match phase
    case Setting(controller) => controller
    case Notifying(controller) => controller
    case Closing(controller) => controller
    case Cancelling => true
    case Returned(won) => won
    case _ => false
  }

  predicate CallerOk(st: State, c: nat)
    requires c in st.callers
  {
    (Won(st.callers[c]) <==> st.winner == Some(c)) &&
    (st.callers[c].Notifying? <==> st.startedBy == Some(c) && !st.notified) &&
    match st.callers[c]
    case Closing(_) => st.startedAt.Some?
    case Cancelling => st.startedAt.Some? && st.closed
    case Returned(won) => st.winner.Some? && (won ==> st.cancelled)
    case _ => true
  }

  ghost predicate Inv(grace: nat, st: State) {
    && (st.startedAt.Some? <==> st.startedBy.Some?)
    && (st.startedAt.Some? ==> st.startedAt.value <= st.clock && st.startedBy.value in st.callers)
    && (st.winner.Some? ==> st.winner.value in st.callers)
    && (st.notified ==> st.startedAt.Some?)
    && (st.cancelled ==> st.startedAt.Some? && st.closed)
    && (forall w | w in st.waiters :: WaiterOk(st, grace, st.waiters[w]))
    && (forall c | c in st.callers :: CallerOk(st, c))
    && (forall w | w in st.transports && st.transports[w].TimedOut? :: GraceOver(st, grace))
  }

  /** The step leaves the tracker, the flag, the executor and the token alone. */
  predicate SameFlags(st: State, st': State) {
    st'.startedAt == st.startedAt && st'.startedBy == st.startedBy && st'.notified == st.notified &&
    st'.winner == st.winner && st'.closed == st.closed && st'.cancelled == st.cancelled && st.clock <= st'.clock
  }

  lemma WaiterMoves(grace: nat, st: State, w: nat)
    requires Inv(grace, st) && w in st.waiters && WaiterNext(st, grace, st.waiters[w]).Some?
    ensures WaiterOk(st, grace, WaiterNext(st, grace, st.waiters[w]).value)
  {
    hide CallerOk;
    assert WaiterOk(st, grace, st.waiters[w]);
  }

  /** Steps that leave the flags alone and only let callers join. */
  lemma SameFlagsKeepInv(grace: nat, st: State, st': State)
    requires Inv(grace, st) && SameFlags(st, st')
    requires forall c | c in st.callers :: c in st'.callers && st'.callers[c] == st.callers[c]
    requires forall c | c in st'.callers && c !in st.callers ::
      st'.callers[c] == Entering || st'.callers[c] == Setting(false)
    requires forall w | w in st'.waiters :: WaiterOk(st, grace, st'.waiters[w])
    requires forall w | w in st'.transports && st'.transports[w].TimedOut? :: GraceOver(st, grace)
    ensures Inv(grace, st')
  {
    forall w | w in st'.waiters ensures WaiterOk(st', grace, st'.waiters[w]) {
      assert WaiterOk(st, grace, st'.waiters[w]);
    }
    forall c | c in st'.callers ensures CallerOk(st', c) {
      assert c in st.callers ==> CallerOk(st, c);
    }
  }

  lemma PassiveStepKeepsInv(grace: nat, st: State, a: Action, st': State)
    requires Inv(grace, st) && !a.StepCaller? && Next(grace, st, a, st')
    ensures Inv(grace, st')
  {
    if a.StepWaiter? { WaiterMoves(grace, st, a.w); }
    if a.Poll? { assert WaiterOk(st, grace, st.waiters[a.w]); }
    assert forall w | w in st'.waiters :: WaiterOk(st, grace, st'.waiters[w]) by { hide CallerOk, GraceOver; }
    assert forall w | w in st'.transports && st'.transports[w].TimedOut? :: GraceOver(st, grace) by {
      hide CallerOk, GraceOver;
    }
    hide Inv, WaiterOk, WaiterNext, GraceOver;
    SameFlagsKeepInv(grace, st, st');
  }

  lemma StepKeepsInv(grace: nat, st: State, a: Action, st': State)
    requires Inv(grace, st) && Next(grace, st, a, st')
    ensures Inv(grace, st')
  {
    hide Inv, CallerTo, WaiterNext;
    if a.StepCaller? {
      CallerStepKeepsInv(grace, st, a.c, a.reached, st');
    } else {
      PassiveStepKeepsInv(grace, st, a, st');
    }
  }

  lemma CallerStepKeepsInv(grace: nat, st: State, c: nat, reached: set<nat>, st': State)
    requires Inv(grace, st) && c in st.callers && CallerTo(st, c, reached) == Some(st')
    ensures Inv(grace, st')
  {
    hide Inv, EnterTo, SetTo, NotifyTo, CloseTo, CancelTo;
    match st.callers[c]
    case Entering => EnterKeepsInv(grace, st, c);
    case Setting(controller) => SetKeepsInv(grace, st, c, controller);
    case Notifying(controller) => NotifyKeepsInv(grace, st, c, controller, reached);
    case Closing(controller) => CloseKeepsInv(grace, st, c, controller);
    case Cancelling => CancelKeepsInv(grace, st, c);
  }

  lemma EnterKeepsInv(grace: nat, st: State, c: nat)
    requires Inv(grace, st) && c in st.callers && st.callers[c] == Entering
    ensures Inv(grace, EnterTo(st, c))
  {
    assert CallerOk(st, c);
    var st' := EnterTo(st, c);
    forall w | w in st'.waiters ensures WaiterOk(st', grace, st'.waiters[w]) {
      assert WaiterOk(st, grace, st.waiters[w]);
    }
    forall d | d in st'.callers ensures CallerOk(st', d) {
      assert CallerOk(st, d);
    }
  }

  lemma SetKeepsInv(grace: nat, st: State, c: nat, controller: bool)
    requires Inv(grace, st) && c in st.callers && st.callers[c] == Setting(controller)
    ensures Inv(grace, SetTo(st, c, controller))
  {
    assert CallerOk(st, c);
    var st' := SetTo(st, c, controller);
    forall w | w in st'.waiters ensures WaiterOk(st', grace, st'.waiters[w]) {
      assert WaiterOk(st, grace, st.waiters[w]);
    }
    forall d | d in st'.callers ensures CallerOk(st', d) {
      assert CallerOk(st, d);
    }
  }

  lemma NotifyKeepsInv(grace: nat, st: State, c: nat, controller: bool, reached: set<nat>)
    requires Inv(grace, st) && c in st.callers && st.callers[c] == Notifying(controller)
    ensures Inv(grace, NotifyTo(st, c, controller, reached))
  {
    assert CallerOk(st, c);
    var st' := NotifyTo(st, c, controller, reached);
    forall w | w in st'.waiters ensures WaiterOk(st', grace, st'.waiters[w]) {
      assert WaiterOk(st, grace, st.waiters[w]);
    }
    forall d | d in st'.callers ensures CallerOk(st', d) {
      assert CallerOk(st, d);
    }
  }

  lemma CloseKeepsInv(grace: nat, st: State, c: nat, controller: bool)
    requires Inv(grace, st) && c in st.callers && st.callers[c] == Closing(controller)
    ensures Inv(grace, CloseTo(st, c, controller))
  {
    assert CallerOk(st, c);
    var st' := CloseTo(st, c, controller);
    forall w | w in st'.waiters ensures WaiterOk(st', grace, st'.waiters[w]) {
      assert WaiterOk(st, grace, st.waiters[w]);
    }
    forall d | d in st'.callers ensures CallerOk(st', d) {
      assert CallerOk(st, d);
    }
  }

  lemma CancelKeepsInv(grace: nat, st: State, c: nat)
    requires Inv(grace, st) && c in st.callers && st.callers[c] == Cancelling
    ensures Inv(grace, CancelTo(st, c))
  {
    assert CallerOk(st, c);
    var st' := CancelTo(st, c);
    forall w | w in st'.waiters ensures WaiterOk(st', grace, st'.waiters[w]) {
      assert WaiterOk(st, grace, st.waiters[w]);
    }
    forall d | d in st'.callers ensures CallerOk(st', d) {
      assert CallerOk(st, d);
    }
  }

  lemma {:induction false} ReachableInv(grace: nat, run: seq<State>, actions: seq<Action>, k: nat)
    requires IsRun(grace, run, actions) && k < |run|
    ensures Inv(grace, run[k])
  {
    if k > 0 {
      ReachableInv(grace, run, actions, k - 1);
      StepKeepsInv(grace, run[k - 1], actions[k - 1], run[k]);
    }
  }

  // ---------------------------------------------------------------------
  // What the protocol promises
  // ---------------------------------------------------------------------

  /**
   No wakeup is lost: once the start time is set, either the thread that set it
   has its notification still ahead, or no waiter is parked without a wakeup.
   */
  lemma NoLostWakeup(grace: nat, run: seq<State>, actions: seq<Action>, k: nat)
    requires IsRun(grace, run, actions) && k < |run| && run[k].startedAt.Some?
    ensures var st := run[k];
      (exists c :: c in st.callers && st.callers[c].Notifying?) ||
      (forall w | w in st.waiters :: st.waiters[w] != Parked(false))
  {
    ReachableInv(grace, run, actions, k);
    var st := run[k];
    if !st.notified {
      assert CallerOk(st, st.startedBy.value);
    } else {
      forall w | w in st.waiters ensures st.waiters[w] != Parked(false) {
        assert WaiterOk(st, grace, st.waiters[w]);
      }
    }
  }

  /** How many of its own steps a waiter still needs once shutdown has begun. */
  function StepsLeft(phase: Waiter): nat {
    match phase
    case Made(_) => 5
    case Enabled(_) => 4
    case Parked(_) => 3
    case AtTop => 2
    case Sleeping(_) => 1
    case Expired => 0
  }

  /** After the notification every waiter can move, except to sleep out the grace. */
  lemma WaiterNeverStuck(grace: nat, run: seq<State>, actions: seq<Action>, k: nat, w: nat)
    requires IsRun(grace, run, actions) && k < |run| && run[k].notified && w in run[k].waiters
    ensures var st := run[k];
      WaiterNext(st, grace, st.waiters[w]).Some? || st.waiters[w].Expired? ||
      (st.waiters[w].Sleeping? && !GraceOver(st, grace))
  {
    ReachableInv(grace, run, actions, k);
    assert WaiterOk(run[k], grace, run[k].waiters[w]);
  }

  predicate IsStepOf(a: Action, w: nat) {
    a == StepWaiter(w)
  }

  function StepCount(actions: seq<Action>, w: nat): nat {
    if actions == [] then 0
    else StepCount(actions[..|actions| - 1], w) + if IsStepOf(actions[|actions| - 1], w) then 1 else 0
  }

  lemma CallerLeavesWaiter(st: State, c: nat, reached: set<nat>, st': State, w: nat)
    requires c in st.callers && CallerTo(st, c, reached) == Some(st') && w in st.waiters
    ensures w in st'.waiters && StepsLeft(st'.waiters[w]) == StepsLeft(st.waiters[w])
    ensures st.startedAt.Some? ==> st'.startedAt == st.startedAt
  {
    if st.callers[c].Notifying? {
      assert st'.waiters[w] == Notify(st.waiters[w], w in reached);
    } else {
      hide StepsLeft;
    }
  }

  lemma StepUsesOne(grace: nat, st: State, a: Action, st': State, w: nat)
    requires Next(grace, st, a, st') && st.startedAt.Some? && w in st.waiters
    ensures st'.startedAt == st.startedAt && w in st'.waiters
    ensures StepsLeft(st'.waiters[w]) + (if IsStepOf(a, w) then 1 else 0) <= StepsLeft(st.waiters[w])
  {
    if a.StepCaller? {
      hide StepsLeft, CallerTo;
      CallerLeavesWaiter(st, a.c, a.reached, st', w);
    } else {
      hide CallerTo;
    }
  }

  /** The wait loop ends: from the start on, a waiter takes at most five steps. */
  lemma {:induction false} WaiterStepsBounded(grace: nat, run: seq<State>, actions: seq<Action>, i: nat, j: nat, w: nat)
    requires IsRun(grace, run, actions) && i <= j < |run|
    requires run[i].startedAt.Some? && w in run[i].waiters
    ensures run[j].startedAt == run[i].startedAt && w in run[j].waiters
    ensures StepCount(actions[i..j], w) + StepsLeft(run[j].waiters[w]) <= StepsLeft(run[i].waiters[w])
    decreases j
  {
    hide Next, StepsLeft, IsStepOf;
    if i < j {
      WaiterStepsBounded(grace, run, actions, i, j - 1, w);
      assert actions[i..j][..j - i - 1] == actions[i..j - 1] && actions[i..j][j - i - 1] == actions[j - 1];
      StepUsesOne(grace, run[j - 1], actions[j - 1], run[j], w);
    }
  }

  /** The start time is written once, and the remaining grace only shrinks. */
  lemma {:induction false} RemainingNeverGrows(grace: nat, run: seq<State>, actions: seq<Action>, i: nat, j: nat)
    requires IsRun(grace, run, actions) && i <= j < |run|
    ensures run[i].startedAt.Some? ==> run[j].startedAt == run[i].startedAt
    ensures var before := RemainingAt(run[i].startedAt, grace, run[i].clock);
      RemainingAt(run[j].startedAt, grace, run[j].clock) <= before <= grace
    decreases j
  {
    ReachableInv(grace, run, actions, i);
    if i < j {
      RemainingNeverGrows(grace, run, actions, i, j - 1);
      ReachableInv(grace, run, actions, j - 1);
      StepShrinksRemaining(grace, run[j - 1], actions[j - 1], run[j]);
    }
  }

  /** A step leaves the start time alone, or sets it to the clock as it stands. */
  lemma StepKeepsStart(grace: nat, st: State, a: Action, st': State)
    requires Next(grace, st, a, st')
    ensures st'.startedAt == st.startedAt || (st.startedAt.None? && st'.startedAt == Some(st'.clock))
    ensures st.clock <= st'.clock
  {
    if a.StepCaller? {
      CallerKeepsStart(st, a.c, a.reached, st');
    }
    hide CallerTo;
  }

  lemma CallerKeepsStart(st: State, c: nat, reached: set<nat>, st': State)
    requires c in st.callers && CallerTo(st, c, reached) == Some(st')
    ensures st'.startedAt == st.startedAt || (st.startedAt.None? && st'.startedAt == Some(st'.clock))
    ensures st.clock == st'.clock
  {
    match st.callers[c]
    case Entering => assert st' == EnterTo(st, c);
    case Setting(controller) => assert st' == SetTo(st, c, controller);
    case Notifying(controller) => assert st' == NotifyTo(st, c, controller, reached);
    case Closing(controller) => assert st' == CloseTo(st, c, controller);
    case Cancelling => assert st' == CancelTo(st, c);
  }

  lemma StepShrinksRemaining(grace: nat, st: State, a: Action, st': State)
    requires Inv(grace, st) && Next(grace, st, a, st')
    ensures st.startedAt.Some? ==> st'.startedAt == st.startedAt
    ensures RemainingAt(st'.startedAt, grace, st'.clock) <= RemainingAt(st.startedAt, grace, st.clock)
  {
    assert st.startedAt.Some? ==> st.startedAt.value <= st.clock;
    hide Inv, Next;
    StepKeepsStart(grace, st, a, st');
  }

  /** A shutdown timeout is reported only when the whole grace has passed. */
  lemma TimeoutOnlyAfterGrace(grace: nat, run: seq<State>, actions: seq<Action>, k: nat, w: nat)
    requires IsRun(grace, run, actions) && k < |run|
    requires w in run[k].transports && run[k].transports[w].TimedOut?
    ensures GraceOver(run[k], grace)
    ensures RemainingAt(run[k].startedAt, grace, run[k].clock) == 0
  {
    ReachableInv(grace, run, actions, k);
  }

  /** A cancelled token implies that the tracker has begun and the executor is closed. */
  lemma CancelledImpliesClosed(grace: nat, run: seq<State>, actions: seq<Action>, k: nat)
    requires IsRun(grace, run, actions) && k < |run| && run[k].cancelled
    ensures run[k].startedAt.Some? && run[k].closed
  {
    ReachableInv(grace, run, actions, k);
  }

  predicate AllReturned(st: State) {
    forall c | c in st.callers :: st.callers[c].Returned? || st.callers[c].Left?
  }

  /**
   Of all `begin_shutdown` calls at most one returns true; once every call has
   returned, and there was one, exactly one has.
   */
  lemma OneShutdownWins(grace: nat, run: seq<State>, actions: seq<Action>, k: nat)
    requires IsRun(grace, run, actions) && k < |run|
    ensures var st := run[k];
      (forall c, d | c in st.callers && d in st.callers ::
        st.callers[c] == Returned(true) && st.callers[d] == Returned(true) ==> c == d) &&
      (AllReturned(st) && (exists c :: c in st.callers && st.callers[c].Returned?) ==>
        exists c :: c in st.callers && st.callers[c] == Returned(true))
  {
    ReachableInv(grace, run, actions, k);
    var st := run[k];
    forall c | c in st.callers ensures CallerOk(st, c) {}
    if AllReturned(st) && exists c :: c in st.callers && st.callers[c].Returned? {
      var c :| c in st.callers && st.callers[c].Returned?;
      assert CallerOk(st, st.winner.value);
    }
  }

  // ---------------------------------------------------------------------
  // One caller by itself
  // ---------------------------------------------------------------------

  /** The caller takes `n` steps with nobody in between. */
  predicate Alone(st: State, c: nat, reached: set<nat>, n: nat, st': State)
    requires c in st.callers
    decreases n
  {
    if n == 0 then st' == st
    else
      CallerTo(st, c, reached).Some? && c in CallerTo(st, c, reached).value.callers &&
      Alone(CallerTo(st, c, reached).value, c, reached, n - 1, st')
  }

  /** The steps of one `begin_shutdown`, uninterrupted, do what `BeginShutdown` does. */
  lemma ShutdownAlone(st: State, c: nat, reached: set<nat>) returns (n: nat, st': State)
    requires c in st.callers && st.callers[c] == Entering
    ensures Alone(st, c, reached, n, st') && c in st'.callers && st'.callers[c] == Returned(st.winner.None?)
    ensures st.winner.None? ==>
      st'.winner == Some(c) && st'.closed && st'.cancelled && st'.startedAt == Begun(st.startedAt, st.clock) &&
      (st.startedAt.None? ==> st'.notified)
    ensures st.winner.Some? ==> st' == st.(callers := st.callers[c := Returned(false)])
  {
    if st.winner.Some? {
      n, st' := 1, EnterTo(st, c);
      AloneStep(st, c, reached, 0, st', st');
    } else {
      n, st' := WinnerAlone(st, c, reached);
    }
  }

  lemma WinnerAlone(st: State, c: nat, reached: set<nat>) returns (n: nat, st': State)
    requires c in st.callers && st.callers[c] == Entering && st.winner.None?
    ensures Alone(st, c, reached, n, st') && c in st'.callers && st'.callers[c] == Returned(true)
    ensures st'.winner == Some(c) && st'.closed && st'.cancelled && st'.startedAt == Begun(st.startedAt, st.clock)
    ensures st.startedAt.None? ==> st'.notified
  {
    hide Notify, Alone;
    var s1 := EnterTo(st, c);
    var s2 := SetTo(s1, c, true);
    var s3 := if st.startedAt.None? then NotifyTo(s2, c, true, reached) else s2;
    var s4 := CloseTo(s3, c, true);
    st', n := CancelTo(s4, c), if st.startedAt.None? then 5 else 4;
    AloneEnds(st', c, reached);
    AloneStep(s4, c, reached, 0, st', st');
    AloneStep(s3, c, reached, 1, s4, st');
    if st.startedAt.None? { AloneStep(s2, c, reached, 2, s3, st'); }
    AloneStep(s1, c, reached, n - 2, s2, st');
    AloneStep(st, c, reached, n - 1, s1, st');
  }

  lemma AloneEnds(st: State, c: nat, reached: set<nat>)
    requires c in st.callers
    ensures Alone(st, c, reached, 0, st)
  {
  }

  lemma AloneStep(st: State, c: nat, reached: set<nat>, n: nat, next: State, st': State)
    requires c in st.callers && CallerTo(st, c, reached) == Some(next)
    requires c in next.callers && Alone(next, c, reached, n, st')
    ensures Alone(st, c, reached, n + 1, st')
  {
    hide CallerTo;
  }

  // ---------------------------------------------------------------------
  // Waiters and transports from start to end
  // ---------------------------------------------------------------------

  ghost predicate Follow(grace: nat, states: seq<State>, actions: seq<Action>) {
    |states| == |actions| + 1 && forall k | 0 <= k < |actions| :: Next(grace, states[k], actions[k], states[k + 1])
  }

  /** Its future is made and enabled, and it sleeps until somebody notifies. */
  lemma WaiterParks(grace: nat, st: State, w: nat) returns (states: seq<State>, actions: seq<Action>)
    requires st.startedAt == None && w !in st.waiters && w !in st.transports
    ensures actions == [StartWaiter(w), StepWaiter(w), StepWaiter(w), StepWaiter(w)]
    ensures Follow(grace, states, actions) && states[0] == st && |states| == 5
    ensures states[4] == st.(
      waiters := st.waiters[w := Parked(false)], transports := st.transports[w := Polling])
    ensures forall next :: !Next(grace, states[4], StepWaiter(w), next)
  {
    hide CallerTo;
    var s1 := st.(waiters := st.waiters[w := AtTop], transports := st.transports[w := Polling]);
    var s2 := s1.(waiters := st.waiters[w := Made(false)]);
    var s3 := s1.(waiters := st.waiters[w := Enabled(false)]);
    var s4 := s1.(waiters := st.waiters[w := Parked(false)]);
    assert s1.waiters[w := Made(false)] == s2.waiters && s2.waiters[w := Enabled(false)] == s3.waiters;
    assert s3.waiters[w := Parked(false)] == s4.waiters;
    assert Next(grace, st, StartWaiter(w), s1) && Next(grace, s1, StepWaiter(w), s2);
    assert Next(grace, s2, StepWaiter(w), s3) && Next(grace, s3, StepWaiter(w), s4);
    assert WaiterNext(s4, grace, Parked(false)) == None;
    assert forall next :: !Next(grace, s4, StepWaiter(w), next);
    hide Next, WaiterNext;
    states, actions := [st, s1, s2, s3, s4], [StartWaiter(w), StepWaiter(w), StepWaiter(w), StepWaiter(w)];
  }

  /** What a notification does: it wakes the parked and the enabled, and of the futures just made those it reached. */
  lemma NotifyWakes(st: State, c: nat, controller: bool, reached: set<nat>, w: nat)
    requires w in st.waiters
    ensures w in NotifyTo(st, c, controller, reached).waiters
    ensures var before, after := st.waiters[w], NotifyTo(st, c, controller, reached).waiters[w];
      match before
      case Parked(_) => after == Parked(true)
      case Enabled(_) => after == Enabled(true)
      case Made(woken) => after == Made(woken || w in reached)
      case _ => after == before
  {
  }

  /** A woken waiter sleeps until start plus grace, and then its transport is told of the timeout. */
  lemma WokenTimesOut(grace: nat, st: State, w: nat, elapsed: nat)
      returns (states: seq<State>, actions: seq<Action>)
    requires st.startedAt.Some? && w in st.waiters && st.waiters[w] == Parked(true)
    requires w in st.transports && st.transports[w] == Polling && st.startedAt.value + grace <= st.clock + elapsed
    ensures actions == [StepWaiter(w), StepWaiter(w), Tick(elapsed), StepWaiter(w), Poll(w, None)]
    ensures Follow(grace, states, actions) && states[0] == st && |states| == 6
    ensures states[2] == st.(waiters := st.waiters[w := Sleeping(st.startedAt.value + grace)])
    ensures states[5] == st.(
      clock := st.clock + elapsed,
      waiters := st.waiters[w := Expired],
      transports := st.transports[w := TimedOut])
  {
    hide CallerTo;
    var until := st.startedAt.value + grace;
    var s1 := st.(waiters := st.waiters[w := AtTop]);
    var s2 := st.(waiters := st.waiters[w := Sleeping(until)]);
    var s3 := s2.(clock := st.clock + elapsed);
    var s4 := s3.(waiters := st.waiters[w := Expired]);
    var s5 := s4.(transports := st.transports[w := TimedOut]);
    assert s1.waiters[w := Sleeping(until)] == s2.waiters && s3.waiters[w := Expired] == s4.waiters;
    states := [st, s1, s2, s3, s4, s5];
    actions := [StepWaiter(w), StepWaiter(w), Tick(elapsed), StepWaiter(w), Poll(w, None)];
  }

  /** A sleeper moves exactly when start plus grace has come. */
  lemma SleeperWaits(grace: nat, st: State, w: nat, until: nat)
    requires w in st.waiters && st.waiters[w] == Sleeping(until)
    ensures (exists next :: Next(grace, st, StepWaiter(w), next)) <==> until <= st.clock
  {
    if until <= st.clock { assert Next(grace, st, StepWaiter(w), st.(waiters := st.waiters[w := Expired])); }
  }

  /** The result of the transport comes first, whatever its waiter says; without either it is polled again. */
  lemma TransportComesFirst(grace: nat, st: State, w: nat, ok: bool)
    requires w in st.waiters && w in st.transports && st.transports[w] == Polling
    ensures Next(grace, st, Poll(w, Some(ok)), st.(transports := st.transports[w := Finished(ok)]))
    ensures st.waiters[w] != Expired ==> Next(grace, st, Poll(w, None), st)
  {
    assert st.transports[w := Polling] == st.transports;
  }

  /** The calls begin so. */
  lemma CallersStart(grace: nat, st: State, c: nat)
    requires c !in st.callers
    ensures Next(grace, st, StartController(c), st.(callers := st.callers[c := Entering]))
    ensures Next(grace, st, StartOther(c), st.(callers := st.callers[c := Setting(false)]))
  {
  }

  lemma OtherSets(grace: nat, st: State, c: nat, reached: set<nat>)
    ensures st.startedAt == None ==>
      Next(grace, st.(callers := st.callers[c := Setting(false)]), StepCaller(c, reached),
        st.(startedAt := Some(st.clock), startedBy := Some(c), callers := st.callers[c := Notifying(false)]))
    ensures st.startedAt.Some? ==>
      Next(grace, st.(callers := st.callers[c := Setting(false)]), StepCaller(c, reached),
        st.(callers := st.callers[c := Closing(false)]))
  {
    var setting := st.callers[c := Setting(false)];
    assert setting[c := Closing(false)] == st.callers[c := Closing(false)];
    assert setting[c := Notifying(false)] == st.callers[c := Notifying(false)];
  }

  lemma OtherNotifies(grace: nat, st: State, c: nat, reached: set<nat>)
    ensures var notified := map w | w in st.waiters :: Notify(st.waiters[w], w in reached);
      Next(grace, st.(callers := st.callers[c := Notifying(false)]), StepCaller(c, reached),
        st.(notified := true, waiters := notified, callers := st.callers[c := Closing(false)]))
  {
    hide Notify;
    assert st.callers[c := Notifying(false)][c := Closing(false)] == st.callers[c := Closing(false)];
  }

  lemma OtherCloses(grace: nat, st: State, c: nat, reached: set<nat>)
    ensures var left := st.(closed := true, callers := st.callers[c := Left]);
      Next(grace, st.(callers := st.callers[c := Closing(false)]), StepCaller(c, reached), left) &&
      forall next :: !Next(grace, left, StepCaller(c, reached), next)
  {
    assert st.callers[c := Closing(false)][c := Left] == st.callers[c := Left];
  }

  /**
   A transport that shuts down by itself begins, notifying if it is the first, and
   closes; it cancels nothing and leaves.
   */
  lemma OtherAlone(grace: nat, st: State, c: nat, reached: set<nat>)
      returns (states: seq<State>, actions: seq<Action>)
    requires c !in st.callers
    ensures Follow(grace, states, actions) && states[0] == st
    ensures actions == [StartOther(c)] +
      (if st.startedAt == None then [StepCaller(c, reached)] else []) + [StepCaller(c, reached), StepCaller(c, reached)]
    ensures states[|actions|] == (
      if st.startedAt == None then
        st.(
          startedAt := Some(st.clock), startedBy := Some(c), notified := true,
          waiters := map w | w in st.waiters :: Notify(st.waiters[w], w in reached),
          closed := true, callers := st.callers[c := Left])
      else st.(closed := true, callers := st.callers[c := Left]))
    ensures forall next :: !Next(grace, states[|actions|], StepCaller(c, reached), next)
  {
    hide Next, Notify;
    CallersStart(grace, st, c);
    OtherSets(grace, st, c, reached);
    var setting, step := st.(callers := st.callers[c := Setting(false)]), StepCaller(c, reached);
    if st.startedAt.Some? {
      OtherCloses(grace, st, c, reached);
      states := [
        st, setting, st.(callers := st.callers[c := Closing(false)]),
        st.(closed := true, callers := st.callers[c := Left])];
      actions := [StartOther(c), step, step];
    } else {
      var begun := st.(startedAt := Some(st.clock), startedBy := Some(c));
      var woken := begun.(
        notified := true, waiters := map w | w in st.waiters :: Notify(st.waiters[w], w in reached));
      OtherNotifies(grace, begun, c, reached);
      OtherCloses(grace, woken, c, reached);
      states := [
        st, setting, begun.(callers := st.callers[c := Notifying(false)]),
        woken.(callers := st.callers[c := Closing(false)]),
        woken.(closed := true, callers := st.callers[c := Left])];
      actions := [StartOther(c), step, step, step];
    }
  }
}
