/**
 The event dispatcher: a bounded channel filled without blocking by any number
 of callers, drained in order by one worker thread, with flush barriers.
 */
module Events {
  import opened Wrappers

  type Event = string

  datatype Message = Delivery(event: Event) | Barrier(token: nat)

  /** The events among some messages, in order. */
  function EventsOf(messages: seq<Message>): seq<Event> {
    if messages == [] then []
    else (if messages[0].Delivery? then [messages[0].event] else []) + EventsOf(messages[1..])
  }

  lemma {:induction false} EventsOfConcat(a: seq<Message>, b: seq<Message>)
    ensures EventsOf(a + b) == EventsOf(a) + EventsOf(b)
  {
    if a == [] {
      assert a + b == b;
    } else {
      assert (a + b)[1..] == a[1..] + b;
      EventsOfConcat(a[1..], b);
    }
  }

  /** The channel and its worker; each method is one step of the model below. */
  class EventDispatcher {
    const capacity: nat
    var queue: seq<Message>
    var worker: Worker
    var delivered: seq<Event>
    var acknowledged: set<nat>

    ghost predicate Valid()
      reads this
    {
      |queue| <= capacity
    }

    /** What the channel and the worker show of a state. */
    ghost function View(): State
      reads this
    {
      State(queue, worker, [], delivered, acknowledged, map[])
    }

    constructor (capacity: nat, started: bool)
      ensures Valid() && this.capacity == capacity && Init(View())
      ensures worker == if started then Waiting else Gone
    {
      this.capacity := capacity;
      queue := [];
      worker := if started then Waiting else Gone;
      delivered := [];
      acknowledged := {};
    }

    /** `try_send`: a message that nobody can take is dropped, and that is reported. */
    method TrySend(message: Message) returns (sent: bool)
      requires Valid()
      modifies this`queue, this`worker
      ensures Valid()
      ensures Send(capacity, old(View()), message) == if sent then Some(View()) else None
      ensures sent <==>
        !old(worker).Gone? && (|old(queue)| < capacity || (capacity == 0 && old(worker).Waiting?))
      ensures sent && |old(queue)| < capacity ==> queue == old(queue) + [message] && worker == old(worker)
      ensures sent && capacity == 0 ==> queue == old(queue) && worker == Handling(message)
      ensures !sent ==> View() == old(View())
      ensures InFlight(View()) == if sent then InFlight(old(View())) + [message] else InFlight(old(View()))
    {
      if worker.Gone? {
        return false;
      }
      if |queue| < capacity {
        queue := queue + [message];
        return true;
      }
      if capacity == 0 && worker.Waiting? {
        worker := Handling(message);
        return true;
      }
      return false;
    }

    method Take()
      requires Valid() && worker.Waiting? && queue != []
      modifies this`queue, this`worker
      ensures Valid() && Next(capacity, old(View()), Receive, View())
      ensures worker == Handling(old(queue)[0]) && queue == old(queue)[1..]
    {
      worker := Handling(queue[0]);
      queue := queue[1..];
    }

    /** The sink's panic is caught, so the step is the same with one. */
    method Finish(panicked: bool)
      requires Valid() && worker.Handling?
      modifies this`worker, this`delivered, this`acknowledged
      ensures Valid() && Next(capacity, old(View()), Handle(panicked), View())
      ensures worker == Waiting
      ensures old(worker).message.Delivery? ==>
        delivered == old(delivered) + [old(worker).message.event] && acknowledged == old(acknowledged)
      ensures old(worker).message.Barrier? ==>
        delivered == old(delivered) && acknowledged == old(acknowledged) + {old(worker).message.token}
    {
      var message := worker.message;
      if message.Delivery? {
        delivered := delivered + [message.event];
      } else {
        acknowledged := acknowledged + {message.token};
      }
      worker := Waiting;
    }

    /** The worker loop, run until the queue is empty. */
    method Drain()
      requires Valid() && worker.Waiting?
      modifies this`queue, this`worker, this`delivered, this`acknowledged
      ensures Valid() && queue == [] && worker.Waiting?
      ensures delivered == old(delivered) + EventsOf(old(queue))
      ensures acknowledged == old(acknowledged) + set m | m in old(queue) && m.Barrier? :: m.token
    {
      ghost var done := 0;
      while queue != []
        invariant Valid() && worker.Waiting?
        invariant 0 <= done <= |old(queue)| && queue == old(queue)[done..]
        invariant delivered + EventsOf(queue) == old(delivered) + EventsOf(old(queue))
        invariant acknowledged == old(acknowledged) + set m | m in old(queue)[..done] && m.Barrier? :: m.token
        decreases |queue|
      {
        ghost var message := queue[0];
        assert old(queue)[..done + 1] == old(queue)[..done] + [message];
        Take();
        Finish(false);
        done := done + 1;
      }
      assert old(queue)[..done] == old(queue);
    }
  }

  // ---------------------------------------------------------------------
  // Interleaved: callers, the worker and flushes
  // ---------------------------------------------------------------------

  /** `Gone` stands for a worker thread that could not be started. */
  datatype Worker = Waiting | Handling(message: Message) | Gone

  /** A flush remembers how many events had been accepted at its barrier. */
  datatype Flush = Pending(barrier: nat) | Returned(barrier: nat, confirmed: bool)

  datatype State = State(
    queue: seq<Message>,
    worker: Worker,
    accepted: seq<Event>,
    delivered: seq<Event>,
    acknowledged: set<nat>,
    flushes: map<nat, Flush>)

  datatype Action =
    | Dispatch(event: Event)
    | StartFlush(token: nat, zeroTimeout: bool)
    | Receive
    | Handle(panicked: bool)
    | ConfirmFlush(token: nat)
    | GiveUpFlush(token: nat)

  ghost predicate Init(st: State) {
    st.queue == [] && !st.worker.Handling? && st.accepted == [] && st.delivered == [] &&
    st.acknowledged == {} && st.flushes == map[]
  }

  /**
   Where a sent message goes, if it is taken. A channel without capacity hands
   the message to a worker that is waiting for one.
   */
  function Send(capacity: nat, st: State, message: Message): Option<State> {
    if st.worker.Gone? then None
    else if |st.queue| < capacity then Some(st.(queue := st.queue + [message]))
    else if capacity == 0 && st.worker.Waiting? then Some(st.(worker := Handling(message)))
    else None
  }

  ghost predicate Next(capacity: nat, st: State, a: Action, st': State) {
    match a
    case Dispatch(event) =>
      var sent := Send(capacity, st, Delivery(event));
      st' == if sent.Some? then sent.value.(accepted := st.accepted + [event]) else st
    case StartFlush(token, zeroTimeout) =>
      token !in st.flushes &&
      var sent := if zeroTimeout then None else Send(capacity, st, Barrier(token));
      st' == if sent.Some? then sent.value.(flushes := st.flushes[token := Pending(|st.accepted|)])
             else st.(flushes := st.flushes[token := Returned(|st.accepted|, false)])
    case Receive =>
      st.worker.Waiting? && st.queue != [] &&
      st' == st.(worker := Handling(st.queue[0]), queue := st.queue[1..])
    case Handle(_) =>  // with or without a panic of the sink, which is caught
      st.worker.Handling? &&
      st' ==
        if st.worker.message.Delivery? then
          st.(worker := Waiting, delivered := st.delivered + [st.worker.message.event])
        else st.(worker := Waiting, acknowledged := st.acknowledged + {st.worker.message.token})
    case ConfirmFlush(token) =>
      token in st.flushes && st.flushes[token].Pending? && token in st.acknowledged &&
      st' == st.(flushes := st.flushes[token := Returned(st.flushes[token].barrier, true)])
    case GiveUpFlush(token) =>
      token in st.flushes && st.flushes[token].Pending? &&
      st' == st.(flushes := st.flushes[token := Returned(st.flushes[token].barrier, false)])
  }

  ghost predicate IsRun(capacity: nat, run: seq<State>, actions: seq<Action>) {
    |run| == |actions| + 1 && Init(run[0]) &&
    forall k | 0 <= k < |actions| :: Next(capacity, run[k], actions[k], run[k + 1])
  }

  /** The messages taken but not finished, oldest first. */
  function InFlight(st: State): seq<Message> {
    (if st.worker.Handling? then [st.worker.message] else []) + st.queue
  }

  /** An unfinished barrier stands behind exactly the events accepted before it. */
  ghost predicate BarrierAt(st: State, messages: seq<Message>, i: nat)
    requires i < |messages|
  {
    messages[i].Barrier? ==>
      messages[i].token in st.flushes &&
      |st.delivered| + |EventsOf(messages[..i])| == st.flushes[messages[i].token].barrier
  }

  ghost predicate Inv(capacity: nat, st: State) {
    && |st.queue| <= capacity
    && (st.worker.Gone? ==> st.queue == [])
    && st.accepted == st.delivered + EventsOf(InFlight(st))
    && (forall i | 0 <= i < |InFlight(st)| :: BarrierAt(st, InFlight(st), i))
    && (forall t | t in st.acknowledged :: t in st.flushes && st.flushes[t].barrier <= |st.delivered|)
    && (forall t | t in st.flushes && st.flushes[t].Returned? && st.flushes[t].confirmed :: t in st.acknowledged)
  }

  lemma SendKeepsInFlight(capacity: nat, st: State, message: Message, st': State)
    requires Inv(capacity, st) && Send(capacity, st, message) == Some(st')
    ensures |st'.queue| <= capacity && !st'.worker.Gone?
    ensures InFlight(st') == InFlight(st) + [message]
    ensures EventsOf(InFlight(st')) == EventsOf(InFlight(st)) + EventsOf([message])
  {
    EventsOfConcat(InFlight(st), [message]);
  }

  lemma DispatchKeepsInv(capacity: nat, st: State, event: Event, st': State)
    requires Inv(capacity, st) && Next(capacity, st, Dispatch(event), st')
    ensures Inv(capacity, st')
  {
    var sent := Send(capacity, st, Delivery(event));
    if sent.Some? {
      SendKeepsInFlight(capacity, st, Delivery(event), sent.value);
      assert EventsOf([Delivery(event)]) == [event] + EventsOf([]);
      forall i | 0 <= i < |InFlight(st')| ensures BarrierAt(st', InFlight(st'), i) {
        if i < |InFlight(st)| {
          assert BarrierAt(st, InFlight(st), i);
          assert InFlight(st')[..i] == InFlight(st)[..i];
        }
      }
    }
  }

  /** A new flush leaves the standing of the earlier barriers as it was. */
  lemma NewFlushKeepsBarriers(capacity: nat, st: State, token: nat, flush: Flush)
    requires Inv(capacity, st) && token !in st.flushes
    ensures var noted := st.(flushes := st.flushes[token := flush]);
      forall i | 0 <= i < |InFlight(st)| :: BarrierAt(noted, InFlight(st), i)
  {
    hide EventsOf;
    var noted := st.(flushes := st.flushes[token := flush]);
    forall i | 0 <= i < |InFlight(st)| ensures BarrierAt(noted, InFlight(st), i) {
      assert BarrierAt(st, InFlight(st), i);
    }
  }

  /** A message at the end leaves the barriers before it where they stand. */
  lemma BarrierBefore(st: State, messages: seq<Message>, last: Message, i: nat)
    requires i < |messages| && BarrierAt(st, messages, i)
    ensures BarrierAt(st, messages + [last], i)
  {
    hide EventsOf;
    assert (messages + [last])[..i] == messages[..i];
  }

  lemma BarrierLast(st: State, messages: seq<Message>, token: nat)
    requires token in st.flushes && |st.delivered| + |EventsOf(messages)| == st.flushes[token].barrier
    ensures BarrierAt(st, messages + [Barrier(token)], |messages|)
  {
    hide EventsOf;
    assert (messages + [Barrier(token)])[..|messages|] == messages;
  }

  /** What the barriers say depends on the deliveries and the flushes only. */
  lemma BarrierSame(st: State, st': State, messages: seq<Message>, i: nat)
    requires i < |messages| && st.delivered == st'.delivered && st.flushes == st'.flushes && BarrierAt(st, messages, i)
    ensures BarrierAt(st', messages, i)
  {
    hide EventsOf;
  }

  lemma SentBarrierStands(capacity: nat, st: State, token: nat, sent: State)
    requires Inv(capacity, st) && token !in st.flushes && Send(capacity, st, Barrier(token)) == Some(sent)
    ensures var st' := sent.(flushes := st.flushes[token := Pending(|st.accepted|)]);
      InFlight(st') == InFlight(st) + [Barrier(token)] &&
      forall i | 0 <= i < |InFlight(st')| :: BarrierAt(st', InFlight(st'), i)
  {
    SendKeepsInFlight(capacity, st, Barrier(token), sent);
    NewFlushKeepsBarriers(capacity, st, token, Pending(|st.accepted|));
    hide EventsOf, BarrierAt;
    var st' := sent.(flushes := st.flushes[token := Pending(|st.accepted|)]);
    var noted := st.(flushes := st'.flushes);
    var before := InFlight(st);
    assert InFlight(st') == before + [Barrier(token)];
    BarrierLast(st', before, token);
    forall i | 0 <= i < |before| ensures BarrierAt(st', before + [Barrier(token)], i) {
      BarrierSame(noted, st', before, i);
      BarrierBefore(st', before, Barrier(token), i);
    }
  }

  lemma SentBarrierKeepsInv(capacity: nat, st: State, token: nat, sent: State)
    requires Inv(capacity, st) && token !in st.flushes && Send(capacity, st, Barrier(token)) == Some(sent)
    ensures Inv(capacity, sent.(flushes := st.flushes[token := Pending(|st.accepted|)]))
  {
    BarrierIsNoEvent(token);
    hide EventsOf, BarrierAt;
    SendKeepsInFlight(capacity, st, Barrier(token), sent);
    SentBarrierStands(capacity, st, token, sent);
    var st' := sent.(flushes := st.flushes[token := Pending(|st.accepted|)]);
    hide InFlight;
    assert InFlight(st') == InFlight(sent) by { SameInFlight(sent, st'); }
    assert EventsOf(InFlight(st)) + [] == EventsOf(InFlight(st));
  }

  lemma SameInFlight(st: State, st': State)
    requires st.queue == st'.queue && st.worker == st'.worker
    ensures InFlight(st') == InFlight(st)
  {
  }

  lemma BarrierIsNoEvent(token: nat)
    ensures EventsOf([Barrier(token)]) == []
  {
    assert EventsOf([Barrier(token)]) == [] + EventsOf([]);
  }

  lemma StartFlushKeepsInv(capacity: nat, st: State, token: nat, zeroTimeout: bool, st': State)
    requires Inv(capacity, st) && Next(capacity, st, StartFlush(token, zeroTimeout), st')
    ensures Inv(capacity, st')
  {
    hide EventsOf;
    var sent := if zeroTimeout then None else Send(capacity, st, Barrier(token));
    if sent.Some? {
      SentBarrierKeepsInv(capacity, st, token, sent.value);
    } else {
      NewFlushKeepsBarriers(capacity, st, token, Returned(|st.accepted|, false));
      assert InFlight(st') == InFlight(st);
    }
  }

  lemma HandledEvents(first: Message, rest: seq<Message>, i: nat)
    requires i <= |rest|
    ensures ([first] + rest)[..i + 1] == [first] + rest[..i]
    ensures EventsOf([first] + rest[..i]) == (if first.Delivery? then [first.event] else []) + EventsOf(rest[..i])
  {
    assert ([first] + rest[..i])[1..] == rest[..i];
  }

  /** Finishing the first message moves the others up, barriers and all. */
  lemma HandleKeepsBarriers(capacity: nat, st: State, panicked: bool, st': State)
    requires Inv(capacity, st) && Next(capacity, st, Handle(panicked), st')
    ensures InFlight(st') == st.queue && forall i | 0 <= i < |st.queue| :: BarrierAt(st', st.queue, i)
  {
    hide EventsOf;
    var before, first := InFlight(st), st.worker.message;
    assert before == [first] + st.queue && InFlight(st') == st.queue;
    forall i | 0 <= i < |st.queue| ensures BarrierAt(st', st.queue, i) {
      assert BarrierAt(st, before, i + 1);
      HandledEvents(first, st.queue, i);
    }
  }

  lemma HandleKeepsInv(capacity: nat, st: State, panicked: bool, st': State)
    requires Inv(capacity, st) && Next(capacity, st, Handle(panicked), st')
    ensures Inv(capacity, st')
  {
    HandleKeepsBarriers(capacity, st, panicked, st');
    var before, first := InFlight(st), st.worker.message;
    assert before == [first] + st.queue && before[..0] == [] && EventsOf([]) == [];
    assert st.queue[..|st.queue|] == st.queue;
    HandledEvents(first, st.queue, |st.queue|);
    assert BarrierAt(st, before, 0);
    hide EventsOf, BarrierAt;
  }

  lemma StepKeepsInv(capacity: nat, st: State, a: Action, st': State)
    requires Inv(capacity, st) && Next(capacity, st, a, st')
    ensures Inv(capacity, st')
  {
    match a
    case Dispatch(event) => DispatchKeepsInv(capacity, st, event, st');
    case StartFlush(token, zeroTimeout) => StartFlushKeepsInv(capacity, st, token, zeroTimeout, st');
    case Handle(panicked) => HandleKeepsInv(capacity, st, panicked, st');
    case Receive => SameInFlightKeepsInv(capacity, st, a, st');
    case ConfirmFlush(_) => SameInFlightKeepsInv(capacity, st, a, st');
    case GiveUpFlush(_) => SameInFlightKeepsInv(capacity, st, a, st');
  }

  lemma SameInFlightKeepsInv(capacity: nat, st: State, a: Action, st': State)
    requires Inv(capacity, st) && (a.Receive? || a.ConfirmFlush? || a.GiveUpFlush?) && Next(capacity, st, a, st')
    ensures Inv(capacity, st')
  {
    assert InFlight(st') == InFlight(st);
    forall i | 0 <= i < |InFlight(st')| ensures BarrierAt(st', InFlight(st'), i) {
      assert BarrierAt(st, InFlight(st), i);
    }
  }

  lemma {:induction false} ReachableInv(capacity: nat, run: seq<State>, actions: seq<Action>, k: nat)
    requires IsRun(capacity, run, actions) && k < |run|
    ensures Inv(capacity, run[k])
  {
    if k > 0 {
      ReachableInv(capacity, run, actions, k - 1);
      StepKeepsInv(capacity, run[k - 1], actions[k - 1], run[k]);
    }
  }

  /**
   Conservation: in every reachable state the accepted events are the delivered
   ones followed by those in flight, in order, and the queue is within capacity,
   whether or not the sink panics.
   */
  lemma EventsConserved(capacity: nat, run: seq<State>, actions: seq<Action>, k: nat)
    requires IsRun(capacity, run, actions) && k < |run|
    ensures run[k].accepted == run[k].delivered + EventsOf(InFlight(run[k]))
    ensures |run[k].queue| <= capacity
  {
    ReachableInv(capacity, run, actions, k);
  }

  lemma {:induction false} AcceptedOnlyGrows(capacity: nat, run: seq<State>, actions: seq<Action>, i: nat, j: nat)
    requires IsRun(capacity, run, actions) && i <= j < |run|
    ensures run[i].accepted <= run[j].accepted
    ensures forall t | t in run[i].flushes ::
      t in run[j].flushes && run[j].flushes[t].barrier == run[i].flushes[t].barrier
    decreases j
  {
    if i < j {
      AcceptedOnlyGrows(capacity, run, actions, i, j - 1);
      assert Next(capacity, run[j - 1], actions[j - 1], run[j]);
    }
  }

  /**
   If a flush that starts at step `i` has returned true by state `j`, everything
   accepted before its barrier has been handed to the sink by then.
   */
  lemma ConfirmedFlushDelivered(capacity: nat, run: seq<State>, actions: seq<Action>, i: nat, j: nat, token: nat)
    requires IsRun(capacity, run, actions) && i < j < |run|
    requires actions[i].StartFlush? && actions[i].token == token
    requires token in run[j].flushes && run[j].flushes[token].Returned? && run[j].flushes[token].confirmed
    ensures run[i].accepted <= run[j].delivered
  {
    assert Next(capacity, run[i], actions[i], run[i + 1]);
    AcceptedOnlyGrows(capacity, run, actions, i + 1, j);
    AcceptedOnlyGrows(capacity, run, actions, i, j);
    ReachableInv(capacity, run, actions, j);
  }

  // ---------------------------------------------------------------------
  // What is taken, and what can be finished
  // ---------------------------------------------------------------------

  /** There is a slot for the message, or a worker that waits for one where there are no slots. */
  predicate Takes(capacity: nat, st: State) {
    !st.worker.Gone? && (|st.queue| < capacity || (capacity == 0 && st.worker.Waiting?))
  }

  /** An event is accepted, last in line, exactly when the channel takes it, and is otherwise dropped. */
  lemma DispatchAccepts(capacity: nat, st: State, event: Event, st': State)
    requires Inv(capacity, st) && Next(capacity, st, Dispatch(event), st')
    ensures st'.accepted == st.accepted + (if Takes(capacity, st) then [event] else [])
    ensures InFlight(st') == InFlight(st) + (if Takes(capacity, st) then [Delivery(event)] else [])
    ensures st'.delivered == st.delivered && st'.acknowledged == st.acknowledged && st'.flushes == st.flushes
  {
    assert st.accepted + [] == st.accepted && InFlight(st) + [] == InFlight(st);
    var sent := Send(capacity, st, Delivery(event));
    if sent.Some? { SendKeepsInFlight(capacity, st, Delivery(event), sent.value); }
  }

  /** A flush waits, its barrier last in line, exactly when it has time and the channel takes the barrier. */
  lemma FlushStarts(capacity: nat, st: State, token: nat, zeroTimeout: bool, st': State)
    requires Inv(capacity, st) && Next(capacity, st, StartFlush(token, zeroTimeout), st')
    ensures var waits := !zeroTimeout && Takes(capacity, st);
      st'.flushes == st.flushes[token := if waits then Pending(|st.accepted|) else Returned(|st.accepted|, false)] &&
      InFlight(st') == InFlight(st) + (if waits then [Barrier(token)] else [])
    ensures st'.accepted == st.accepted && st'.delivered == st.delivered && st'.acknowledged == st.acknowledged
  {
    assert InFlight(st) + [] == InFlight(st);
    var sent := Send(capacity, st, Barrier(token));
    if sent.Some? { SendKeepsInFlight(capacity, st, Barrier(token), sent.value); }
  }

  /** The barrier of every waiting flush is in flight, or has been reached. */
  ghost predicate Waits(st: State) {
    forall token | token in st.flushes && st.flushes[token].Pending? ::
      token in st.acknowledged || Barrier(token) in InFlight(st)
  }

  lemma StepKeepsWaits(capacity: nat, st: State, a: Action, st': State)
    requires Inv(capacity, st) && Waits(st) && Next(capacity, st, a, st')
    ensures Waits(st')
  {
    hide Inv, EventsOf;
    match a
    case Dispatch(event) => DispatchAccepts(capacity, st, event, st');
    case StartFlush(token, zeroTimeout) => FlushStarts(capacity, st, token, zeroTimeout, st');
    case Receive => assert InFlight(st') == InFlight(st);
    case Handle(_) => assert InFlight(st) == [st.worker.message] + InFlight(st');
    case _ => assert InFlight(st') == InFlight(st);
  }

  lemma {:induction false} ReachableWaits(capacity: nat, run: seq<State>, actions: seq<Action>, k: nat)
    requires IsRun(capacity, run, actions) && k < |run|
    ensures Waits(run[k])
  {
    hide Inv, Next;
    if k > 0 {
      ReachableWaits(capacity, run, actions, k - 1);
      ReachableInv(capacity, run, actions, k - 1);
      assert Next(capacity, run[k - 1], actions[k - 1], run[k]);
      StepKeepsWaits(capacity, run[k - 1], actions[k - 1], run[k]);
    }
  }

  ghost predicate Follow(capacity: nat, states: seq<State>, actions: seq<Action>) {
    |states| == |actions| + 1 &&
    forall i | 0 <= i < |actions| :: Next(capacity, states[i], actions[i], states[i + 1])
  }

  lemma Precede(capacity: nat, st: State, a: Action, states: seq<State>, actions: seq<Action>)
    requires Follow(capacity, states, actions) && Next(capacity, st, a, states[0])
    ensures Follow(capacity, [st] + states, [a] + actions)
  {
    hide Next;
    forall i | 0 <= i < |actions| + 1
      ensures Next(capacity, ([st] + states)[i], ([a] + actions)[i], ([st] + states)[i + 1])
    {
      if i > 0 { assert Next(capacity, states[i - 1], actions[i - 1], states[i]); }
    }
  }

  /** The steps are the worker's own. */
  predicate OfWorker(actions: seq<Action>) {
    forall i | 0 <= i < |actions| :: actions[i].Receive? || actions[i].Handle?
  }

  function TokensOf(messages: seq<Message>): set<nat> {
    set m | m in messages && m.Barrier? :: m.token
  }

  /** Everything in flight has been handled. */
  function Finished(st: State): State {
    st.(
      queue := [],
      worker := Waiting,
      delivered := st.delivered + EventsOf(InFlight(st)),
      acknowledged := st.acknowledged + TokensOf(InFlight(st)))
  }

  lemma ReceiveFinishes(capacity: nat, st: State) returns (next: State)
    requires st.worker.Waiting? && st.queue != []
    ensures Next(capacity, st, Receive, next) && Finished(next) == Finished(st) && !next.worker.Gone?
    ensures InFlight(next) == InFlight(st) && |next.queue| < |st.queue|
  {
    hide EventsOf, TokensOf;
    next := st.(worker := Handling(st.queue[0]), queue := st.queue[1..]);
    assert InFlight(next) == InFlight(st);
  }

  lemma HandleFinishes(capacity: nat, st: State) returns (next: State)
    requires st.worker.Handling?
    ensures Next(capacity, st, Handle(false), next) && Finished(next) == Finished(st) && !next.worker.Gone?
    ensures |InFlight(next)| < |InFlight(st)|
  {
    hide EventsOf, TokensOf;
    var message := st.worker.message;
    FirstHandled(message, st.queue);
    assert InFlight(st) == [message] + st.queue;
    if message.Delivery? {
      next := st.(worker := Waiting, delivered := st.delivered + [message.event]);
      assert InFlight(next) == st.queue;
      assert next.delivered + EventsOf(st.queue) == st.delivered + ([message.event] + EventsOf(st.queue));
    } else {
      next := st.(worker := Waiting, acknowledged := st.acknowledged + {message.token});
      assert InFlight(next) == st.queue;
      assert [] + EventsOf(st.queue) == EventsOf(st.queue);
    }
  }

  lemma FirstHandled(message: Message, queue: seq<Message>)
    ensures EventsOf([message] + queue) == (if message.Delivery? then [message.event] else []) + EventsOf(queue)
    ensures TokensOf([message] + queue) == (if message.Barrier? then {message.token} else {}) + TokensOf(queue)
  {
    assert ([message] + queue)[1..] == queue;
  }

  /** Left alone, the worker finishes everything in flight and changes no flush. */
  lemma {:induction false} WorkerFinishes(capacity: nat, st: State)
      returns (states: seq<State>, actions: seq<Action>)
    requires !st.worker.Gone?
    ensures Follow(capacity, states, actions) && OfWorker(actions)
    ensures states[0] == st && states[|actions|] == Finished(st)
    decreases |InFlight(st)|, |st.queue|
  {
    if InFlight(st) == [] {
      states, actions := [st], [];
      assert st.delivered + [] == st.delivered;
    } else {
      hide EventsOf, TokensOf, Next, Finished;
      var a, next := Receive, st;
      if st.worker.Handling? {
        a := Handle(false);
        next := HandleFinishes(capacity, st);
      } else {
        next := ReceiveFinishes(capacity, st);
      }
      states, actions := WorkerFinishes(capacity, next);
      Precede(capacity, st, a, states, actions);
      states, actions := [st] + states, [a] + actions;
    }
  }

  /**
   A flush that waits can be confirmed from every reachable state: the worker comes to
   its barrier, whatever else is in flight.
   */
  lemma WaitingFlushCanConfirm(capacity: nat, run: seq<State>, actions: seq<Action>, k: nat, token: nat)
      returns (states: seq<State>, steps: seq<Action>)
    requires IsRun(capacity, run, actions) && k < |run| && !run[k].worker.Gone?
    requires token in run[k].flushes && run[k].flushes[token].Pending?
    ensures Follow(capacity, states, steps) && OfWorker(steps) && states[0] == run[k]
    ensures var done := states[|steps|];
      Next(capacity, done, ConfirmFlush(token),
        done.(flushes := done.flushes[token := Returned(run[k].flushes[token].barrier, true)]))
    ensures run[k].accepted == states[|steps|].delivered
  {
    ReachableWaits(capacity, run, actions, k);
    EventsConserved(capacity, run, actions, k);
    states, steps := WorkerFinishes(capacity, run[k]);
  }

  /** A flush that waits no longer returns false, and what it waited for goes on. */
  lemma FlushGivesUp(capacity: nat, st: State, token: nat)
    requires token in st.flushes && st.flushes[token].Pending?
    ensures Next(capacity, st, GiveUpFlush(token),
      st.(flushes := st.flushes[token := Returned(st.flushes[token].barrier, false)]))
    ensures (exists next :: Next(capacity, st, ConfirmFlush(token), next)) <==> token in st.acknowledged
  {
    if token in st.acknowledged {
      var next := st.(flushes := st.flushes[token := Returned(st.flushes[token].barrier, true)]);
      assert Next(capacity, st, ConfirmFlush(token), next);
    }
  }
}
