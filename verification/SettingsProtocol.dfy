/**
 Settings updates by any number of handles, in any interleaving: creating and
 marking the sidecar lock file, reading the settings, mutating the copy, replacing
 the file, letting go. Handles may crash. A waiter reads the time of the lock file,
 then the clock, and if they are the staleness bound apart it removes the lock file
 that is there by then; any steps of others may come in between.
 */
module SettingsProtocol {
  import opened Wrappers
  import opened PluginSettings

  const STALE_LOCK_AGE := 300

  /** The sidecar lock file and its modification time; `owner` and `serial` are history. */
  datatype Lock = Free | Held(owner: nat, since: nat, serial: nat)

  /**
   A waiter that has read the lock file's time is `Looked`; `at` is the clock then,
   which it does not know. One that found the time stale, and has not yet removed a
   lock, is `Breaking`.
   */
  datatype Phase =
    | Idle
    | Looked(stamp: nat, at: nat, seen: nat)
    | Breaking(seen: nat)
    | Created(m: Mutation)
    | Locked(m: Mutation)
    | Changing(m: Mutation, candidate: set<string>)
    | Committed(candidate: set<string>)
    | Failed

  datatype Handle = Handle(memory: set<string>, phase: Phase)

  /** `log` is history: the successful mutations in the order of their commits. */
  datatype State = State(
    file: File, lock: Lock, nextSerial: nat, now: nat, handles: map<nat, Handle>, log: seq<Mutation>)

  datatype Action =
    | Open(h: nat)
    | Acquire(h: nat, m: Mutation)
    | Mark(h: nat, written: bool)
    | Load(h: nat)
    | Save(h: nat, domains: seq<string>, written: bool)
    | Release(h: nat)
    | Look(h: nat)
    | Judge(h: nat)
    | Unlink(h: nat)
    | Crash(h: nat)
    | Tick(elapsed: nat)

  predicate At(s: State, h: nat) {
    h in s.handles
  }

  function Goes(s: State, h: nat, phase: Phase): State
    requires At(s, h)
  {
    s.(handles := s.handles[h := s.handles[h].(phase := phase)])
  }

  /** Writing the marker renews the lock file's time, if that file is still the lock. */
  function MarkTo(s: State, h: nat, written: bool): State
    requires At(s, h) && s.handles[h].phase.Created?
  {
    if !written then Goes(s, h, Failed)
    else
      Goes(s, h, Locked(s.handles[h].phase.m))
        .(lock := if s.lock.Held? && s.lock.owner == h then s.lock.(since := s.now) else s.lock)
  }

  /** The reading and the mutation under the lock. */
  function LoadTo(s: State, h: nat): State
    requires At(s, h) && s.handles[h].phase.Locked?
  {
    var m := s.handles[h].phase.m;
    match LoadFile(s.file)
    case Err(_) => Goes(s, h, Failed)
    case Ok(stored) =>
      match Mutate(m, stored)
      case Err(_) => Goes(s, h, Failed)
      case Ok((next, changed)) =>
        if changed then Goes(s, h, Changing(m, next))
        else Goes(s, h, Committed(next)).(log := s.log + [m])
  }

  /** The replacement of the file, which happens whole or not at all. */
  function SaveTo(s: State, h: nat, domains: seq<string>, written: bool): State
    requires At(s, h) && s.handles[h].phase.Changing?
  {
    var phase := s.handles[h].phase;
    if !written then Goes(s, h, Failed)
    else Goes(s, h, Committed(phase.candidate)).(file := Store(SETTINGS_VERSION, domains), log := s.log + [phase.m])
  }

  /**
   Letting go removes the lock file; only a committed candidate is published, into
   the handle, which nobody else reads.
   */
  function ReleaseTo(s: State, h: nat): State
    requires At(s, h)
  {
    var handle := s.handles[h];
    var memory := if handle.phase.Committed? then handle.phase.candidate else handle.memory;
    s.(lock := Free, handles := s.handles[h := Handle(memory, Idle)])
  }

  predicate Enabled(s: State, a: Action) {
    match a
    case Open(h) => !At(s, h) && LoadFile(s.file).Ok?
    case Acquire(h, _) => At(s, h) && s.handles[h].phase.Idle? && s.lock.Free?
    case Mark(h, _) => At(s, h) && s.handles[h].phase.Created?
    case Load(h) => At(s, h) && s.handles[h].phase.Locked?
    case Save(h, domains, _) =>
      At(s, h) && s.handles[h].phase.Changing? && Lists(domains, s.handles[h].phase.candidate)
    case Release(h) => At(s, h) && (s.handles[h].phase.Committed? || s.handles[h].phase.Failed?)
    case Look(h) => At(s, h) && s.handles[h].phase.Idle? && s.lock.Held?
    case Judge(h) => At(s, h) && s.handles[h].phase.Looked?
    case Unlink(h) => At(s, h) && s.handles[h].phase.Breaking?
    case Crash(h) => At(s, h)
    case Tick(_) => true
  }

  function Next(s: State, a: Action): State
    requires Enabled(s, a)
  {
    match a
    case Open(h) => s.(handles := s.handles[h := Handle(LoadFile(s.file).value, Idle)])
    case Acquire(h, m) =>
      Goes(s, h, Created(m)).(lock := Held(h, s.now, s.nextSerial), nextSerial := s.nextSerial + 1)
    case Mark(h, written) => MarkTo(s, h, written)
    case Load(h) => LoadTo(s, h)
    case Save(h, domains, written) => SaveTo(s, h, domains, written)
    case Release(h) => ReleaseTo(s, h)
    case Look(h) => Goes(s, h, Looked(s.lock.since, s.now, s.lock.serial))
    case Judge(h) =>
      var looked := s.handles[h].phase;
      Goes(s, h, if s.now - looked.stamp >= STALE_LOCK_AGE then Breaking(looked.seen) else Idle)
    case Unlink(h) => Goes(s, h, Idle).(lock := Free)
    case Crash(h) => s.(handles := s.handles - {h})
    case Tick(elapsed) => s.(now := s.now + elapsed)
  }

  /** Any file, and any number of idle handles remembering anything. */
  predicate Init(s: State) {
    s.lock.Free? && s.log == [] && forall h | h in s.handles :: s.handles[h].phase.Idle?
  }

  /** The handle is in a transaction. */
  predicate Active(s: State, h: nat) {
    At(s, h) && !s.handles[h].phase.Idle? && !s.handles[h].phase.Looked? && !s.handles[h].phase.Breaking?
  }

  /** A waiter removes no lock whose owner is in a transaction. */
  predicate Spares(s: State, a: Action) {
    a.Unlink? ==> !(s.lock.Held? && Active(s, s.lock.owner))
  }

  ghost predicate Follow(states: seq<State>, actions: seq<Action>) {
    |states| == |actions| + 1 &&
    forall i | 0 <= i < |actions| :: Enabled(states[i], actions[i]) && states[i + 1] == Next(states[i], actions[i])
  }

  ghost predicate IsRun(states: seq<State>, actions: seq<Action>) {
    Follow(states, actions) && Init(states[0])
  }

  ghost predicate AllSpare(states: seq<State>, actions: seq<Action>)
    requires |states| == |actions| + 1
  {
    forall i | 0 <= i < |actions| :: Spares(states[i], actions[i])
  }

  // ---------------------------------------------------------------------
  // No lost updates
  // ---------------------------------------------------------------------

  /** The mutations applied one after the other, by themselves. */
  function Replay(start: set<string>, log: seq<Mutation>): set<string> {
    if log == [] then start
    else
      var last := Mutate(log[|log| - 1], Replay(start, log[..|log| - 1]));
      if last.Ok? then last.value.0 else Replay(start, log[..|log| - 1])
  }

  lemma ReplayNext(start: set<string>, log: seq<Mutation>, m: Mutation)
    requires Mutate(m, Replay(start, log)).Ok?
    ensures Replay(start, log + [m]) == Mutate(m, Replay(start, log)).value.0
  {
    assert (log + [m])[..|log|] == log;
  }

  /** The file holds what the logged mutations make of the first file. */
  predicate Replayed(start: File, file: File, log: seq<Mutation>) {
    match LoadFile(start)
    case Ok(s) => LoadFile(file) == Ok(Replay(s, log))
    case Err(_) => file == start && log == []
  }

  /** A transaction's candidate agrees with the file at every phase. */
  predicate HandleOk(s: State, h: nat)
    requires At(s, h)
  {
    match s.handles[h].phase
    case Changing(m, candidate) => LoadFile(s.file).Ok? && Mutate(m, LoadFile(s.file).value) == Ok((candidate, true))
    case Committed(candidate) => LoadFile(s.file) == Ok(candidate)
    case _ => true
  }

  predicate OwnsLock(s: State, h: nat) {
    Active(s, h) ==> s.lock.Held? && s.lock.owner == h
  }

  ghost predicate Inv(start: File, s: State) {
    && Replayed(start, s.file, s.log)
    && (forall h | h in s.handles :: OwnsLock(s, h))
    && (forall h | h in s.handles :: HandleOk(s, h))
  }

  lemma NoOpReplayed(start: File, file: File, log: seq<Mutation>, m: Mutation)
    requires Replayed(start, file, log) && LoadFile(file).Ok?
    requires Mutate(m, LoadFile(file).value).Ok? && !Mutate(m, LoadFile(file).value).value.1
    ensures Replayed(start, file, log + [m])
  {
    if LoadFile(start).Ok? { ReplayNext(LoadFile(start).value, log, m); }
  }

  /** A mutation without a change leaves the set as it was. */
  lemma LoadedIsMutated(s: State, h: nat)
    requires At(s, h) && s.handles[h].phase.Locked? && LoadFile(s.file).Ok?
    ensures var m, stored := s.handles[h].phase.m, LoadFile(s.file).value;
      Mutate(m, stored).Ok? && !Mutate(m, stored).value.1 ==> Mutate(m, stored).value.0 == stored
  {
    hide LoadFile, NormalizeDomain;
  }

  lemma LoadKeepsInv(start: File, s: State, h: nat)
    requires Inv(start, s) && Enabled(s, Load(h))
    ensures Inv(start, Next(s, Load(h)))
  {
    hide LoadFile, Mutate, Replayed, Lists;
    var next := Next(s, Load(h));
    assert OwnsLock(s, h);
    if next.log != s.log { NoOpReplayed(start, s.file, s.log, s.handles[h].phase.m); }
    if LoadFile(s.file).Ok? { LoadedIsMutated(s, h); }
    forall g | g in next.handles ensures OwnsLock(next, g) && HandleOk(next, g) {
      assert OwnsLock(s, g) && HandleOk(s, g);
    }
  }

  lemma SaveKeepsInv(start: File, s: State, h: nat, domains: seq<string>, written: bool)
    requires Inv(start, s) && Enabled(s, Save(h, domains, written))
    ensures Inv(start, Next(s, Save(h, domains, written)))
  {
    var next := Next(s, Save(h, domains, written));
    var phase := s.handles[h].phase;
    assert OwnsLock(s, h) && HandleOk(s, h);
    if written {
      LoadIsNormal(s.file);
      MutateKeepsNormal(phase.m, LoadFile(s.file).value);
      LoadAfterSave(domains, phase.candidate);
      ReplayNext(LoadFile(start).value, s.log, phase.m);
    }
    forall g | g in next.handles ensures OwnsLock(next, g) && HandleOk(next, g) {
      assert OwnsLock(s, g) && HandleOk(s, g);
    }
  }

  lemma OtherStepsKeepInv(start: File, s: State, a: Action)
    requires Inv(start, s) && Enabled(s, a) && Spares(s, a) && !a.Load? && !a.Save?
    ensures Inv(start, Next(s, a))
  {
    var next := Next(s, a);
    forall g | g in next.handles ensures OwnsLock(next, g) && HandleOk(next, g) {
      if g in s.handles {
        assert OwnsLock(s, g) && HandleOk(s, g);
      }
      if a.Release? {
        assert OwnsLock(s, a.h);
      }
    }
  }

  lemma StepKeepsInv(start: File, s: State, a: Action)
    requires Inv(start, s) && Enabled(s, a) && Spares(s, a)
    ensures Inv(start, Next(s, a))
  {
    match a
    case Load(h) => LoadKeepsInv(start, s, h);
    case Save(h, domains, written) => SaveKeepsInv(start, s, h, domains, written);
    case _ => OtherStepsKeepInv(start, s, a);
  }

  lemma {:induction false} InvFollows(start: File, states: seq<State>, actions: seq<Action>)
    requires Follow(states, actions) && Inv(start, states[0]) && AllSpare(states, actions)
    ensures Inv(start, states[|actions|])
    decreases |actions|
  {
    hide Inv, Enabled, Next, Spares;
    var n := |actions|;
    if n > 0 {
      assert Follow(states[..n], actions[..n - 1]);
      forall i | 0 <= i < n - 1 ensures Spares(states[..n][i], actions[..n - 1][i]) {
        assert Spares(states[i], actions[i]);
      }
      InvFollows(start, states[..n], actions[..n - 1]);
      StepKeepsInv(start, states[n - 1], actions[n - 1]);
    }
  }

  /**
   No update is lost: after any run in which no waiter removes the lock of a
   transaction under way, the stored set is the replay of the successful mutations,
   in commit order, however old the copies in the handles were. At most one handle is
   in a transaction.
   */
  lemma NoLostUpdates(states: seq<State>, actions: seq<Action>)
    requires IsRun(states, actions) && AllSpare(states, actions)
    ensures Inv(states[0].file, states[|actions|])
  {
    InitInv(states[0]);
    hide Inv, Enabled, Next, Spares;
    InvFollows(states[0].file, states, actions);
  }

  lemma InitInv(s: State)
    requires Init(s)
    ensures Inv(s.file, s)
  {
    forall h | h in s.handles ensures OwnsLock(s, h) && HandleOk(s, h) {}
  }

  /** A handle that lets go after its commit remembers exactly what is stored. */
  lemma CommittedHandleMatchesStore(states: seq<State>, actions: seq<Action>, h: nat)
    requires IsRun(states, actions) && AllSpare(states, actions)
    requires var s := states[|actions|]; At(s, h) && s.handles[h].phase.Committed?
    ensures var s := states[|actions|];
      Enabled(s, Release(h)) && LoadFile(s.file) == Ok(Next(s, Release(h)).handles[h].memory)
  {
    NoLostUpdates(states, actions);
    assert HandleOk(states[|actions|], h);
  }

  /** Nothing but the release of a committed transaction changes what a handle remembers. */
  lemma MemoryChangesOnlyByCommit(s: State, a: Action, h: nat)
    requires Enabled(s, a) && At(s, h) && At(Next(s, a), h)
    requires Next(s, a).handles[h].memory != s.handles[h].memory
    ensures a == Release(h) && s.handles[h].phase.Committed?
  {
  }

  /** Every name in a file that updates have written is a fixed point of normalisation. */
  lemma StoredNamesAreNormal(states: seq<State>, actions: seq<Action>)
    requires IsRun(states, actions) && AllSpare(states, actions) && LoadFile(states[0].file).Ok?
    ensures var s := states[|actions|];
      LoadFile(s.file).Ok? &&
      forall d | d in LoadFile(s.file).value :: NormalizeDomain(d) == Ok(d)
  {
    var s := states[|actions|];
    NoLostUpdates(states, actions);
    LoadIsNormal(s.file);
    forall d | d in LoadFile(s.file).value ensures NormalizeDomain(d) == Ok(d) {
      NormalizeFixpoints(d);
    }
  }

  // ---------------------------------------------------------------------
  // One transaction by itself
  // ---------------------------------------------------------------------

  function Begun(s: State, h: nat, m: Mutation): State
    requires Enabled(s, Acquire(h, m))
  {
    Next(Next(Next(s, Acquire(h, m)), Mark(h, true)), Load(h))
  }

  function Transaction(s: State, h: nat, m: Mutation, domains: seq<string>, written: bool): State
    requires Enabled(s, Acquire(h, m))
    requires var loaded := Begun(s, h, m).handles[h].phase;
      loaded.Changing? ==> Lists(domains, loaded.candidate)
  {
    var loaded := Begun(s, h, m);
    var saved := if loaded.handles[h].phase.Changing? then Next(loaded, Save(h, domains, written)) else loaded;
    Next(saved, Release(h))
  }

  /** Steps taken without interruption are the handle's `Update`, and log its success. */
  lemma TransactionIsUpdate(s: State, h: nat, m: Mutation, domains: seq<string>, written: bool)
    requires Enabled(s, Acquire(h, m))
    requires var loaded := Begun(s, h, m).handles[h].phase;
      loaded.Changing? ==> Lists(domains, loaded.candidate)
    ensures var t := Transaction(s, h, m, domains, written);
      var outcome := UpdateOutcome(s.file, s.handles[h].memory, m, true, written);
      && LoadFile(t.file) == outcome.stored
      && t.handles == s.handles[h := Handle(outcome.memory, Idle)]
      && t.lock == Free
      && t.log == (if outcome.answer.Ok? then s.log + [m] else s.log)
  {
    hide LoadFile, Mutate, Lists;
    if LoadFile(s.file).Ok? && Mutate(m, LoadFile(s.file).value).Ok? {
      var (next, changed) := Mutate(m, LoadFile(s.file).value).value;
      if changed {
        LoadIsNormal(s.file);
        MutateKeepsNormal(m, LoadFile(s.file).value);
        LoadAfterSave(domains, next);
      }
    }
  }

  // ---------------------------------------------------------------------
  // When waiters spare every transaction
  // ---------------------------------------------------------------------

  /** The lock file of a transaction under way is younger than `t`. */
  predicate Prompt(s: State, t: nat) {
    s.lock.Held? && Active(s, s.lock.owner) ==> s.now - s.lock.since < t
  }

  /** A waiter takes at most `w` from the lock file's time to the clock. */
  predicate Quick(s: State, a: Action, w: nat) {
    a.Judge? && At(s, a.h) && s.handles[a.h].phase.Looked? ==> s.now - s.handles[a.h].phase.at <= w
  }

  ghost predicate Timely(states: seq<State>, actions: seq<Action>, t: nat, w: nat)
    requires |states| == |actions| + 1
  {
    forall i | 0 <= i < |actions| :: Prompt(states[i], t) && Quick(states[i], actions[i], w)
  }

  /** No handle crashes in a transaction. */
  ghost predicate NoCrashInside(states: seq<State>, actions: seq<Action>)
    requires |states| == |actions| + 1
  {
    forall i | 0 <= i < |actions| :: actions[i].Crash? ==> !Active(states[i], actions[i].h)
  }

  /** Every lock has its owner in a transaction, and nobody is about to remove one. */
  ghost predicate NoneBreaks(s: State, t: nat) {
    && (s.lock.Held? ==> Active(s, s.lock.owner))
    && (forall h | h in s.handles :: Harmless(s.handles[h].phase, t))
    && (forall h | h in s.handles :: OwnsLock(s, h))
  }

  /** The lock file was younger than `t` when it was looked at. */
  predicate Harmless(phase: Phase, t: nat) {
    !phase.Breaking? && (phase.Looked? ==> phase.at - phase.stamp < t)
  }

  lemma StepKeepsNoneBreaks(s: State, a: Action, t: nat, w: nat)
    requires NoneBreaks(s, t) && Enabled(s, a) && Prompt(s, t) && Quick(s, a, w) && t + w <= STALE_LOCK_AGE
    requires a.Crash? ==> !Active(s, a.h)
    ensures !a.Unlink? && NoneBreaks(Next(s, a), t)
  {
    hide LoadFile, Mutate, Lists;
    var next := Next(s, a);
    if !a.Open? && !a.Tick? { assert OwnsLock(s, a.h) && Harmless(s.handles[a.h].phase, t); }
    forall h | h in next.handles ensures OwnsLock(next, h) && Harmless(next.handles[h].phase, t) {
      if h in s.handles { assert OwnsLock(s, h) && Harmless(s.handles[h].phase, t); }
    }
  }

  lemma {:induction false} TimelyRunBreaksNothing(states: seq<State>, actions: seq<Action>, t: nat, w: nat)
    requires IsRun(states, actions) && Timely(states, actions, t, w) && NoCrashInside(states, actions)
    requires t + w <= STALE_LOCK_AGE
    ensures NoneBreaks(states[|actions|], t) && AllSpare(states, actions)
    decreases |actions|
  {
    hide Enabled, Next, NoneBreaks, Spares, Prompt, Quick, Active;
    var n := |actions|;
    if n == 0 {
      InitBreaksNothing(states[0], t);
    } else {
      assert IsRun(states[..n], actions[..n - 1]);
      TimelyRunBreaksNothing(states[..n], actions[..n - 1], t, w);
      StepKeepsNoneBreaks(states[n - 1], actions[n - 1], t, w);
      NotUnlinkSpares(states[n - 1], actions[n - 1]);
      forall i | 0 <= i < n ensures Spares(states[i], actions[i]) {
        if i < n - 1 { assert Spares(states[..n][i], actions[..n - 1][i]); }
      }
    }
  }

  lemma InitBreaksNothing(s: State, t: nat)
    requires Init(s)
    ensures NoneBreaks(s, t)
  {
    forall h | h in s.handles ensures OwnsLock(s, h) && Harmless(s.handles[h].phase, t) {}
  }

  lemma NotUnlinkSpares(s: State, a: Action)
    requires !a.Unlink?
    ensures Spares(s, a)
  {
  }

  /**
   So updates are kept while the life of a lock file and a waiter's time between its
   two readings stay below the bound together, and no transaction crashes.
   */
  lemma TimelyRunsKeepUpdates(states: seq<State>, actions: seq<Action>, t: nat, w: nat)
    requires IsRun(states, actions) && Timely(states, actions, t, w) && NoCrashInside(states, actions)
    requires t + w <= STALE_LOCK_AGE
    ensures Inv(states[0].file, states[|actions|])
  {
    TimelyRunBreaksNothing(states, actions, t, w);
    NoLostUpdates(states, actions);
  }

  /** Whoever removes a lock removes the one that it has looked at. */
  predicate RemovesSeen(s: State, a: Action) {
    a.Unlink? && At(s, a.h) && s.handles[a.h].phase.Breaking? && s.lock.Held? ==>
      s.lock.serial == s.handles[a.h].phase.seen
  }

  ghost predicate AllRemoveSeen(states: seq<State>, actions: seq<Action>)
    requires |states| == |actions| + 1
  {
    forall i | 0 <= i < |actions| :: RemovesSeen(states[i], actions[i])
  }

  /** The lock with this serial is gone, or its owner is. */
  predicate IsOrphan(s: State, serial: nat) {
    serial < s.nextSerial && (s.lock.Held? && s.lock.serial == serial ==> !Active(s, s.lock.owner))
  }

  /** A lock that was looked at has been renewed once at most since it was created. */
  predicate IsYoung(s: State, stamp: nat, at: nat, t: nat) {
    s.lock.Held? && At(s, s.lock.owner) && at - stamp < t && s.lock.since - stamp < t &&
    (s.handles[s.lock.owner].phase.Created? ==> s.lock.since == stamp)
  }

  /** A lock that is found stale has lost its owner. */
  predicate SeenIsOrphan(s: State, h: nat, t: nat)
    requires At(s, h)
  {
    match s.handles[h].phase
    case Looked(stamp, at, seen) => IsOrphan(s, seen) || (seen < s.nextSerial && IsYoung(s, stamp, at, t))
    case Breaking(seen) => IsOrphan(s, seen)
    case _ => true
  }

  ghost predicate Orphans(s: State, t: nat) {
    && (s.lock.Held? ==> s.lock.serial < s.nextSerial && s.lock.since <= s.now)
    && (forall h | h in s.handles :: SeenIsOrphan(s, h, t))
  }

  lemma StepKeepsOrphans(s: State, a: Action, t: nat, w: nat)
    requires Orphans(s, t) && Enabled(s, a) && Prompt(s, t) && Quick(s, a, w)
    requires t + w <= STALE_LOCK_AGE || 2 * t <= STALE_LOCK_AGE + 1
    ensures Orphans(Next(s, a), t)
  {
    hide LoadFile, Mutate, Lists, SeenIsOrphan;
    var next := Next(s, a);
    forall h | h in next.handles ensures SeenIsOrphan(next, h, t) {
      if h in s.handles && !a.Crash? && !a.Open? && !a.Tick? && a.h == h {
        assert SeenIsOrphan(s, h, t);
        ActorKeepsOrphans(s, a, t, w);
      } else {
        OthersKeepOrphans(s, a, h, t);
      }
    }
  }

  lemma ActorKeepsOrphans(s: State, a: Action, t: nat, w: nat)
    requires Enabled(s, a) && Prompt(s, t) && Quick(s, a, w)
    requires s.lock.Held? ==> s.lock.serial < s.nextSerial && s.lock.since <= s.now
    requires t + w <= STALE_LOCK_AGE || 2 * t <= STALE_LOCK_AGE + 1
    requires !a.Crash? && !a.Open? && !a.Tick? && SeenIsOrphan(s, a.h, t)
    ensures SeenIsOrphan(Next(s, a), a.h, t)
  {
    hide LoadFile, Mutate, Lists;
  }

  lemma OthersKeepOrphans(s: State, a: Action, h: nat, t: nat)
    requires Enabled(s, a) && Prompt(s, t) && h in Next(s, a).handles && (h in s.handles ==> SeenIsOrphan(s, h, t))
    requires s.lock.Held? ==> s.lock.serial < s.nextSerial && s.lock.since <= s.now
    requires a.Crash? || a.Open? || a.Tick? || a.h != h
    ensures SeenIsOrphan(Next(s, a), h, t)
  {
    hide LoadFile, Mutate, Lists;
  }

  lemma OrphansSpare(s: State, a: Action, t: nat)
    requires Orphans(s, t) && Enabled(s, a) && RemovesSeen(s, a)
    ensures Spares(s, a)
  {
    if a.Unlink? { assert SeenIsOrphan(s, a.h, t); }
  }

  lemma {:induction false} SeenRunSpares(states: seq<State>, actions: seq<Action>, t: nat, w: nat)
    requires IsRun(states, actions) && Timely(states, actions, t, w) && AllRemoveSeen(states, actions)
    requires t + w <= STALE_LOCK_AGE || 2 * t <= STALE_LOCK_AGE + 1
    ensures Orphans(states[|actions|], t) && AllSpare(states, actions)
    decreases |actions|
  {
    hide Enabled, Next, Spares, Prompt, Quick, RemovesSeen, SeenIsOrphan;
    var n := |actions|;
    if n == 0 {
      InitHasNoOrphans(states[0], t);
    } else {
      assert IsRun(states[..n], actions[..n - 1]);
      SeenRunSpares(states[..n], actions[..n - 1], t, w);
      StepKeepsOrphans(states[n - 1], actions[n - 1], t, w);
      OrphansSpare(states[n - 1], actions[n - 1], t);
      forall i | 0 <= i < n ensures Spares(states[i], actions[i]) {
        if i < n - 1 { assert Spares(states[..n][i], actions[..n - 1][i]); }
      }
    }
  }

  lemma InitHasNoOrphans(s: State, t: nat)
    requires Init(s)
    ensures Orphans(s, t)
  {
    forall h | h in s.handles ensures SeenIsOrphan(s, h, t) {}
  }

  /** Crashes do no harm either while every removal hits the lock that was looked at. */
  lemma SeenRunsKeepUpdates(states: seq<State>, actions: seq<Action>, t: nat, w: nat)
    requires IsRun(states, actions) && Timely(states, actions, t, w) && AllRemoveSeen(states, actions)
    requires t + w <= STALE_LOCK_AGE || 2 * t <= STALE_LOCK_AGE + 1
    ensures Inv(states[0].file, states[|actions|])
  {
    SeenRunSpares(states, actions, t, w);
    NoLostUpdates(states, actions);
  }

  // ---------------------------------------------------------------------
  // Steps in a row
  // ---------------------------------------------------------------------

  lemma FollowAll(states: seq<State>, actions: seq<Action>, more: seq<State>, steps: seq<Action>, t: nat, w: nat)
      returns (states': seq<State>, actions': seq<Action>)
    requires |states| == |actions| + 1 && |more| == |steps| + 1
    requires Follow(states, actions) && Follow(more, steps) && more[0] == states[|actions|]
    ensures |states'| == |actions'| + 1 && Follow(states', actions') && actions' == actions + steps
    ensures states'[0] == states[0] && states'[|actions'|] == more[|steps|]
    ensures Timely(states, actions, t, w) && Timely(more, steps, t, w) ==> Timely(states', actions', t, w)
    ensures AllRemoveSeen(states, actions) && AllRemoveSeen(more, steps) ==> AllRemoveSeen(states', actions')
    ensures AllSpare(states, actions) && AllSpare(more, steps) ==> AllSpare(states', actions')
  {
    hide Enabled, Next, Prompt, Quick, RemovesSeen, Spares;
    states', actions' := states + more[1..], actions + steps;
    assert forall i | 0 <= i < |actions| :: states'[i] == states[i] && actions'[i] == actions[i];
    assert forall i | 0 <= i < |more| :: states'[|actions| + i] == more[i];
    forall i | |actions| <= i < |actions'|
      ensures var j := i - |actions|; states'[i] == more[j] && states'[i + 1] == more[j + 1] && actions'[i] == steps[j]
    {
      var j := i - |actions|;
      assert states'[|actions| + j] == more[j] && states'[|actions| + (j + 1)] == more[j + 1];
    }
  }

  ghost predicate NoCrash(actions: seq<Action>) {
    forall i | 0 <= i < |actions| :: !actions[i].Crash?
  }

  ghost predicate NoUnlink(actions: seq<Action>) {
    forall i | 0 <= i < |actions| :: !actions[i].Unlink?
  }

  lemma DisableNew(name: string, stored: set<string>)
    requires IsNormal(name) && name !in stored
    ensures Mutate(Disable(name), stored) == Ok((stored + {name}, true))
  {
    NormalizeFixpoints(name);
  }

  ghost function Underway(s: State, h: nat, name: string): State
    requires LoadFile(s.file).Ok? && At(s, h)
  {
    s.(
      lock := Held(h, s.now, s.nextSerial),
      nextSerial := s.nextSerial + 1,
      handles := s.handles[h := Handle(s.handles[h].memory, Changing(Disable(name), LoadFile(s.file).value + {name}))])
  }

  lemma BeginsInSteps(s: State, h: nat, name: string, t: nat, w: nat, s1: State, s2: State)
    requires LoadFile(s.file).Ok? && s.lock == Free && At(s, h) && s.handles[h].phase == Idle
    requires IsNormal(name) && name !in LoadFile(s.file).value
    requires s1 == s.(
      lock := Held(h, s.now, s.nextSerial),
      nextSerial := s.nextSerial + 1,
      handles := s.handles[h := s.handles[h].(phase := Created(Disable(name)))])
    requires s2 == s1.(handles := s.handles[h := s.handles[h].(phase := Locked(Disable(name)))])
    ensures Enabled(s, Acquire(h, Disable(name))) && Next(s, Acquire(h, Disable(name))) == s1
    ensures Enabled(s1, Mark(h, true)) && Next(s1, Mark(h, true)) == s2
    ensures Enabled(s2, Load(h)) && Next(s2, Load(h)) == Underway(s, h, name)
    ensures t > 0 ==> Prompt(s, t) && Prompt(s1, t) && Prompt(s2, t)
    ensures Quick(s, Acquire(h, Disable(name)), w) && Quick(s1, Mark(h, true), w) && Quick(s2, Load(h), w)
  {
    DisableNew(name, LoadFile(s.file).value);
    hide IsNormal, Mutate, LoadFile, Lists;
  }

  /** `h` takes the free lock and is about to write `name`. */
  lemma Begins(s: State, h: nat, name: string, t: nat, w: nat) returns (states: seq<State>, actions: seq<Action>)
    requires LoadFile(s.file).Ok? && s.lock == Free && At(s, h) && s.handles[h].phase == Idle
    requires IsNormal(name) && name !in LoadFile(s.file).value
    ensures Follow(states, actions) && NoCrash(actions) && NoUnlink(actions) && states[0] == s
    ensures t > 0 ==> Timely(states, actions, t, w)
    ensures states[|actions|] == Underway(s, h, name)
  {
    hide IsNormal, LoadFile, Underway, Enabled, Next, Prompt, Quick;
    var m, handle := Disable(name), s.handles[h];
    var s1 := s.(
      lock := Held(h, s.now, s.nextSerial),
      nextSerial := s.nextSerial + 1,
      handles := s.handles[h := handle.(phase := Created(m))]);
    var s2 := s1.(handles := s.handles[h := handle.(phase := Locked(m))]);
    BeginsInSteps(s, h, name, t, w, s1, s2);
    states, actions := [s, s1, s2, Underway(s, h, name)], [Acquire(h, m), Mark(h, true), Load(h)];
  }

  ghost function Ended(s: State, h: nat, domains: seq<string>): State
    requires At(s, h) && s.handles[h].phase.Changing?
  {
    var phase := s.handles[h].phase;
    s.(
      file := Store(SETTINGS_VERSION, domains),
      lock := Free,
      log := s.log + [phase.m],
      handles := s.handles[h := Handle(phase.candidate, Idle)])
  }

  /** `h` writes its candidate and lets go. */
  lemma Ends(s: State, h: nat, domains: seq<string>, t: nat, w: nat) returns (states: seq<State>, actions: seq<Action>)
    requires At(s, h) && s.handles[h].phase.Changing? && Lists(domains, s.handles[h].phase.candidate)
    ensures Follow(states, actions) && NoCrash(actions) && NoUnlink(actions) && states[0] == s
    ensures Prompt(s, t) ==> Timely(states, actions, t, w)
    ensures states[|actions|] == Ended(s, h, domains)
  {
    hide Mutate, LoadFile, Lists;
    var s1 := Next(s, Save(h, domains, true));
    var s2 := Next(s1, Release(h));
    states, actions := [s, s1, s2], [Save(h, domains, true), Release(h)];
  }

  // ---------------------------------------------------------------------
  // One removal, exactly
  // ---------------------------------------------------------------------

  lemma InvIsReplayed(start: File, s: State)
    requires Inv(start, s)
    ensures Replayed(start, s.file, s.log)
  {
  }

  ghost predicate Carries(s: State, states: seq<State>, actions: seq<Action>, s': State) {
    Follow(states, actions) && NoUnlink(actions) && states[0] == s && states[|actions|] == s'
  }

  /** `s'` can be reached from `s` with no lock file removed. */
  ghost predicate Leads(s: State, s': State) {
    exists states, actions :: Carries(s, states, actions, s')
  }

  lemma StepLeads(s: State, a: Action)
    requires Enabled(s, a) && !a.Unlink?
    ensures Leads(s, Next(s, a))
  {
    hide Enabled, Next;
    assert Carries(s, [s, Next(s, a)], [a], Next(s, a));
  }

  lemma LeadsOn(s: State, s': State, s'': State)
    requires Leads(s, s') && Leads(s', s'')
    ensures Leads(s, s'')
  {
    hide Enabled, Next;
    var states, actions :| Carries(s, states, actions, s');
    var more, steps :| Carries(s', more, steps, s'');
    var states', actions' := FollowAll(states, actions, more, steps, 0, 0);
    assert Carries(s, states', actions', s'');
  }

  /** Once the lock is removed, an update can be lost with no other removed. */
  ghost predicate LossReachable(start: File, s: State, g: nat)
    requires Enabled(s, Unlink(g))
  {
    exists s' :: Leads(Next(s, Unlink(g)), s') && !Replayed(start, s'.file, s'.log)
  }

  lemma SparedNeverLoses(start: File, s: State, s': State)
    requires Inv(start, s) && Leads(s, s')
    ensures Replayed(start, s'.file, s'.log)
  {
    hide Inv, Enabled, Next, Spares, Replayed;
    var states, actions :| Carries(s, states, actions, s');
    forall i | 0 <= i < |actions| ensures Spares(states[i], actions[i]) {
      NotUnlinkSpares(states[i], actions[i]);
    }
    InvFollows(start, states, actions);
    InvIsReplayed(start, s');
  }

  /** A file that does not load is never written, and nothing is logged. */
  ghost predicate Stuck(s: State, file: File, log: seq<Mutation>) {
    s.file == file && s.log == log && LoadFile(file).Err? && forall h | h in s.handles :: !s.handles[h].phase.Changing?
  }

  lemma StepKeepsStuck(s: State, a: Action, file: File, log: seq<Mutation>)
    requires Stuck(s, file, log) && Enabled(s, a)
    ensures Stuck(Next(s, a), file, log)
  {
    hide LoadFile, Mutate, Lists;
  }

  lemma {:induction false} StuckFollows(states: seq<State>, actions: seq<Action>, file: File, log: seq<Mutation>)
    requires Follow(states, actions) && Stuck(states[0], file, log)
    ensures Stuck(states[|actions|], file, log)
    decreases |actions|
  {
    hide Stuck, Enabled, Next;
    var n := |actions|;
    if n > 0 {
      assert Follow(states[..n], actions[..n - 1]);
      StuckFollows(states[..n], actions[..n - 1], file, log);
      StepKeepsStuck(states[n - 1], actions[n - 1], file, log);
    }
  }

  lemma StuckNeverLoses(start: File, s: State, g: nat, s': State)
    requires Inv(start, s) && LoadFile(s.file).Err? && Enabled(s, Unlink(g)) && Leads(Next(s, Unlink(g)), s')
    ensures Replayed(start, s'.file, s'.log)
  {
    hide LoadFile, Mutate, Replayed;
    forall h | h in s.handles ensures !s.handles[h].phase.Changing? { assert HandleOk(s, h); }
    StepKeepsStuck(s, Unlink(g), s.file, s.log);
    hide Enabled, Next;
    var states, actions :| Carries(Next(s, Unlink(g)), states, actions, s');
    StuckFollows(states, actions, s.file, s.log);
  }

  // What the losing run needs: names, a handle and listings that exist.

  lemma {:induction false} LongerThanAll(names: set<string>) returns (n: nat)
    ensures n > 0 && forall name | name in names :: |name| < n
  {
    n := 1;
    if names != {} {
      var name :| name in names;
      n := LongerThanAll(names - {name});
      if n <= |name| { n := |name| + 1; }
    }
  }

  function Name(n: nat): (name: string)
    ensures |name| == n && forall i | 0 <= i < n :: name[i] == 'a'
  {
    seq(n, _ => 'a')
  }

  lemma FreshNames(names: set<string>) returns (d: string, e: string)
    ensures IsNormal(d) && IsNormal(e) && d != e && d !in names && e !in names
  {
    var n := LongerThanAll(names);
    d, e := Name(n), Name(n + 1);
    assert |d| != |e|;
  }

  lemma {:induction false} LargerThanAll(ids: set<nat>) returns (k: nat)
    ensures forall id | id in ids :: id < k
  {
    k := 0;
    if ids != {} {
      var id :| id in ids;
      k := LargerThanAll(ids - {id});
      if k <= id { k := id + 1; }
      assert forall other | other in ids :: other == id || other in ids - {id};
    }
  }

  lemma {:induction false} Listing(s: set<string>) returns (domains: seq<string>)
    ensures Lists(domains, s)
  {
    domains := [];
    if s != {} {
      var d :| d in s;
      var rest := Listing(s - {d});
      domains := [d] + rest;
      assert Elements(domains) == {d} + Elements(rest);
    }
  }

  lemma BeginsLeads(s: State, h: nat, name: string)
    requires LoadFile(s.file).Ok? && s.lock == Free && At(s, h) && s.handles[h].phase == Idle
    requires IsNormal(name) && name !in LoadFile(s.file).value
    ensures Leads(s, Underway(s, h, name))
  {
    hide Enabled, Next, LoadFile, IsNormal, Underway;
    var states, actions := Begins(s, h, name, 0, 0);
    assert Carries(s, states, actions, Underway(s, h, name));
  }

  lemma EndsLeads(s: State, h: nat, domains: seq<string>)
    requires At(s, h) && s.handles[h].phase.Changing? && Lists(domains, s.handles[h].phase.candidate)
    ensures Leads(s, Ended(s, h, domains))
  {
    hide Enabled, Next, Lists, Ended;
    var states, actions := Ends(s, h, domains, 0, 0);
    assert Carries(s, states, actions, Ended(s, h, domains));
  }

  /** `h` has left its transaction, without touching the file, and taken a lock file with it. */
  ghost predicate Gone(start: File, s: State, h: nat, s': State) {
    && s'.file == s.file && s'.lock == Free && h in s'.handles && s'.handles[h].phase == Idle
    && s'.handles == s.handles[h := s'.handles[h]]
    && (Replayed(start, s.file, s.log) ==> Replayed(start, s'.file, s'.log))
  }

  lemma ReleasedGoes(start: File, s: State, h: nat) returns (s': State)
    requires At(s, h) && (s.handles[h].phase.Committed? || s.handles[h].phase.Failed?)
    ensures Leads(s, s') && Gone(start, s, h, s')
  {
    hide LoadFile, Mutate, Lists, Replayed, Leads;
    s' := Next(s, Release(h));
    StepLeads(s, Release(h));
  }

  /** One step first, that leaves the file alone. */
  lemma GoesOn(start: File, s: State, h: nat, a: Action, s': State)
    requires At(s, h) && Enabled(s, a) && !a.Unlink?
    requires Next(s, a).file == s.file && h in Next(s, a).handles
    requires Next(s, a).handles == s.handles[h := Next(s, a).handles[h]]
    requires Replayed(start, s.file, s.log) ==> Replayed(start, s.file, Next(s, a).log)
    requires Leads(Next(s, a), s') && Gone(start, Next(s, a), h, s')
    ensures Leads(s, s') && Gone(start, s, h, s')
  {
    hide Enabled, Next, Replayed, Leads;
    StepLeads(s, a);
    LeadsOn(s, Next(s, a), s');
  }

  lemma ChangingGoes(start: File, s: State, h: nat) returns (s': State)
    requires At(s, h) && s.handles[h].phase.Changing?
    ensures Leads(s, s') && Gone(start, s, h, s')
  {
    hide LoadFile, Mutate, Lists, Replayed, Gone, Leads;
    var domains := Listing(s.handles[h].phase.candidate);
    var a := Save(h, domains, false);
    s' := ReleasedGoes(start, Next(s, a), h);
    GoesOn(start, s, h, a, s');
  }

  lemma LockedGoes(start: File, s: State, h: nat) returns (s': State)
    requires At(s, h) && s.handles[h].phase.Locked? && LoadFile(s.file).Ok?
    ensures Leads(s, s') && Gone(start, s, h, s')
  {
    var m, next := s.handles[h].phase.m, Next(s, Load(h));
    assert Replayed(start, s.file, s.log) ==> Replayed(start, s.file, next.log) by {
      if Replayed(start, s.file, s.log) && next.log != s.log { NoOpReplayed(start, s.file, s.log, m); }
    }
    hide LoadFile, Mutate, Lists, Replayed, Gone, Leads;
    if next.handles[h].phase.Changing? {
      s' := ChangingGoes(start, next, h);
    } else {
      s' := ReleasedGoes(start, next, h);
    }
    GoesOn(start, s, h, Load(h), s');
  }

  /** Whatever the phase, a transaction can end so. */
  lemma LetsGo(start: File, s: State, h: nat) returns (s': State)
    requires Active(s, h) && LoadFile(s.file).Ok?
    ensures Leads(s, s') && Gone(start, s, h, s')
  {
    hide LoadFile, Mutate, Lists, Replayed, Gone, Leads;
    match s.handles[h].phase
    case Created(_) =>
      s' := ReleasedGoes(start, Next(s, Mark(h, false)), h);
      GoesOn(start, s, h, Mark(h, false), s');
    case Locked(_) => s' := LockedGoes(start, s, h);
    case Changing(_, _) => s' := ChangingGoes(start, s, h);
    case _ => s' := ReleasedGoes(start, s, h);
  }

  /** The handle `k` opens, and disables `e` in full. */
  lemma NewcomerLeads(s: State, e: string, theirs: seq<string>) returns (k: nat, s': State)
    requires LoadFile(s.file).Ok? && s.lock == Free
    requires IsNormal(e) && e !in LoadFile(s.file).value && Lists(theirs, LoadFile(s.file).value + {e})
    ensures Leads(s, s') && k !in s.handles && k in s'.handles && s'.handles == s.handles[k := s'.handles[k]]
    ensures s'.file == Store(SETTINGS_VERSION, theirs) && s'.lock == Free && s'.log == s.log + [Disable(e)]
  {
    hide LoadFile, Mutate, Lists, IsNormal, Leads;
    k := LargerThanAll(s.handles.Keys);
    var s1 := Next(s, Open(k));
    var s2 := Underway(s1, k, e);
    s' := Ended(s2, k, theirs);
    StepLeads(s, Open(k));
    BeginsLeads(s1, k, e);
    LeadsOn(s, s1, s2);
    EndsLeads(s2, k, theirs);
    LeadsOn(s, s2, s');
  }

  lemma OverwrittenStore(start: File, s: State, phase: Phase, d: string, ours: seq<string>)
    requires Replayed(start, s.file, s.log) && LoadFile(s.file).Ok?
    requires phase.Changing? && Mutate(phase.m, LoadFile(s.file).value) == Ok((phase.candidate, true))
    requires !phase.m.ClearAll? && NormalizeDomain(phase.m.domain) != Ok(d)
    requires IsNormal(d) && d !in LoadFile(s.file).value && Lists(ours, phase.candidate)
    ensures !Replayed(start, Store(SETTINGS_VERSION, ours), s.log + [Disable(d)] + [phase.m])
  {
    var stored := LoadFile(s.file).value;
    NormalizeFixpoints(d);
    LoadIsNormal(s.file);
    MutateKeepsNormal(phase.m, stored);
    LoadAfterSave(ours, phase.candidate);
    if LoadFile(start).Ok? {
      ReplayNext(LoadFile(start).value, s.log, Disable(d));
      ReplayNext(LoadFile(start).value, s.log + [Disable(d)], phase.m);
    }
  }

  lemma CrossLoses(start: File, s: State, d: string, e: string, ours: seq<string>)
    requires Replayed(start, s.file, s.log) && LoadFile(s.file).Ok? && Lists(ours, LoadFile(s.file).value + {d})
    requires IsNormal(d) && IsNormal(e) && d != e && d !in LoadFile(s.file).value && e !in LoadFile(s.file).value
    ensures !Replayed(start, Store(SETTINGS_VERSION, ours), s.log + [Disable(e)] + [Disable(d)])
  {
    hide LoadFile, Mutate, Lists, IsNormal, Replayed;
    var stored := LoadFile(s.file).value;
    DisableNew(d, stored);
    NormalizeFixpoints(d);
    OverwrittenStore(start, s, Changing(Disable(d), stored + {d}), e, ours);
  }

  /** A new handle commits `e` while `g` is about to write `d`, and `g` then does. */
  lemma CrossWrites(start: File, s: State, g: nat, d: string, e: string) returns (s': State)
    requires Replayed(start, s.file, s.log) && LoadFile(s.file).Ok? && s.lock == Free && At(s, g)
    requires s.handles[g].phase == Changing(Disable(d), LoadFile(s.file).value + {d})
    requires IsNormal(d) && IsNormal(e) && d != e && d !in LoadFile(s.file).value && e !in LoadFile(s.file).value
    ensures Leads(s, s') && !Replayed(start, s'.file, s'.log)
  {
    hide LoadFile, Mutate, Lists, IsNormal, Replayed, Leads;
    var stored := LoadFile(s.file).value;
    var theirs := Listing(stored + {e});
    var ours := Listing(stored + {d});
    CrossLoses(start, s, d, e, ours);
    var k, s1 := NewcomerLeads(s, e, theirs);
    assert s1.handles[g] == s.handles[g];
    s' := Next(s1, Save(g, ours, true));
    StepLeads(s1, Save(g, ours, true));
    LeadsOn(s, s1, s');
  }

  /** With its lock removed, the owner is let go while `g` is about to write `d`. */
  lemma TakesOver(start: File, s: State, g: nat, d: string) returns (s': State)
    requires Replayed(start, s.file, s.log) && LoadFile(s.file).Ok?
    requires Enabled(s, Unlink(g)) && !Spares(s, Unlink(g)) && IsNormal(d) && d !in LoadFile(s.file).value
    ensures Leads(Next(s, Unlink(g)), s') && Replayed(start, s'.file, s'.log)
    ensures s'.file == s.file && s'.lock == Free && At(s', g)
    ensures s'.handles[g].phase == Changing(Disable(d), LoadFile(s.file).value + {d})
  {
    hide LoadFile, Mutate, Lists, IsNormal, Replayed, Leads;
    var h, s1 := s.lock.owner, Next(s, Unlink(g));
    var s2 := Underway(s1, g, d);
    BeginsLeads(s1, g, d);
    s' := LetsGo(start, s2, h);
    LeadsOn(s1, s2, s');
    assert s'.handles[g] == s2.handles[g];
  }

  lemma LiveUnlinkLoses(start: File, s: State, g: nat)
    requires Inv(start, s) && Enabled(s, Unlink(g)) && !Spares(s, Unlink(g)) && LoadFile(s.file).Ok?
    ensures LossReachable(start, s, g)
  {
    InvIsReplayed(start, s);
    hide LoadFile, Enabled, Next, IsNormal, Replayed, Inv, Leads, Spares;
    var d, e := FreshNames(LoadFile(s.file).value);
    var s1 := TakesOver(start, s, g, d);
    var s2 := CrossWrites(start, s1, g, d, e);
    LeadsOn(Next(s, Unlink(g)), s1, s2);
  }

  /**
   A removal can cost an update, with no other removal, exactly when it hits the
   lock of a transaction under way, in whatever phase, and the settings load.
   */
  lemma UnlinkLosesIff(start: File, s: State, g: nat)
    requires Inv(start, s) && Enabled(s, Unlink(g))
    ensures LossReachable(start, s, g) <==> !Spares(s, Unlink(g)) && LoadFile(s.file).Ok?
  {
    hide Inv, Leads, Spares, LoadFile, Replayed, Next, Enabled;
    if !Spares(s, Unlink(g)) && LoadFile(s.file).Ok? {
      LiveUnlinkLoses(start, s, g);
    }
    if LossReachable(start, s, g) {
      var s' :| Leads(Next(s, Unlink(g)), s') && !Replayed(start, s'.file, s'.log);
      if Spares(s, Unlink(g)) {
        StepKeepsInv(start, s, Unlink(g));
        SparedNeverLoses(start, Next(s, Unlink(g)), s');
      } else if LoadFile(s.file).Err? {
        StuckNeverLoses(start, s, g, s');
      }
    }
  }

  // ---------------------------------------------------------------------
  // Runs that lose an update
  // ---------------------------------------------------------------------

  /**
   A run from `s` to `s'` that keeps to the bounds and removes no lock of a
   transaction; when `calm`, it removes no lock at all and nothing crashes.
   */
  ghost predicate Passing(
    s: State, states: seq<State>, actions: seq<Action>, s': State, t: nat, w: nat, calm: bool)
  {
    Follow(states, actions) && states[0] == s && states[|actions|] == s' && Timely(states, actions, t, w) &&
    AllSpare(states, actions) && (calm ==> NoCrash(actions) && NoUnlink(actions))
  }

  ghost predicate Passes(s: State, s': State, t: nat, w: nat, calm: bool) {
    exists states, actions :: Passing(s, states, actions, s', t, w, calm)
  }

  lemma PassNothing(s: State, t: nat, w: nat, calm: bool)
    ensures Passes(s, s, t, w, calm)
  {
    assert Passing(s, [s], [], s, t, w, calm);
  }

  lemma PassOn(s: State, s': State, s'': State, t: nat, w: nat, calm: bool)
    requires Passes(s, s', t, w, calm) && Passes(s', s'', t, w, calm)
    ensures Passes(s, s'', t, w, calm)
  {
    hide Enabled, Next, Spares, Timely;
    var states, actions :| Passing(s, states, actions, s', t, w, calm);
    var more, steps :| Passing(s', more, steps, s'', t, w, calm);
    var states', actions' := FollowAll(states, actions, more, steps, t, w);
    assert Passing(s, states', actions', s'', t, w, calm);
  }

  lemma PassStep(s: State, s': State, a: Action, t: nat, w: nat, calm: bool)
    requires Passes(s, s', t, w, calm)
    requires Enabled(s', a) && Prompt(s', t) && Quick(s', a, w) && Spares(s', a)
    requires calm ==> !a.Crash? && !a.Unlink?
    ensures Passes(s, Next(s', a), t, w, calm)
  {
    hide Enabled, Next, Spares, Prompt, Quick, Passes;
    OneStepPasses(s', a, t, w, calm);
    PassOn(s, s', Next(s', a), t, w, calm);
  }

  lemma OneStepPasses(s: State, a: Action, t: nat, w: nat, calm: bool)
    requires Enabled(s, a) && Prompt(s, t) && Quick(s, a, w) && Spares(s, a)
    requires calm ==> !a.Crash? && !a.Unlink?
    ensures Passes(s, Next(s, a), t, w, calm)
  {
    hide Enabled, Next, Spares, Prompt, Quick;
    assert Passing(s, [s, Next(s, a)], [a], Next(s, a), t, w, calm);
  }

  /** The waiter `g` removes the lock that is there, and disables `d` in full. */
  lemma Overtake(s: State, g: nat, d: string, domains: seq<string>, t: nat, w: nat)
      returns (states: seq<State>, actions: seq<Action>)
    requires LoadFile(s.file).Ok? && At(s, g) && s.handles[g].phase.Breaking?
    requires IsNormal(d) && d !in LoadFile(s.file).value && Lists(domains, LoadFile(s.file).value + {d})
    ensures Follow(states, actions) && states[0] == s && NoCrash(actions)
    ensures actions != [] && actions[0] == Unlink(g) && NoUnlink(actions[1..])
    ensures Prompt(s, t) && t > 0 ==> Timely(states, actions, t, w) && Prompt(states[|actions|], t)
    ensures var after := states[|actions|];
      after.file == Store(SETTINGS_VERSION, domains) && after.log == s.log + [Disable(d)] &&
      after.handles == s.handles[g := Handle(LoadFile(s.file).value + {d}, Idle)]
  {
    hide LoadFile, Lists, IsNormal, Mutate;
    var s1 := Next(s, Unlink(g));
    var states1, actions1 := Begins(s1, g, d, t, w);
    var s2 := states1[|actions1|];
    assert t > 0 ==> Prompt(s2, t);
    var states2, actions2 := Ends(s2, g, domains, t, w);
    assert states2[|actions2|].handles == s.handles[g := Handle(LoadFile(s.file).value + {d}, Idle)];
    states, actions := [s, s1], [Unlink(g)];
    assert Prompt(s, t) ==> Timely(states, actions, t, w);
    hide Enabled, Next, Timely;
    states, actions := FollowAll(states, actions, states1, actions1, t, w);
    states, actions := FollowAll(states, actions, states2, actions2, t, w);
    assert actions[1..] == actions1 + actions2;
  }

  /** Handle 1 is about to write `ours` to a missing file; handle 2 is about to remove a lock. */
  predicate Contested(s: State, ours: string) {
    s.file == Missing && At(s, 1) && s.handles[1].phase == Changing(Disable(ours), {ours}) &&
    At(s, 2) && s.handles[2].phase.Breaking?
  }

  lemma MissingIsEmpty()
    ensures LoadFile(Missing) == Ok({})
  {
  }

  lemma CollisionLoses(s: State, ours: string, theirs: string)
    requires Replayed(Missing, Missing, s.log) && Contested(s, ours)
    requires IsNormal(ours) && IsNormal(theirs) && ours != theirs
    ensures LoadFile(Missing) == Ok({}) && Lists([theirs], {} + {theirs}) && Lists([ours], {ours})
    ensures !Replayed(Missing, Store(SETTINGS_VERSION, [ours]), s.log + [Disable(theirs)] + [Disable(ours)])
  {
    MissingIsEmpty();
    assert {} + {ours} == {ours} && {} + {theirs} == {theirs};
    assert Elements([theirs]) == {theirs} && Elements([ours]) == {ours};
    hide LoadFile, IsNormal, Replayed;
    CrossLoses(Missing, s, ours, theirs, [ours]);
  }

  /** Handle 2 goes first, and what it writes is lost. */
  lemma Collide(s: State, ours: string, theirs: string, t: nat, w: nat)
      returns (states: seq<State>, actions: seq<Action>)
    requires Replayed(Missing, Missing, s.log) && Contested(s, ours) && Prompt(s, t) && t > 0
    requires IsNormal(ours) && IsNormal(theirs) && ours != theirs
    ensures Follow(states, actions) && states[0] == s && Timely(states, actions, t, w) && NoCrash(actions)
    ensures RemovesSeen(s, Unlink(2)) ==> AllRemoveSeen(states, actions)
    ensures var after := states[|actions|];
      after.log == s.log + [Disable(theirs), Disable(ours)] && !Replayed(Missing, after.file, after.log)
  {
    hide LoadFile, Mutate, IsNormal, Lists, Replayed, Timely, RemovesSeen;
    CollisionLoses(s, ours, theirs);
    states, actions := Overtake(s, 2, theirs, [theirs], t, w);
    OnlyFirstUnlinks(states, actions);
    var s1 := states[|actions|];
    assert s1.handles[1] == s.handles[1];
    var a := Save(1, [ours], true);
    var s2 := Next(s1, a);
    SaveIsTimely(s1, s2, [ours], t, w);
    assert s.log + [Disable(theirs)] + [Disable(ours)] == s.log + [Disable(theirs), Disable(ours)];
    hide Enabled, Next, Prompt, AllRemoveSeen;
    states, actions := FollowAll(states, actions, [s1, s2], [a], t, w);
  }

  /** A run that has come so far can go on to lose the update of `theirs`. */
  lemma ContestIsLost(s0: State, s: State, ours: string, theirs: string, t: nat, w: nat, calm: bool)
      returns (states: seq<State>, actions: seq<Action>)
    requires Init(s0) && s0.file == Missing && Passes(s0, s, t, w, calm) && Contested(s, ours)
    requires Prompt(s, t) && t > 0 && IsNormal(ours) && IsNormal(theirs) && ours != theirs
    ensures IsRun(states, actions) && Timely(states, actions, t, w) && states[0] == s0
    ensures calm ==> NoCrash(actions)
    ensures calm && RemovesSeen(s, Unlink(2)) ==> AllRemoveSeen(states, actions)
    ensures var after := states[|actions|];
      after.log == s.log + [Disable(theirs), Disable(ours)] && !Replayed(Missing, after.file, after.log)
  {
    hide Enabled, Next, Prompt, RemovesSeen, Init, Timely, AllRemoveSeen, IsNormal, Replayed, Inv, AllSpare;
    var before, first :| Passing(s0, before, first, s, t, w, calm);
    NoLostUpdates(before, first);
    InvIsReplayed(Missing, s);
    if calm { NoUnlinkRemovesSeen(before, first); }
    var more, steps := Collide(s, ours, theirs, t, w);
    states, actions := FollowAll(before, first, more, steps, t, w);
  }

  lemma NoUnlinkRemovesSeen(states: seq<State>, actions: seq<Action>)
    requires |states| == |actions| + 1 && NoUnlink(actions)
    ensures AllRemoveSeen(states, actions)
  {
  }

  lemma OnlyFirstUnlinks(states: seq<State>, actions: seq<Action>)
    requires |states| == |actions| + 1 && actions != [] && NoUnlink(actions[1..])
    ensures RemovesSeen(states[0], actions[0]) ==> AllRemoveSeen(states, actions)
  {
    forall i | 0 < i < |actions| ensures RemovesSeen(states[i], actions[i]) {
      assert !actions[1..][i - 1].Unlink?;
    }
  }

  lemma SaveIsTimely(s: State, s': State, domains: seq<string>, t: nat, w: nat)
    requires Prompt(s, t)
    ensures Timely([s, s'], [Save(1, domains, true)], t, w) && AllRemoveSeen([s, s'], [Save(1, domains, true)])
  {
  }

  /** Handles 1 and 2 on a missing file. */
  function Pair(lock: Lock, nextSerial: nat, now: nat, first: Phase, second: Phase, log: seq<Mutation>): State {
    State(Missing, lock, nextSerial, now, map[1 := Handle({}, first), 2 := Handle({}, second)], log)
  }

  const QUIET := Pair(Free, 0, 0, Idle, Idle, [])

  /** Reached from the quiet pair. */
  ghost predicate Comes(s: State, t: nat, w: nat, calm: bool) {
    Passes(QUIET, s, t, w, calm)
  }

  lemma PairGoes(s: State, first: Phase, second: Phase, phase: Phase)
    requires s.file == Missing && s.handles == map[1 := Handle({}, first), 2 := Handle({}, second)]
    ensures Goes(s, 1, phase) == Pair(s.lock, s.nextSerial, s.now, phase, second, s.log)
    ensures Goes(s, 2, phase) == Pair(s.lock, s.nextSerial, s.now, first, phase, s.log)
  {
  }

  /** The lock of handle 1 is younger than `t`, or that handle is in no transaction. */
  predicate Young(lock: Lock, first: Phase, now: nat, t: nat) {
    lock.Held? ==>
      lock.owner == 1 && (now - lock.since < t || first.Idle? || first.Looked? || first.Breaking?)
  }

  lemma PairPrompt(lock: Lock, n: nat, now: nat, first: Phase, second: Phase, log: seq<Mutation>, t: nat)
    requires Young(lock, first, now, t)
    ensures Prompt(Pair(lock, n, now, first, second, log), t)
  {
  }

  lemma PairContested(
    since: nat, serial: nat, n: nat, now: nat, ours: string, seen: nat, log: seq<Mutation>, t: nat)
    requires now - since < t
    ensures var s := Pair(Held(1, since, serial), n, now, Changing(Disable(ours), {ours}), Breaking(seen), log);
      Contested(s, ours) && Prompt(s, t) && s.log == log && (RemovesSeen(s, Unlink(2)) <==> seen == serial)
  {
  }

  lemma PairAcquires(n: nat, now: nat, m: Mutation, second: Phase, log: seq<Mutation>, t: nat, w: nat, calm: bool)
    requires Comes(Pair(Free, n, now, Idle, second, log), t, w, calm)
    ensures Comes(Pair(Held(1, now, n), n + 1, now, Created(m), second, log), t, w, calm)
  {
    hide Passes, LoadFile, Mutate, Lists;
    var s := Pair(Free, n, now, Idle, second, log);
    PairGoes(s, Idle, second, Created(m));
    PassStep(QUIET, s, Acquire(1, m), t, w, calm);
  }

  lemma PairMarks(
    since: nat, n: nat, now: nat, m: Mutation, second: Phase, log: seq<Mutation>, t: nat, w: nat, calm: bool)
    requires Comes(Pair(Held(1, since, n), n + 1, now, Created(m), second, log), t, w, calm) && now - since < t
    ensures Comes(Pair(Held(1, now, n), n + 1, now, Locked(m), second, log), t, w, calm)
  {
    hide Passes, LoadFile, Mutate, Lists;
    var s := Pair(Held(1, since, n), n + 1, now, Created(m), second, log);
    PairGoes(s, Created(m), second, Locked(m));
    PassStep(QUIET, s, Mark(1, true), t, w, calm);
  }

  /** Reading the missing file, for a mutation that changes nothing and for one that adds a name. */
  lemma PairLoads(
    n: nat, now: nat, m: Mutation, name: string, second: Phase, log: seq<Mutation>, t: nat, w: nat, calm: bool)
    requires Comes(Pair(Held(1, now, n), n + 1, now, Locked(m), second, log), t, w, calm) && t > 0
    ensures Mutate(m, {}) == Ok(({}, false)) ==>
      Comes(Pair(Held(1, now, n), n + 1, now, Committed({}), second, log + [m]), t, w, calm)
    ensures Mutate(m, {}) == Ok(({name}, true)) ==>
      Comes(Pair(Held(1, now, n), n + 1, now, Changing(m, {name}), second, log), t, w, calm)
  {
    MissingIsEmpty();
    hide Passes, LoadFile, Mutate, Lists;
    var s := Pair(Held(1, now, n), n + 1, now, Locked(m), second, log);
    PairGoes(s, Locked(m), second, Committed({}));
    PairGoes(s, Locked(m), second, Changing(m, {name}));
    PassStep(QUIET, s, Load(1), t, w, calm);
  }

  lemma PairReleases(
    since: nat, n: nat, now: nat, second: Phase, log: seq<Mutation>, t: nat, w: nat, calm: bool)
    requires Comes(Pair(Held(1, since, n), n + 1, now, Committed({}), second, log), t, w, calm) && now - since < t
    ensures Comes(Pair(Free, n + 1, now, Idle, second, log), t, w, calm)
  {
    hide Passes, LoadFile, Mutate, Lists;
    var s := Pair(Held(1, since, n), n + 1, now, Committed({}), second, log);
    PairGoes(s, Committed({}), second, Idle);
    PassStep(QUIET, s, Release(1), t, w, calm);
  }

  lemma PairTicks(
    lock: Lock, n: nat, now: nat, first: Phase, second: Phase, log: seq<Mutation>, elapsed: nat,
    t: nat, w: nat, calm: bool)
    requires Comes(Pair(lock, n, now, first, second, log), t, w, calm) && Young(lock, first, now, t)
    ensures Comes(Pair(lock, n, now + elapsed, first, second, log), t, w, calm)
  {
    PairPrompt(lock, n, now, first, second, log, t);
    hide Passes, LoadFile, Mutate, Lists, Prompt;
    PassStep(QUIET, Pair(lock, n, now, first, second, log), Tick(elapsed), t, w, calm);
  }

  /** Handle 2 looks at the lock file; handle 1 may. */
  lemma PairLooks(
    lock: Lock, n: nat, now: nat, first: Phase, second: Phase, log: seq<Mutation>, t: nat, w: nat, calm: bool)
    requires Comes(Pair(lock, n, now, first, second, log), t, w, calm) && Young(lock, first, now, t) && lock.Held?
    ensures first == Idle ==> Comes(Pair(lock, n, now, Looked(lock.since, now, lock.serial), second, log), t, w, calm)
    ensures second == Idle ==> Comes(Pair(lock, n, now, first, Looked(lock.since, now, lock.serial), log), t, w, calm)
  {
    PairPrompt(lock, n, now, first, second, log, t);
    hide Passes, LoadFile, Mutate, Lists, Prompt;
    var s := Pair(lock, n, now, first, second, log);
    PairGoes(s, first, second, Looked(lock.since, now, lock.serial));
    if first == Idle { PassStep(QUIET, s, Look(1), t, w, calm); }
    if second == Idle { PassStep(QUIET, s, Look(2), t, w, calm); }
  }

  predicate Late(phase: Phase, now: nat, w: nat) {
    phase.Looked? && phase.at <= now <= phase.at + w && now - phase.stamp >= STALE_LOCK_AGE
  }

  /** A handle finds the lock file stale. */
  lemma PairJudges(
    lock: Lock, n: nat, now: nat, first: Phase, second: Phase, log: seq<Mutation>, t: nat, w: nat, calm: bool)
    requires Comes(Pair(lock, n, now, first, second, log), t, w, calm) && Young(lock, first, now, t)
    ensures Late(first, now, w) ==> Comes(Pair(lock, n, now, Breaking(first.seen), second, log), t, w, calm)
    ensures Late(second, now, w) ==> Comes(Pair(lock, n, now, first, Breaking(second.seen), log), t, w, calm)
  {
    PairPrompt(lock, n, now, first, second, log, t);
    hide Passes, LoadFile, Mutate, Lists, Prompt;
    var s := Pair(lock, n, now, first, second, log);
    if Late(first, now, w) {
      PairGoes(s, first, second, Breaking(first.seen));
      PassStep(QUIET, s, Judge(1), t, w, calm);
    }
    if Late(second, now, w) {
      PairGoes(s, first, second, Breaking(second.seen));
      PassStep(QUIET, s, Judge(2), t, w, calm);
    }
  }

  lemma QuietComes(t: nat, w: nat, calm: bool)
    ensures Comes(Pair(Free, 0, 0, Idle, Idle, []), t, w, calm)
  {
    PassNothing(QUIET, t, w, calm);
  }

  /** Handle 1 takes the free lock and is about to write `ours`. */
  lemma PairWrites(n: nat, now: nat, ours: string, second: Phase, log: seq<Mutation>, t: nat, w: nat, calm: bool)
    requires IsNormal(ours) && t > 0 && Comes(Pair(Free, n, now, Idle, second, log), t, w, calm)
    ensures Comes(
      Pair(Held(1, now, n), n + 1, now, Changing(Disable(ours), {ours}), second, log), t, w, calm)
  {
    DisableNew(ours, {});
    assert {} + {ours} == {ours};
    hide *;
    var m := Disable(ours);
    PairAcquires(n, now, m, second, log, t, w, calm);
    PairMarks(now, n, now, m, second, log, t, w, calm);
    PairLoads(n, now, m, ours, second, log, t, w, calm);
  }

  // Handle 2 looks at the lock file of handle 1 before the marker renews its time.

  lemma EarlyLook(a: nat, d: nat, ours: string, t: nat)
    requires IsNormal(ours) && a < t
    ensures Comes(Pair(Held(1, a, 0), 1, a, Changing(Disable(ours), {ours}), Looked(0, a, 0), []), t, d, true)
  {
    DisableNew(ours, {});
    assert {} + {ours} == {ours};
    hide Comes, IsNormal, Mutate, Pair;
    var m := Disable(ours);
    QuietComes(t, d, true);
    PairAcquires(0, 0, m, Idle, [], t, d, true);
    PairTicks(Held(1, 0, 0), 1, 0, Created(m), Idle, [], a, t, d, true);
    PairLooks(Held(1, 0, 0), 1, a, Created(m), Idle, [], t, d, true);
    PairMarks(0, 0, a, m, Looked(0, a, 0), [], t, d, true);
    PairLoads(0, a, m, ours, Looked(0, a, 0), [], t, d, true);
  }

  lemma RenewedRun(a: nat, d: nat, ours: string, t: nat) returns (s: State)
    requires IsNormal(ours) && a < t && d < t && a + d >= STALE_LOCK_AGE
    ensures Comes(s, t, d, true) && Contested(s, ours) && Prompt(s, t) && RemovesSeen(s, Unlink(2)) && s.log == []
  {
    hide Comes, IsNormal, Pair, Prompt, Contested, RemovesSeen;
    var writing := Changing(Disable(ours), {ours});
    EarlyLook(a, d, ours, t);
    PairTicks(Held(1, a, 0), 1, a, writing, Looked(0, a, 0), [], d, t, d, true);
    PairJudges(Held(1, a, 0), 1, a + d, writing, Looked(0, a, 0), [], t, d, true);
    PairContested(a, 0, 1, a + d, ours, 0, [], t);
    s := Pair(Held(1, a, 0), 1, a + d, writing, Breaking(0), []);
  }

  /**
   The time that the waiter reads is that of the creation: whenever it and the
   waiter's clock can be the bound apart, the removal hits the lock that was looked
   at, and an update is lost. With `d` zero the waiter is quick and the writer late;
   with `a` zero it is the waiter that stops between its readings.
   */
  lemma RenewedLockLosesUpdate(a: nat, d: nat, ours: string, theirs: string, t: nat)
      returns (states: seq<State>, actions: seq<Action>)
    requires a < t && d < t && a + d >= STALE_LOCK_AGE
    requires IsNormal(ours) && IsNormal(theirs) && ours != theirs
    ensures IsRun(states, actions) && Timely(states, actions, t, d) && NoCrash(actions)
    ensures AllRemoveSeen(states, actions)
    ensures var after := states[|actions|];
      after.log == [Disable(theirs), Disable(ours)] && !Replayed(states[0].file, after.file, after.log)
  {
    hide Passes, IsNormal, Replayed, Timely, Contested, AllRemoveSeen, Prompt, RemovesSeen;
    var s := RenewedRun(a, d, ours, t);
    states, actions := ContestIsLost(QUIET, s, ours, theirs, t, d, true);
  }

  /** A transaction may outlive the bound. */
  lemma LateWriterLosesUpdate(ours: string, theirs: string) returns (states: seq<State>, actions: seq<Action>)
    requires IsNormal(ours) && IsNormal(theirs) && ours != theirs
    ensures IsRun(states, actions) && Timely(states, actions, STALE_LOCK_AGE + 1, 0) && NoCrash(actions)
    ensures AllRemoveSeen(states, actions)
    ensures var after := states[|actions|];
      after.log == [Disable(theirs), Disable(ours)] && !Replayed(states[0].file, after.file, after.log)
  {
    hide Enabled, Next, Init, Timely, AllRemoveSeen, Replayed, IsNormal;
    states, actions := RenewedLockLosesUpdate(STALE_LOCK_AGE, 0, ours, theirs, STALE_LOCK_AGE + 1);
  }

  // Handle 2 looks at one lock of handle 1, and removes the next.

  lemma UnhurriedRun(a: nat, d: nat)
    ensures Comes(Pair(Free, 1, a + d, Idle, Looked(0, a, 0), [ClearAll]), a + 1, d, true)
  {
    assert Mutate(ClearAll, {}) == Ok(({}, false));
    assert [] + [ClearAll] == [ClearAll];
    hide Comes, Mutate, Pair;
    var t := a + 1;
    QuietComes(t, d, true);
    PairAcquires(0, 0, ClearAll, Idle, [], t, d, true);
    PairMarks(0, 0, 0, ClearAll, Idle, [], t, d, true);
    PairLoads(0, 0, ClearAll, "", Idle, [], t, d, true);
    PairTicks(Held(1, 0, 0), 1, 0, Committed({}), Idle, [ClearAll], a, t, d, true);
    PairLooks(Held(1, 0, 0), 1, a, Committed({}), Idle, [ClearAll], t, d, true);
    PairReleases(0, 0, a, Looked(0, a, 0), [ClearAll], t, d, true);
    PairTicks(Free, 1, a, Idle, Looked(0, a, 0), [ClearAll], d, t, d, true);
  }

  lemma SlowRun(a: nat, d: nat, ours: string) returns (s: State)
    requires IsNormal(ours) && a + d >= STALE_LOCK_AGE
    ensures Comes(s, a + 1, d, true) && Contested(s, ours) && Prompt(s, a + 1) && s.log == [ClearAll]
  {
    hide Comes, IsNormal, Pair, Prompt, Contested, RemovesSeen;
    var t := a + 1;
    UnhurriedRun(a, d);
    PairWrites(1, a + d, ours, Looked(0, a, 0), [ClearAll], t, d, true);
    PairJudges(Held(1, a + d, 1), 2, a + d, Changing(Disable(ours), {ours}), Looked(0, a, 0), [ClearAll], t, d, true);
    PairContested(a + d, 1, 2, a + d, ours, 0, [ClearAll], t);
    s := Pair(Held(1, a + d, 1), 2, a + d, Changing(Disable(ours), {ours}), Breaking(0), [ClearAll]);
  }

  /**
   However short every transaction is, a waiter that stops between its two readings
   removes the lock of a later one, and an update is lost.
   */
  lemma SlowWaiterLosesUpdate(a: nat, d: nat, ours: string, theirs: string)
      returns (states: seq<State>, actions: seq<Action>)
    requires a + d >= STALE_LOCK_AGE && IsNormal(ours) && IsNormal(theirs) && ours != theirs
    ensures IsRun(states, actions) && Timely(states, actions, a + 1, d) && NoCrash(actions)
    ensures var after := states[|actions|];
      after.log == [ClearAll, Disable(theirs), Disable(ours)] && !Replayed(states[0].file, after.file, after.log)
  {
    hide Passes, IsNormal, Replayed, Timely, Contested, Prompt;
    var s := SlowRun(a, d, ours);
    states, actions := ContestIsLost(QUIET, s, ours, theirs, a + 1, d, true);
  }

  // Handle 1 crashes in a transaction; reopened, it finds its lock stale, as handle 2 does.

  lemma CrashRun(crashed: string)
    ensures Comes(Pair(Held(1, 0, 0), 1, STALE_LOCK_AGE, Idle, Idle, []), 1, 0, false)
  {
    MissingIsEmpty();
    hide Passes, LoadFile, Mutate, Lists;
    QuietComes(1, 0, false);
    PairAcquires(0, 0, Disable(crashed), Idle, [], 1, 0, false);
    var s1 := Pair(Held(1, 0, 0), 1, 0, Created(Disable(crashed)), Idle, []);
    PassStep(QUIET, s1, Crash(1), 1, 0, false);
    var s2 := Next(s1, Crash(1));
    PassStep(QUIET, s2, Open(1), 1, 0, false);
    assert Next(s2, Open(1)).handles == map[1 := Handle({}, Idle), 2 := Handle({}, Idle)];
    PairTicks(Held(1, 0, 0), 1, 0, Idle, Idle, [], STALE_LOCK_AGE, 1, 0, false);
  }

  lemma RacingRun(crashed: string, ours: string) returns (s: State)
    requires IsNormal(ours)
    ensures Comes(s, 1, 0, false) && Contested(s, ours) && Prompt(s, 1) && s.log == []
  {
    hide Comes, IsNormal, Mutate, LoadFile, Pair, Prompt, Contested, RemovesSeen;
    var now := STALE_LOCK_AGE;
    CrashRun(crashed);
    PairLooks(Held(1, 0, 0), 1, now, Idle, Idle, [], 1, 0, false);
    PairLooks(Held(1, 0, 0), 1, now, Idle, Looked(0, now, 0), [], 1, 0, false);
    PairJudges(Held(1, 0, 0), 1, now, Looked(0, now, 0), Looked(0, now, 0), [], 1, 0, false);
    PairJudges(Held(1, 0, 0), 1, now, Breaking(0), Looked(0, now, 0), [], 1, 0, false);
    PairUnlinks(Held(1, 0, 0), 1, now, Breaking(0), [], 1, 0);
    PairWrites(1, now, ours, Breaking(0), [], 1, 0, false);
    PairContested(now, 1, 2, now, ours, 0, [], 1);
    s := Pair(Held(1, now, 1), 2, now, Changing(Disable(ours), {ours}), Breaking(0), []);
  }

  lemma PairUnlinks(lock: Lock, n: nat, now: nat, second: Phase, log: seq<Mutation>, t: nat, w: nat)
    requires lock.Held? && lock.owner == 1 && Comes(Pair(lock, n, now, Breaking(0), second, log), t, w, false)
    ensures Comes(Pair(Free, n, now, Idle, second, log), t, w, false)
  {
    hide Passes, LoadFile, Mutate, Lists;
    var s := Pair(lock, n, now, Breaking(0), second, log);
    PairGoes(s, Breaking(0), second, Idle);
    PassStep(QUIET, s, Unlink(1), t, w, false);
  }

  /** Two waiters find the lock of a crashed transaction stale, and an update is lost; nobody is slow. */
  lemma RacingWaitersLoseUpdate(crashed: string, ours: string, theirs: string)
      returns (states: seq<State>, actions: seq<Action>)
    requires IsNormal(ours) && IsNormal(theirs) && ours != theirs
    ensures IsRun(states, actions) && Timely(states, actions, 1, 0)
    ensures var after := states[|actions|];
      after.log == [Disable(theirs), Disable(ours)] && !Replayed(states[0].file, after.file, after.log)
  {
    hide Passes, IsNormal, Replayed, Timely, Contested, Prompt;
    var s := RacingRun(crashed, ours);
    states, actions := ContestIsLost(QUIET, s, ours, theirs, 1, 0, false);
  }

  // ---------------------------------------------------------------------
  // The bounds, exactly
  // ---------------------------------------------------------------------

  ghost predicate Kept(states: seq<State>, actions: seq<Action>)
    requires |states| == |actions| + 1
  {
    Replayed(states[0].file, states[|actions|].file, states[|actions|].log)
  }

  /** Bounds that keep every update of every run without crashes in transactions. */
  ghost predicate BoundsKeepUpdates(t: nat, w: nat) {
    forall states, actions |
      IsRun(states, actions) && Timely(states, actions, t, w) && NoCrashInside(states, actions) ::
      Kept(states, actions)
  }

  /** The same with crashes, for waiters that remove only the lock that they looked at. */
  ghost predicate BoundsKeepSeen(t: nat, w: nat) {
    forall states, actions |
      IsRun(states, actions) && Timely(states, actions, t, w) && AllRemoveSeen(states, actions) ::
      Kept(states, actions)
  }

  lemma TwoNames()
    ensures IsNormal("a") && IsNormal("b")
  {
  }

  lemma BoundsAreExact(t: nat, w: nat)
    requires t > 0
    ensures BoundsKeepUpdates(t, w) <==> t + w <= STALE_LOCK_AGE
  {
    hide Enabled, Next, Init, Timely, NoCrashInside, Replayed, IsNormal, Inv;
    if t + w <= STALE_LOCK_AGE {
      forall states: seq<State>, actions |
        IsRun(states, actions) && Timely(states, actions, t, w) && NoCrashInside(states, actions)
        ensures Kept(states, actions)
      {
        TimelyRunsKeepUpdates(states, actions, t, w);
        InvIsReplayed(states[0].file, states[|actions|]);
      }
    } else {
      TwoNames();
      var states, actions := SlowWaiterLosesUpdate(t - 1, w, "a", "b");
      NoCrashNoneInside(states, actions);
      assert !Kept(states, actions);
    }
  }

  lemma NoCrashNoneInside(states: seq<State>, actions: seq<Action>)
    requires |states| == |actions| + 1 && NoCrash(actions)
    ensures NoCrashInside(states, actions)
  {
  }

  lemma SeenBoundsAreExact(t: nat, w: nat)
    requires t > 0
    ensures BoundsKeepSeen(t, w) <==> t + w <= STALE_LOCK_AGE || 2 * t <= STALE_LOCK_AGE + 1
  {
    hide Enabled, Next, Init, Timely, AllRemoveSeen, Replayed, IsNormal, Inv;
    if t + w <= STALE_LOCK_AGE || 2 * t <= STALE_LOCK_AGE + 1 {
      forall states: seq<State>, actions |
        IsRun(states, actions) && Timely(states, actions, t, w) && AllRemoveSeen(states, actions)
        ensures Kept(states, actions)
      {
        SeenRunsKeepUpdates(states, actions, t, w);
        InvIsReplayed(states[0].file, states[|actions|]);
      }
    } else {
      TwoNames();
      var d := if w < t then w else t - 1;
      var states, actions := RenewedLockLosesUpdate(t - 1, d, "a", "b", t);
      LongerIsTimely(states, actions, t, d, w);
      assert !Kept(states, actions);
    }
  }

  lemma LongerIsTimely(states: seq<State>, actions: seq<Action>, t: nat, d: nat, w: nat)
    requires |states| == |actions| + 1 && Timely(states, actions, t, d) && d <= w
    ensures Timely(states, actions, t, w)
  {
    hide Prompt;
    forall i | 0 <= i < |actions| ensures Prompt(states[i], t) && Quick(states[i], actions[i], w) {
      assert Quick(states[i], actions[i], d);
    }
  }
}
