/**
 Execution ids and the per-session index of running executions that protocol
 cancellations are looked up in.
 */
module Executions {
  import opened Wrappers
  import opened Numerals

  /** A JSON-RPC request id, as the client chose it. */
  datatype RequestId = Number(value: int) | Text(text: string) {
    /** The protocol request id: tagged, so numbers and strings never meet. */
    function Protocol(): string {
      match this
      case Number(n) => "mcp:n:" + SignedDecimal(n)
      case Text(s) => "mcp:s:" + s
    }
  }

  /** One issued execution id: of a direct call, or of a detached job. */
  datatype ExecutionId = Direct(request: RequestId, sequence: nat) | Detached(sequence: nat) {
    function Prefix(): string {
      if Direct? then request.Protocol() else "mcp:job"
    }

    function Render(): string {
      Prefix() + ":e:" + Decimal(sequence)
    }
  }

  function AfterLastColon(s: string): string {
    if s == [] then [] else if s[|s| - 1] == ':' then [] else AfterLastColon(s[..|s| - 1]) + [s[|s| - 1]]
  }

  lemma {:induction false} AfterLastColonIs(front: string, last: string)
    requires ':' !in last
    ensures AfterLastColon(front + ":" + last) == last
  {
    var s := front + ":" + last;
    if last != [] {
      assert s[..|s| - 1] == front + ":" + last[..|last| - 1];
      AfterLastColonIs(front, last[..|last| - 1]);
      assert last == last[..|last| - 1] + [last[|last| - 1]];
    }
  }

  /** Whatever the client put into its request id, the number can be read back. */
  lemma RenderedSequence(id: ExecutionId)
    ensures AfterLastColon(id.Render()) == Decimal(id.sequence)
  {
    assert id.Render() == (id.Prefix() + ":e") + ":" + Decimal(id.sequence);
    AfterLastColonIs(id.Prefix() + ":e", Decimal(id.sequence));
  }

  /** The texts of the ids, by what they are of. */
  lemma IdTexts(id: ExecutionId) returns (number: string)
    ensures Value(number, Dec) == id.sequence && AreDigits(number, 10)
    ensures id.Detached? ==> id.Render() == "mcp:job:e:" + number
    ensures id.Direct? && id.request.Text? ==> id.Render() == "mcp:s:" + id.request.text + ":e:" + number
    ensures id.Direct? && id.request.Number? ==>
      var n := id.request.value;
      id.Render() == (if n < 0 then "mcp:n:-" + Decimal(-n) else "mcp:n:" + Decimal(n)) + ":e:" + number
  {
    number := Decimal(id.sequence);
    NumeralReads(id.sequence, Dec);
    hide Digits, Value, AreDigits;
    if id.Detached? {
      assert "mcp:job" + ":e:" == "mcp:job:e:";
    } else if id.request.Number? && id.request.value < 0 {
      Negative(Decimal(-id.request.value));
    }
  }

  lemma Negative(digits: string)
    ensures "mcp:n:" + ("-" + digits) == "mcp:n:-" + digits
  {
    assert "mcp:n:" + "-" == "mcp:n:-";
  }

  lemma ProtocolInjective(a: RequestId, b: RequestId)
    requires a.Protocol() == b.Protocol()
    ensures a == b
  {
    assert a.Protocol()[4] == if a.Number? then 'n' else 's';
    assert b.Protocol()[4] == if b.Number? then 'n' else 's';
    assert a.Protocol()[6..] == b.Protocol()[6..];
    match a {
      case Number(m) =>
        assert a.Protocol()[6..] == SignedDecimal(m) && b.Protocol()[6..] == SignedDecimal(b.value);
        SignedDecimalInjective(m, b.value);
      case Text(s) =>
        assert a.Protocol()[6..] == s && b.Protocol()[6..] == b.text;
    }
  }

  lemma SignedDecimalInjective(m: int, n: int)
    requires SignedDecimal(m) == SignedDecimal(n)
    ensures m == n
  {
    assert m < 0 ==> SignedDecimal(m)[0] == '-' && SignedDecimal(m)[1..] == Decimal(-m);
    assert n < 0 ==> SignedDecimal(n)[0] == '-' && SignedDecimal(n)[1..] == Decimal(-n);
    assert m >= 0 ==> SignedDecimal(m)[0] != '-';
    assert n >= 0 ==> SignedDecimal(n)[0] != '-';
    DecimalInjective(if m < 0 then -m else m, if n < 0 then -n else n);
  }

  /** Two executions with the same id text are the same execution. */
  lemma RenderInjective(a: ExecutionId, b: ExecutionId)
    requires a.Render() == b.Render()
    ensures a == b
  {
    RenderedSequence(a);
    RenderedSequence(b);
    DecimalInjective(a.sequence, b.sequence);
    SameTail(a.Prefix() + ":e:", b.Prefix() + ":e:", Decimal(a.sequence));
    SameTail(a.Prefix(), b.Prefix(), ":e:");
    PrefixInjective(a, b);
  }

  lemma SameTail(p: string, q: string, tail: string)
    requires p + tail == q + tail
    ensures p == q
  {
    assert (p + tail)[..|p|] == p && (q + tail)[..|q|] == q;
  }

  lemma PrefixInjective(a: ExecutionId, b: ExecutionId)
    requires a.Prefix() == b.Prefix() && a.sequence == b.sequence
    ensures a == b
  {
    assert a.Direct? ==> a.Prefix()[4] == if a.request.Number? then 'n' else 's';
    assert b.Direct? ==> b.Prefix()[4] == if b.request.Number? then 'n' else 's';
    assert "mcp:job"[4] == 'j';
    if a.Direct? && b.Direct? {
      ProtocolInjective(a.request, b.request);
    }
  }

  // ---------------------------------------------------------------------
  // One session's index
  // ---------------------------------------------------------------------

  type Index = map<RequestId, seq<ExecutionId>>

  /** `retain(|id| id != gone)`. */
  function Without(ids: seq<ExecutionId>, gone: ExecutionId): (kept: seq<ExecutionId>)
    ensures forall id :: id in kept <==> id in ids && id != gone
    ensures NoRepeats(ids) ==> NoRepeats(kept)
  {
    if ids == [] then []
    else
      var rest := Without(ids[1..], gone);
      assert ids == [ids[0]] + ids[1..];
      assert NoRepeats(ids) ==> ids[0] !in ids[1..] && ids[0] !in rest;
      if ids[0] == gone then rest else [ids[0]] + rest
  }

  lemma {:induction false} WithoutConcat(a: seq<ExecutionId>, b: seq<ExecutionId>, gone: ExecutionId)
    ensures Without(a + b, gone) == Without(a, gone) + Without(b, gone)
  {
    hide NoRepeats;
    if a == [] {
      assert a + b == b;
    } else {
      assert (a + b)[1..] == a[1..] + b;
      WithoutConcat(a[1..], b, gone);
    }
  }

  lemma {:induction false} WithoutNone(ids: seq<ExecutionId>, gone: ExecutionId)
    requires gone !in ids
    ensures Without(ids, gone) == ids
  {
    hide NoRepeats;
    if ids != [] {
      WithoutNone(ids[1..], gone);
      assert ids == [ids[0]] + ids[1..];
    }
  }

  /** The others stay in their order. */
  lemma WithoutOne(before: seq<ExecutionId>, gone: ExecutionId, after: seq<ExecutionId>)
    requires gone !in before && gone !in after
    ensures Without(before + [gone] + after, gone) == before + after
  {
    hide *;
    WithoutConcat(before + [gone], after, gone);
    WithoutConcat(before, [gone], gone);
    WithoutNone(before, gone);
    WithoutNone(after, gone);
    WithoutItself(gone);
    assert before + [] == before;
  }

  lemma WithoutItself(gone: ExecutionId)
    ensures Without([gone], gone) == []
  {
    hide NoRepeats;
    assert Without([gone], gone) == Without([gone][1..], gone);
  }

  predicate NoRepeats(ids: seq<ExecutionId>) {
    forall i, j | 0 <= i < j < |ids| :: ids[i] != ids[j]
  }

  function Pushed(index: Index, request: RequestId, id: ExecutionId): Index {
    index[request := (if request in index then index[request] else []) + [id]]
  }

  function Pruned(index: Index, request: RequestId, id: ExecutionId): Index {
    if request !in index then index
    else
      var kept := Without(index[request], id);
      if kept == [] then index - {request} else index[request := kept]
  }

  function Targets(index: Index, request: RequestId): seq<ExecutionId> {
    if request in index then index[request] else []
  }

  class Session {
    var active: Index

    constructor ()
      ensures active == map[]
    {
      active := map[];
    }

    method Begin(request: RequestId, id: ExecutionId)
      modifies this
      ensures active == Pushed(old(active), request, id)
      ensures active.Keys == old(active).Keys + {request}
      ensures active[request] == (if request in old(active) then old(active)[request] else []) + [id]
      ensures forall other | other in old(active) && other != request :: active[other] == old(active)[other]
    {
      if request !in active {
        active := active[request := []];
      }
      active := active[request := active[request] + [id]];
    }

    /** Dropping a guard: the id leaves its list, an emptied list leaves the map. */
    method Finish(request: RequestId, id: ExecutionId)
      modifies this
      ensures active == Pruned(old(active), request, id)
      ensures forall other | other != request :: other in active <==> other in old(active)
      ensures forall other | other in active && other != request :: active[other] == old(active)[other]
      ensures request in active <==> request in old(active) && exists i :: i in old(active)[request] && i != id
      ensures request in active ==> active[request] == Without(old(active)[request], id)
    {
      if request !in active {
        return;
      }
      active := active[request := Without(active[request], id)];
      assert active[request] != [] ==> active[request][0] in old(active)[request];
      if active[request] == [] {
        active := active - {request};
      }
    }

    /** Cancels every listed execution, not only the first that accepts. */
    method CancelRequest(request: RequestId, accepts: ExecutionId -> bool)
        returns (cancelled: bool, asked: seq<ExecutionId>)
      ensures asked == Targets(active, request)
      ensures asked == if request in active then active[request] else []
      ensures cancelled <==> exists id :: id in asked && accepts(id)
    {
      var ids := if request in active then active[request] else [];
      cancelled := false;
      asked := [];
      for i := 0 to |ids|
        invariant asked == ids[..i]
        invariant cancelled <==> exists id :: id in asked && accepts(id)
      {
        if accepts(ids[i]) {
          cancelled := true;
        }
        asked := asked + [ids[i]];
      }
    }
  }

  // ---------------------------------------------------------------------
  // All sessions together
  // ---------------------------------------------------------------------

  /** A call that has its number; it is listed once the push has happened. */
  datatype Guard = Guard(session: nat, request: RequestId, listed: bool)

  datatype State = State(
    nextExecutionId: nat,
    sessions: map<nat, Index>,
    guards: map<nat, Guard>,
    issued: seq<ExecutionId>)

  datatype Action =
    | OpenSession(s: nat)
    | TakeNumber(s: nat, request: RequestId)
    | Push(n: nat)
    | DropGuard(n: nat)
    | TakeDetachedNumber

  ghost predicate Init(st: State) {
    st.nextExecutionId == 1 && st.sessions == map[] && st.guards == map[] && st.issued == []
  }

  ghost predicate Next(st: State, a: Action, st': State) {
    match a
    case OpenSession(s) =>
      s !in st.sessions && st' == st.(sessions := st.sessions[s := map[]])
    case TakeNumber(s, request) =>
      s in st.sessions &&
      st' == st.(
        nextExecutionId := st.nextExecutionId + 1,
        guards := st.guards[st.nextExecutionId := Guard(s, request, false)],
        issued := st.issued + [Direct(request, st.nextExecutionId)])
    case Push(n) =>
      n in st.guards && !st.guards[n].listed &&
      var Guard(s, request, _) := st.guards[n];
      s in st.sessions &&
      st' == st.(
        sessions := st.sessions[s := Pushed(st.sessions[s], request, Direct(request, n))],
        guards := st.guards[n := Guard(s, request, true)])
    case DropGuard(n) =>
      n in st.guards && st.guards[n].listed &&
      var Guard(s, request, _) := st.guards[n];
      s in st.sessions &&
      st' == st.(
        sessions := st.sessions[s := Pruned(st.sessions[s], request, Direct(request, n))],
        guards := st.guards - {n})
    case TakeDetachedNumber =>
      st' == st.(
        nextExecutionId := st.nextExecutionId + 1,
        issued := st.issued + [Detached(st.nextExecutionId)])
  }

  ghost predicate IsRun(run: seq<State>, actions: seq<Action>) {
    |run| == |actions| + 1 && Init(run[0]) &&
    forall k | 0 <= k < |actions| :: Next(run[k], actions[k], run[k + 1])
  }

  /** The guard with number `n` is live in session `s` under `request`. */
  predicate LiveIn(st: State, s: nat, request: RequestId, id: ExecutionId) {
    id.Direct? && id.request == request && id.sequence in st.guards &&
    st.guards[id.sequence] == Guard(s, request, true)
  }

  /** The list holds exactly the live executions of this request, once each. */
  ghost predicate ListOk(st: State, s: nat, request: RequestId, ids: seq<ExecutionId>) {
    ids != [] && NoRepeats(ids) && (forall id :: id in ids <==> LiveIn(st, s, request, id))
  }

  ghost predicate IndexOk(st: State, s: nat)
    requires s in st.sessions
  {
    (forall request | request in st.sessions[s] :: ListOk(st, s, request, st.sessions[s][request])) &&
    (forall request, id | LiveIn(st, s, request, id) :: request in st.sessions[s])
  }

  ghost predicate GuardsOk(st: State) {
    (forall n | n in st.guards :: n < st.nextExecutionId && st.guards[n].session in st.sessions) &&
    (forall i | 0 <= i < |st.issued| :: st.issued[i].sequence < st.nextExecutionId) &&
    (forall i, j | 0 <= i < j < |st.issued| :: st.issued[i].sequence < st.issued[j].sequence)
  }

  ghost predicate Inv(st: State) {
    GuardsOk(st) && forall s | s in st.sessions :: IndexOk(st, s)
  }

  lemma StepKeepsInv(st: State, a: Action, st': State)
    requires Inv(st) && Next(st, a, st')
    ensures Inv(st')
  {
    forall s | s in st'.sessions ensures IndexOk(st', s) {
      match a
      case OpenSession(t) => OtherSessionKept(st, a, st', s);
      case TakeNumber(t, request) => OtherSessionKept(st, a, st', s);
      case TakeDetachedNumber => OtherSessionKept(st, a, st', s);
      case Push(n) =>
        if s == st.guards[n].session { PushKeepsIndex(st, n, st'); } else { OtherSessionKept(st, a, st', s); }
      case DropGuard(n) =>
        if s == st.guards[n].session { DropKeepsIndex(st, n, st'); } else { OtherSessionKept(st, a, st', s); }
    }
  }

  /** A session the step does not write keeps its index and its live guards. */
  lemma OtherSessionKept(st: State, a: Action, st': State, s: nat)
    requires Inv(st) && Next(st, a, st') && s in st'.sessions
    requires (a.Push? || a.DropGuard?) ==> s != st.guards[a.n].session
    ensures IndexOk(st', s)
  {
    forall request, id ensures LiveIn(st', s, request, id) == LiveIn(st, s, request, id) {}
    if s in st.sessions {
      assert IndexOk(st, s);
      assert st'.sessions[s] == st.sessions[s];
    }
  }

  lemma PushKeepsIndex(st: State, n: nat, st': State)
    requires Inv(st) && Next(st, Push(n), st')
    ensures IndexOk(st', st.guards[n].session)
  {
    var Guard(s, request, _) := st.guards[n];
    var me := Direct(request, n);
    assert IndexOk(st, s);
    forall r, id ensures LiveIn(st', s, r, id) == (LiveIn(st, s, r, id) || (r == request && id == me)) {}
    assert !LiveIn(st, s, request, me);
    assert request in st.sessions[s] ==> ListOk(st, s, request, st.sessions[s][request]);
    forall r | r in st'.sessions[s] ensures ListOk(st', s, r, st'.sessions[s][r]) {
      if r == request {
        var ids := Targets(st.sessions[s], request);
        assert st'.sessions[s][r] == ids + [me];
        assert forall id :: id in ids + [me] <==> id in ids || id == me;
      } else {
        assert ListOk(st, s, r, st.sessions[s][r]);
      }
    }
  }

  lemma DropKeepsIndex(st: State, n: nat, st': State)
    requires Inv(st) && Next(st, DropGuard(n), st')
    ensures IndexOk(st', st.guards[n].session)
  {
    var Guard(s, request, _) := st.guards[n];
    var me := Direct(request, n);
    assert IndexOk(st, s);
    forall r, id ensures LiveIn(st', s, r, id) == (LiveIn(st, s, r, id) && id != me) {}
    assert LiveIn(st, s, request, me);
    var kept := Without(st.sessions[s][request], me);
    assert ListOk(st, s, request, st.sessions[s][request]);
    forall r | r in st'.sessions[s] ensures ListOk(st', s, r, st'.sessions[s][r]) {
      assert ListOk(st, s, r, st.sessions[s][r]);
    }
    forall r, id | LiveIn(st', s, r, id) ensures r in st'.sessions[s] {
      if r == request { assert id in kept; }
    }
  }

  lemma {:induction false} ReachableInv(run: seq<State>, actions: seq<Action>, k: nat)
    requires IsRun(run, actions) && k < |run|
    ensures Inv(run[k])
  {
    if k > 0 {
      ReachableInv(run, actions, k - 1);
      StepKeepsInv(run[k - 1], actions[k - 1], run[k]);
    }
  }

  /**
   All execution ids issued in a run, by direct calls of every session and by
   detached jobs, have pairwise different texts, whatever the request ids are.
   */
  lemma IssuedIdsDistinct(run: seq<State>, actions: seq<Action>, k: nat, i: nat, j: nat)
    requires IsRun(run, actions) && k < |run|
    requires i < j < |run[k].issued|
    ensures run[k].issued[i].Render() != run[k].issued[j].Render()
  {
    ReachableInv(run, actions, k);
    if run[k].issued[i].Render() == run[k].issued[j].Render() {
      RenderInjective(run[k].issued[i], run[k].issued[j]);
    }
  }

  /**
   In every reachable state a cancellation of `request` in session `s` asks for
   exactly that session's live executions of that request, each once.
   */
  lemma CancelTargetsOwnRequest(run: seq<State>, actions: seq<Action>, k: nat, s: nat, request: RequestId)
    requires IsRun(run, actions) && k < |run| && s in run[k].sessions
    ensures var asked := Targets(run[k].sessions[s], request);
      NoRepeats(asked) && forall id :: id in asked <==> LiveIn(run[k], s, request, id)
  {
    ReachableInv(run, actions, k);
    assert IndexOk(run[k], s);
    if request in run[k].sessions[s] {
      assert ListOk(run[k], s, request, run[k].sessions[s][request]);
    }
  }

  // ---------------------------------------------------------------------
  // One call, with nobody in between
  // ---------------------------------------------------------------------

  ghost predicate Follow(states: seq<State>, actions: seq<Action>) {
    |states| == |actions| + 1 && forall k | 0 <= k < |actions| :: Next(states[k], actions[k], states[k + 1])
  }

  lemma PushedThenPruned(st: State, s: nat, request: RequestId, id: ExecutionId)
    requires s in st.sessions && IndexOk(st, s) && !LiveIn(st, s, request, id)
    ensures Pruned(Pushed(st.sessions[s], request, id), request, id) == st.sessions[s]
  {
    var index := st.sessions[s];
    var before := Targets(index, request);
    if request in index { assert ListOk(st, s, request, index[request]); }
    WithoutOne(before, id, []);
    assert before + [id] + [] == before + [id] && before + [] == before;
    hide Without, LiveIn;
  }

  /** A call is listed last of its request while it runs, under the next number, and leaves no trace in the index. */
  lemma CallAlone(st: State, s: nat, request: RequestId) returns (states: seq<State>, actions: seq<Action>)
    requires Inv(st) && s in st.sessions
    ensures var n := st.nextExecutionId; actions == [TakeNumber(s, request), Push(n), DropGuard(n)]
    ensures Follow(states, actions) && states[0] == st && |states| == 4
    ensures s in states[2].sessions &&
      Targets(states[2].sessions[s], request) ==
        Targets(st.sessions[s], request) + [Direct(request, st.nextExecutionId)]
    ensures states[3] == st.(
      nextExecutionId := st.nextExecutionId + 1,
      issued := st.issued + [Direct(request, st.nextExecutionId)])
  {
    var n := st.nextExecutionId;
    var id := Direct(request, n);
    assert IndexOk(st, s) && !LiveIn(st, s, request, id);
    PushedThenPruned(st, s, request, id);
    hide Inv, Pruned, IndexOk;
    var s1 := st.(
      nextExecutionId := n + 1, guards := st.guards[n := Guard(s, request, false)], issued := st.issued + [id]);
    var s2 := s1.(
      sessions := st.sessions[s := Pushed(st.sessions[s], request, id)],
      guards := st.guards[n := Guard(s, request, true)]);
    assert s1.guards[n := Guard(s, request, true)] == s2.guards;
    var s3 := st.(nextExecutionId := n + 1, issued := st.issued + [id]);
    assert s2.sessions[s := st.sessions[s]] == st.sessions;
    assert s2.guards - {n} == st.guards by { assert n !in st.guards; }
    states, actions := [st, s1, s2, s3], [TakeNumber(s, request), Push(n), DropGuard(n)];
  }

  /** A new session lists nothing, and a job takes the next number as well. */
  lemma OthersAlone(st: State, s: nat)
    requires s !in st.sessions
    ensures Next(st, OpenSession(s), st.(sessions := st.sessions[s := map[]]))
    ensures Next(st, TakeDetachedNumber, st.(
      nextExecutionId := st.nextExecutionId + 1,
      issued := st.issued + [Detached(st.nextExecutionId)]))
  {
  }
}
