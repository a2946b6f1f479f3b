/** inject, consume and resume_event of backend/agent_hints.py on any number of threads. */
module HintThreads {
  import opened HintBoard

  // The lock is held for single dictionary accesses only.  inject writes the slot, then gets or
  // makes the event, then sets it; consume pops the slot and looks the event up, then clears it if
  // there was one.  The limiter has its own dictionary and takes no part.

  datatype Kind = Injecting | Consuming

  /** One thread between the parts of a call. */
  datatype Phase = Ready | EventDue(agent: string) | SetDue(agent: string) | ClearDue(agent: string)

  /** lastSlot, lastEvent: which kind of call wrote the agent's slot, and its event, last. */
  datatype State = State(board: Board, threads: seq<Phase>, lastSlot: map<string, Kind>, lastEvent: map<string, Kind>)

  datatype Action =
    | Put(w: nat, hint: Hint)
    | GetEvent(w: nat)
    | Set(w: nat)
    | Pop(w: nat, agent: string)
    | Clear(w: nat)
    | Await(w: nat, agent: string)       // resume_event

  predicate Enabled(s: State, a: Action) {
    && a.w < |s.threads|
    && match a
       case Put(w, _) => s.threads[w].Ready?
       case GetEvent(w) => s.threads[w].EventDue?
       case Set(w) => s.threads[w].SetDue?
       case Pop(w, _) => s.threads[w].Ready?
       case Clear(w) => s.threads[w].ClearDue?
       case Await(w, _) => s.threads[w].Ready?
  }

  function SetPhase(s: State, w: nat, p: Phase): State
    requires w < |s.threads|
  {
    s.(threads := s.threads[w := p])
  }

  function Apply(s: State, a: Action): State
    requires Enabled(s, a)
  {
    match a
    case Put(w, hint) =>
      SetPhase(s, w, EventDue(hint.agentId)).(board := PutSlot(s.board, hint),
                                            lastSlot := s.lastSlot[hint.agentId := Injecting])
    case GetEvent(w) => SetPhase(s, w, SetDue(s.threads[w].agent)).(board := AfterResume(s.board, s.threads[w].agent))
    case Set(w) =>
      SetPhase(s, w, Ready).(board := SetEvent(s.board, s.threads[w].agent),
                            lastEvent := s.lastEvent[s.threads[w].agent := Injecting])
    case Pop(w, agent) =>
      SetPhase(s, w, if agent in s.board.events then ClearDue(agent) else Ready)
        .(board := PopSlot(s.board, agent), lastSlot := s.lastSlot[agent := Consuming])
    case Clear(w) =>
      SetPhase(s, w, Ready).(board := ClearEvent(s.board, s.threads[w].agent),
                            lastEvent := s.lastEvent[s.threads[w].agent := Consuming])
    case Await(_, agent) => s.(board := AfterResume(s.board, agent))
  }

  ghost predicate Initial(s: State) {
    && s.board.slots == map[] && s.board.events == map[] && s.lastSlot == map[] && s.lastEvent == map[]
    && forall w :: 0 <= w < |s.threads| ==> s.threads[w].Ready?
  }

  ghost predicate IsRun(states: seq<State>, acts: seq<Action>) {
    && |states| == |acts| + 1
    && Initial(states[0])
    && forall i :: 0 <= i < |acts| ==> Enabled(states[i], acts[i]) && states[i + 1] == Apply(states[i], acts[i])
  }

  // ---------------------------------------------------------------- the exact condition

  predicate Busy(p: Phase, agent: string) {
    !p.Ready? && p.agent == agent
  }

  /** No call on the agent is in progress. */
  predicate AtRest(s: State, agent: string) {
    forall w :: 0 <= w < |s.threads| ==> !Busy(s.threads[w], agent)
  }

  predicate LastBy(last: map<string, Kind>, agent: string, k: Kind) {
    agent in last && last[agent] == k
  }

  /** Slot and event were last written by calls of one kind; untouched counts as consumed. */
  predicate SameKind(s: State, agent: string) {
    LastBy(s.lastSlot, agent, Injecting) == LastBy(s.lastEvent, agent, Injecting)
  }

  predicate Pending(s: State, agent: string) {
    agent in s.board.slots
  }

  ghost predicate Inv(s: State, agent: string) {
    && (Pending(s, agent) <==> LastBy(s.lastSlot, agent, Injecting))
    && (IsSet(s.board, agent) <==> LastBy(s.lastEvent, agent, Injecting))
    && forall w :: 0 <= w < |s.threads| && s.threads[w] == ClearDue(agent) ==> agent in s.board.events
  }

  lemma InvStep(s: State, a: Action, agent: string)
    requires Inv(s, agent) && Enabled(s, a)
    ensures Inv(Apply(s, a), agent)
  {
    assert a.Clear? ==> s.threads[a.w] == ClearDue(s.threads[a.w].agent);
  }

  lemma {:induction false} InvRun(states: seq<State>, acts: seq<Action>, i: nat, agent: string)
    requires IsRun(states, acts) && i < |states|
    ensures Inv(states[i], agent)
  {
    if i > 0 {
      InvRun(states, acts, i - 1, agent);
      InvStep(states[i - 1], acts[i - 1], agent);
    }
  }

  /**
   In every run, and so also at rest: the event is set exactly while a hint is pending, exactly
   when both were last written by one kind of call.
   */
  lemma EventTellsIff(states: seq<State>, acts: seq<Action>, i: nat, agent: string)
    requires IsRun(states, acts) && i < |states|
    ensures (IsSet(states[i].board, agent) <==> Pending(states[i], agent)) <==> SameKind(states[i], agent)
  {
    InvRun(states, acts, i, agent);
  }

  // ---------------------------------------------------------------- calls that do not overlap

  /** A call on the agent begins only when none is in progress. */
  predicate OneAtATime(s: State, a: Action, agent: string) {
    (a.Put? && a.hint.agentId == agent) || (a.Pop? && a.agent == agent) ==> AtRest(s, agent)
  }

  ghost predicate Alone(s: State, agent: string) {
    forall v, w :: 0 <= v < w < |s.threads| ==> !(Busy(s.threads[v], agent) && Busy(s.threads[w], agent))
  }

  /** What the one call in progress still has to write is what the slot already shows. */
  ghost predicate SerialInv(s: State, agent: string) {
    && Inv(s, agent) && Alone(s, agent)
    && (AtRest(s, agent) ==> SameKind(s, agent))
    && forall w :: 0 <= w < |s.threads| && Busy(s.threads[w], agent) ==>
         LastBy(s.lastSlot, agent, if s.threads[w].ClearDue? then Consuming else Injecting)
  }

  /** Coming to rest leaves slot and event written by one kind of call. */
  lemma RestStep(s: State, a: Action, agent: string)
    requires SerialInv(s, agent) && Enabled(s, a) && OneAtATime(s, a, agent) && AtRest(Apply(s, a), agent)
    ensures SameKind(Apply(s, a), agent)
  {
    var p := s.threads[a.w];
    assert !Busy(Apply(s, a).threads[a.w], agent);
    if !Busy(p, agent) {
      RestKept(s, a.w, Apply(s, a).threads[a.w], agent);
      if a.Pop? && a.agent == agent {
        assert !IsSet(s.board, agent);
      }
    } else if a.Set? {
      assert LastBy(s.lastSlot, agent, Injecting);
    } else {
      assert a.Clear? && LastBy(s.lastSlot, agent, Consuming);
    }
  }

  lemma AloneStep(s: State, a: Action, agent: string)
    requires Alone(s, agent) && Enabled(s, a) && OneAtATime(s, a, agent)
    ensures Alone(Apply(s, a), agent)
  {
  }

  lemma SerialStep(s: State, a: Action, agent: string)
    requires SerialInv(s, agent) && Enabled(s, a) && OneAtATime(s, a, agent)
    ensures SerialInv(Apply(s, a), agent)
  {
    InvStep(s, a, agent);
    AloneStep(s, a, agent);
    if AtRest(Apply(s, a), agent) {
      RestStep(s, a, agent);
    }
  }

  lemma RestKept(s: State, w: nat, p: Phase, agent: string)
    requires w < |s.threads| && !Busy(s.threads[w], agent) && !Busy(p, agent)
    ensures AtRest(SetPhase(s, w, p), agent) <==> AtRest(s, agent)
  {
    forall v | 0 <= v < |s.threads| ensures Busy(SetPhase(s, w, p).threads[v], agent) <==> Busy(s.threads[v], agent) {
    }
  }

  lemma {:induction false} SerialRun(states: seq<State>, acts: seq<Action>, i: nat, agent: string)
    requires IsRun(states, acts) && i < |states|
    requires forall j :: 0 <= j < i ==> OneAtATime(states[j], acts[j], agent)
    ensures SerialInv(states[i], agent)
  {
    if i > 0 {
      SerialRun(states, acts, i - 1, agent);
      SerialStep(states[i - 1], acts[i - 1], agent);
    }
  }

  /**
   Calls on one agent that do not overlap keep the event right whenever none is in progress,
   whatever other agents' calls do.
   */
  lemma SerialEventTells(states: seq<State>, acts: seq<Action>, i: nat, agent: string)
    requires IsRun(states, acts) && i < |states| && AtRest(states[i], agent)
    requires forall j :: 0 <= j < i ==> OneAtATime(states[j], acts[j], agent)
    ensures IsSet(states[i].board, agent) <==> Pending(states[i], agent)
  {
    SerialRun(states, acts, i, agent);
  }

  // ---------------------------------------------------------------- calls that do

  predicate SlotWrite(a: Action, agent: string) {
    (a.Put? && a.hint.agentId == agent) || (a.Pop? && a.agent == agent)
  }

  predicate EventWrite(s: State, a: Action, agent: string) {
    && a.w < |s.threads|
    && ((a.Set? && s.threads[a.w] == SetDue(agent)) || (a.Clear? && s.threads[a.w] == ClearDue(agent)))
  }

  function KindOf(a: Action): Kind {
    if a.Put? || a.Set? then Injecting else Consuming
  }

  /** The last write of the agent's slot before state n. */
  ghost predicate LastSlotWrite(acts: seq<Action>, p: nat, n: nat, agent: string)
    requires n <= |acts|
  {
    p < n && SlotWrite(acts[p], agent) && forall j :: p < j < n ==> !SlotWrite(acts[j], agent)
  }

  ghost predicate LastEventWrite(states: seq<State>, acts: seq<Action>, q: nat, n: nat, agent: string)
    requires n <= |acts| < |states|
  {
    && q < n && EventWrite(states[q], acts[q], agent)
    && forall j :: q < j < n ==> !EventWrite(states[j], acts[j], agent)
  }

  /** The call by which thread w has been busy with the agent up to state i wrote the slot at r. */
  ghost predicate CallBegan(states: seq<State>, acts: seq<Action>, r: nat, i: nat, w: nat, agent: string)
    requires i <= |acts| < |states|
  {
    && r < i && SlotWrite(acts[r], agent) && acts[r].w == w
    && forall j :: r < j <= i ==> w < |states[j].threads| && Busy(states[j].threads[w], agent)
  }

  lemma {:induction false} SlotKind(states: seq<State>, acts: seq<Action>, p: nat, n: nat, agent: string)
    requires IsRun(states, acts) && n <= |acts| && LastSlotWrite(acts, p, n, agent)
    ensures LastBy(states[n].lastSlot, agent, KindOf(acts[p]))
    decreases n
  {
    if p + 1 < n {
      assert !SlotWrite(acts[n - 1], agent);
      SlotKind(states, acts, p, n - 1, agent);
    }
  }

  lemma {:induction false} EventKind(states: seq<State>, acts: seq<Action>, q: nat, n: nat, agent: string)
    requires IsRun(states, acts) && n <= |acts| && LastEventWrite(states, acts, q, n, agent)
    ensures LastBy(states[n].lastEvent, agent, KindOf(acts[q]))
    decreases n
  {
    if q + 1 < n {
      assert !EventWrite(states[n - 1], acts[n - 1], agent);
      EventKind(states, acts, q, n - 1, agent);
    }
  }

  lemma {:induction false} SlotWriteBefore(acts: seq<Action>, j: nat, n: nat, agent: string) returns (p: nat)
    requires j < n <= |acts| && SlotWrite(acts[j], agent)
    ensures j <= p && LastSlotWrite(acts, p, n, agent)
    decreases n
  {
    if SlotWrite(acts[n - 1], agent) {
      p := n - 1;
    } else {
      p := SlotWriteBefore(acts, j, n - 1, agent);
    }
  }

  lemma {:induction false} EventWriteBefore(states: seq<State>, acts: seq<Action>, j: nat, n: nat, agent: string)
    returns (q: nat)
    requires j < n <= |acts| < |states| && EventWrite(states[j], acts[j], agent)
    ensures j <= q && LastEventWrite(states, acts, q, n, agent)
    decreases n
  {
    if EventWrite(states[n - 1], acts[n - 1], agent) {
      q := n - 1;
    } else {
      q := EventWriteBefore(states, acts, j, n - 1, agent);
    }
  }

  /** What the history maps say was written was written. */
  lemma {:induction false} SomeSlotWrite(states: seq<State>, acts: seq<Action>, n: nat, agent: string) returns (p: nat)
    requires IsRun(states, acts) && n <= |acts| && agent in states[n].lastSlot
    ensures LastSlotWrite(acts, p, n, agent)
    decreases n
  {
    if SlotWrite(acts[n - 1], agent) {
      p := n - 1;
    } else {
      p := SomeSlotWrite(states, acts, n - 1, agent);
    }
  }

  lemma {:induction false} SomeEventWrite(states: seq<State>, acts: seq<Action>, n: nat, agent: string) returns (q: nat)
    requires IsRun(states, acts) && n <= |acts| && agent in states[n].lastEvent
    ensures LastEventWrite(states, acts, q, n, agent)
    decreases n
  {
    if EventWrite(states[n - 1], acts[n - 1], agent) {
      q := n - 1;
    } else {
      q := SomeEventWrite(states, acts, n - 1, agent);
    }
  }

  /** A thread busy with an agent is in a call that has written the slot. */
  lemma {:induction false} BeganBefore(states: seq<State>, acts: seq<Action>, i: nat, w: nat, agent: string)
    returns (r: nat)
    requires IsRun(states, acts) && i <= |acts| && w < |states[i].threads| && Busy(states[i].threads[w], agent)
    ensures CallBegan(states, acts, r, i, w, agent)
    ensures acts[r].Pop? <==> states[i].threads[w].ClearDue?
    decreases i
  {
    if acts[i - 1].w == w && SlotWrite(acts[i - 1], agent) {
      r := i - 1;
    } else {
      r := BeganBefore(states, acts, i - 1, w, agent);
    }
  }

  /** A call that has ended has written the event. */
  lemma {:induction false} EndsWithWrite(states: seq<State>, acts: seq<Action>, i: nat, n: nat, w: nat, agent: string)
    returns (q: nat)
    requires IsRun(states, acts) && i <= n <= |acts| && w < |states[i].threads| && Busy(states[i].threads[w], agent)
    requires AtRest(states[n], agent) && |states[n].threads| == |states[i].threads|
    ensures i <= q < n && EventWrite(states[q], acts[q], agent)
    decreases n - i
  {
    assert i < n;
    if EventWrite(states[i], acts[i], agent) {
      q := i;
    } else {
      q := EndsWithWrite(states, acts, i + 1, n, w, agent);
    }
  }

  lemma {:induction false} ThreadsKept(states: seq<State>, acts: seq<Action>, i: nat)
    requires IsRun(states, acts) && i < |states|
    ensures |states[i].threads| == |states[0].threads|
  {
    if i > 0 {
      ThreadsKept(states, acts, i - 1);
    }
  }

  /**
   The last call to write the slot, at p, lies inside a call of the other kind, from r to q, the
   last to write the event.
   */
  ghost predicate Enclosed(states: seq<State>, acts: seq<Action>, r: nat, p: nat, q: nat, n: nat, agent: string)
    requires n <= |acts| < |states|
  {
    && r < p < q < n
    && LastSlotWrite(acts, p, n, agent) && LastEventWrite(states, acts, q, n, agent)
    && CallBegan(states, acts, r, q, acts[q].w, agent)
    && KindOf(acts[p]) != KindOf(acts[q])
  }

  /** An inject last in the slot and no inject last in the event: it ran inside a consume. */
  lemma InjectEnclosed(states: seq<State>, acts: seq<Action>, p: nat, n: nat, agent: string) returns (r: nat, q: nat)
    requires IsRun(states, acts) && n <= |acts| && AtRest(states[n], agent)
    requires LastSlotWrite(acts, p, n, agent) && acts[p].Put? && !LastBy(states[n].lastEvent, agent, Injecting)
    ensures Enclosed(states, acts, r, p, q, n, agent)
  {
    ThreadsKept(states, acts, p + 1);
    ThreadsKept(states, acts, n);
    var e := EndsWithWrite(states, acts, p + 1, n, acts[p].w, agent);
    q := EventWriteBefore(states, acts, e, n, agent);
    EventKind(states, acts, q, n, agent);
    r := BeganBefore(states, acts, q, acts[q].w, agent);
  }

  /** An inject last in the event and no inject last in the slot: a consume ran inside it. */
  lemma ConsumeEnclosed(states: seq<State>, acts: seq<Action>, q: nat, n: nat, agent: string) returns (r: nat, p: nat)
    requires IsRun(states, acts) && n <= |acts| && AtRest(states[n], agent)
    requires LastEventWrite(states, acts, q, n, agent) && acts[q].Set? && !LastBy(states[n].lastSlot, agent, Injecting)
    ensures Enclosed(states, acts, r, p, q, n, agent)
  {
    r := BeganBefore(states, acts, q, acts[q].w, agent);
    p := SlotWriteBefore(acts, r, n, agent);
    SlotKind(states, acts, p, n, agent);
    if p > q {
      PopAfterSet(states, acts, q, p, n, agent);
    }
  }

  /** A pop that finds the event set is followed by a clear. */
  lemma PopAfterSet(states: seq<State>, acts: seq<Action>, q: nat, p: nat, n: nat, agent: string)
    requires IsRun(states, acts) && q < p < n <= |acts| && AtRest(states[n], agent)
    requires EventWrite(states[q], acts[q], agent) && acts[q].Set? && SlotWrite(acts[p], agent) && acts[p].Pop?
    ensures !LastEventWrite(states, acts, q, n, agent)
  {
    if LastEventWrite(states, acts, q, n, agent) {
      EventKind(states, acts, q, p, agent);
      InvRun(states, acts, p, agent);
      ThreadsKept(states, acts, p + 1);
      ThreadsKept(states, acts, n);
      var e := EndsWithWrite(states, acts, p + 1, n, acts[p].w, agent);
    }
  }

  /**
   With no call on the agent in progress, slot and event disagree exactly when the last call to
   write the slot ran inside one of the other kind, which then wrote the event last.
   */
  lemma DisagreeIffEnclosed(states: seq<State>, acts: seq<Action>, n: nat, agent: string)
    requires IsRun(states, acts) && n <= |acts| && AtRest(states[n], agent)
    ensures (IsSet(states[n].board, agent) != Pending(states[n], agent)) <==>
            exists r: nat, p: nat, q: nat :: Enclosed(states, acts, r, p, q, n, agent)
  {
    EventTellsIff(states, acts, n, agent);
    if !SameKind(states[n], agent) {
      if LastBy(states[n].lastSlot, agent, Injecting) {
        var p := SomeSlotWrite(states, acts, n, agent);
        SlotKind(states, acts, p, n, agent);
        var r, q := InjectEnclosed(states, acts, p, n, agent);
      } else {
        var q := SomeEventWrite(states, acts, n, agent);
        EventKind(states, acts, q, n, agent);
        var r, p := ConsumeEnclosed(states, acts, q, n, agent);
      }
    }
    if r: nat, p: nat, q: nat :| Enclosed(states, acts, r, p, q, n, agent) {
      SlotKind(states, acts, p, n, agent);
      EventKind(states, acts, q, n, agent);
    }
  }

  // ---------------------------------------------------------------- two overlapping calls, from any state

  ghost predicate Executes(s: State, acts: seq<Action>, s': State)
    decreases |acts|
  {
    if acts == [] then s == s' else Enabled(s, acts[0]) && Executes(Apply(s, acts[0]), acts[1..], s')
  }

  lemma {:induction false} ExecutesSnoc(s: State, acts: seq<Action>, m: State, a: Action)
    requires Executes(s, acts, m) && Enabled(m, a)
    ensures Executes(s, acts + [a], Apply(m, a))
    decreases |acts|
  {
    if acts == [] {
      assert acts + [a] == [a] && [a][1..] == [];
    } else {
      assert (acts + [a])[1..] == acts[1..] + [a];
      ExecutesSnoc(Apply(s, acts[0]), acts[1..], m, a);
    }
  }

  /** A whole inject by thread w, from any state. */
  lemma Injects(s: State, acts: seq<Action>, m: State, w: nat, hint: Hint) returns (s': State)
    requires Executes(s, acts, m) && w < |m.threads| && m.threads[w].Ready?
    ensures Executes(s, acts + [Put(w, hint)] + [GetEvent(w)] + [Set(w)], s')
    ensures s'.threads == m.threads && Pending(s', hint.agentId) && IsSet(s'.board, hint.agentId)
    ensures m.board.events.Keys <= s'.board.events.Keys
  {
    var m1 := Apply(m, Put(w, hint));
    var m2 := Apply(m1, GetEvent(w));
    s' := Apply(m2, Set(w));
    ExecutesSnoc(s, acts, m, Put(w, hint));
    ExecutesSnoc(s, acts + [Put(w, hint)], m1, GetEvent(w));
    ExecutesSnoc(s, acts + [Put(w, hint)] + [GetEvent(w)], m2, Set(w));
  }

  /** An inject between the two halves of a consume that found an event: the hint is pending, nobody is woken. */
  lemma ThreadedWakeupLost(s: State, hint: Hint) returns (s': State)
    requires s.threads == [Ready, Ready] && hint.agentId in s.board.events
    ensures Executes(s, [] + [Pop(0, hint.agentId)] + [Put(1, hint)] + [GetEvent(1)] + [Set(1)] + [Clear(0)], s')
    ensures s'.threads == [Ready, Ready] && Pending(s', hint.agentId) && !IsSet(s'.board, hint.agentId)
  {
    var a := hint.agentId;
    var m := Apply(s, Pop(0, a));
    ExecutesSnoc(s, [], s, Pop(0, a));
    var n := Injects(s, [] + [Pop(0, a)], m, 1, hint);
    s' := Apply(n, Clear(0));
    ExecutesSnoc(s, [] + [Pop(0, a)] + [Put(1, hint)] + [GetEvent(1)] + [Set(1)], n, Clear(0));
  }

  /** A whole consume between the halves of an inject: the event is set, nothing is pending. */
  lemma ThreadedWakeupEmpty(s: State, hint: Hint) returns (s': State)
    requires s.threads == [Ready, Ready] && hint.agentId in s.board.events
    ensures Executes(s, [] + [Put(0, hint)] + [Pop(1, hint.agentId)] + [Clear(1)] + [GetEvent(0)] + [Set(0)], s')
    ensures s'.threads == [Ready, Ready] && !Pending(s', hint.agentId) && IsSet(s'.board, hint.agentId)
  {
    var a := hint.agentId;
    var m1 := Apply(s, Put(0, hint));
    var m2 := Apply(m1, Pop(1, a));
    var m3 := Apply(m2, Clear(1));
    var m4 := Apply(m3, GetEvent(0));
    s' := Apply(m4, Set(0));
    ExecutesSnoc(s, [], s, Put(0, hint));
    ExecutesSnoc(s, [] + [Put(0, hint)], m1, Pop(1, a));
    ExecutesSnoc(s, [] + [Put(0, hint)] + [Pop(1, a)], m2, Clear(1));
    ExecutesSnoc(s, [] + [Put(0, hint)] + [Pop(1, a)] + [Clear(1)], m3, GetEvent(0));
    ExecutesSnoc(s, [] + [Put(0, hint)] + [Pop(1, a)] + [Clear(1)] + [GetEvent(0)], m4, Set(0));
  }

  // ---------------------------------------------------------------- whole calls

  /** The parts of an inject with nothing in between are the inject of the sequential model, the limiter aside. */
  lemma InjectIsSerialRun(s: State, w: nat, i: Injection) returns (s': State)
    requires w < |s.threads| && s.threads[w].Ready? && OutcomeOf(s.board, i).Injected?
    ensures var a := i.hint.agentId;
            var checked := s.(board := AfterCheck(s.board, a, i.rate, i.window, i.now));
            Executes(checked, [] + [Put(w, i.hint)] + [GetEvent(w)] + [Set(w)], s')
    ensures s'.board == AfterInject(s.board, i)
  {
    var a := i.hint.agentId;
    var checked := s.(board := AfterCheck(s.board, a, i.rate, i.window, i.now));
    var m1 := Apply(checked, Put(w, i.hint));
    var m2 := Apply(m1, GetEvent(w));
    s' := Apply(m2, Set(w));
    ExecutesSnoc(checked, [], checked, Put(w, i.hint));
    ExecutesSnoc(checked, [] + [Put(w, i.hint)], m1, GetEvent(w));
    ExecutesSnoc(checked, [] + [Put(w, i.hint)] + [GetEvent(w)], m2, Set(w));
    SplitInject(s.board, i);
  }

  lemma ConsumeIsSerialRun(s: State, w: nat, agent: string) returns (acts: seq<Action>, s': State)
    requires w < |s.threads| && s.threads[w].Ready?
    ensures Executes(s, acts, s') && s'.threads == s.threads && s'.board == AfterConsume(s.board, agent)
  {
    var m := Apply(s, Pop(w, agent));
    acts, s' := [] + [Pop(w, agent)], m;
    ExecutesSnoc(s, [], s, Pop(w, agent));
    SplitConsume(s.board, agent);
    if agent in s.board.events {
      ExecutesSnoc(s, acts, m, Clear(w));
      acts, s' := acts + [Clear(w)], Apply(m, Clear(w));
    }
  }
}
