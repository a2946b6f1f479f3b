/** The last-known-good budget of backend/adaptive_budget.py. */
module BudgetPersistence {
  import opened Wrappers
  import opened AdaptiveBudget

  // One persister is interleaved with ticks, and with restarts that prime the controller from the
  // stored row.

  /**
   inFlight: the budget a write in progress carries.  row: the stored singleton.
   changed: the budget has changed since boot.  lost: the latest finished write failed.
   taken: the budget that the latest write since boot carried, finished or not.
   heldBefore: the row when that write began.
   */
  datatype State = State(
    s: Control, inFlight: Option<int>, row: Option<int>, changed: bool, lost: bool,
    taken: Option<int>, heldBefore: Option<int>)

  datatype Action =
    | TickAt(x: Sample)
    | TakeSnapshot                          // read and clear the dirty flag under the lock
    | WriteLands
    | WriteFails
    | Restart(landed: bool, read: bool, t: real)   // a write in progress may have landed; the load may fail

  /** load_last_known_good, then reset; without a loaded row the cold-start budget stays. */
  function Primed(k: Knobs, loaded: Option<int>, t: real): Control {
    Reset(k, if loaded.Some? then Some(Clamp(k, loaded.value)) else None, t)
  }

  function Boot(k: Knobs, row: Option<int>, read: bool, t: real): State {
    State(Primed(k, if read then row else None, t), None, row, false, false, None, row)
  }

  predicate Enabled(m: State, a: Action) {
    match a
    case TakeSnapshot => m.inFlight.None? && m.s.dirty
    case WriteLands => m.inFlight.Some?
    case WriteFails => m.inFlight.Some?
    case _ => true
  }

  function Apply(k: Knobs, m: State, a: Action): State
    requires Enabled(m, a)
  {
    match a
    case TickAt(x) =>
      var s' := Tick(k, m.s, x);
      m.(s := s', changed := m.changed || s'.budget != m.s.budget)
    case TakeSnapshot =>
      m.(inFlight := Some(m.s.budget), taken := Some(m.s.budget), heldBefore := m.row, s := m.s.(dirty := false))
    case WriteLands => m.(row := m.inFlight, inFlight := None, lost := false)
    case WriteFails => m.(inFlight := None, lost := true)
    case Restart(landed, read, t) => Boot(k, if landed && m.inFlight.Some? then m.inFlight else m.row, read, t)
  }

  ghost predicate IsRun(k: Knobs, states: seq<State>, acts: seq<Action>) {
    && |states| == |acts| + 1
    && (exists row, read, t :: states[0] == Boot(k, row, read, t))
    && forall i :: 0 <= i < |acts| ==> Enabled(states[i], acts[i]) && states[i + 1] == Apply(k, states[i], acts[i])
  }

  /** Somewhere between memory and disk the current budget is on its way, or a write was lost. */
  ghost predicate Inv(k: Knobs, m: State) {
    && k.floor <= m.s.budget <= k.capacityMax
    && (m.changed && !m.s.dirty ==> m.taken == Some(m.s.budget))
    && (m.inFlight.Some? ==> m.inFlight == m.taken)
    && (m.taken.Some? && m.inFlight.None? ==> m.row == if m.lost then m.heldBefore else m.taken)
    && (m.inFlight.Some? ==> m.row == m.heldBefore)
  }

  lemma InvStep(k: Knobs, m: State, a: Action)
    requires ValidKnobs(k) && Inv(k, m) && Enabled(m, a)
    ensures Inv(k, Apply(k, m, a))
  {
  }

  lemma {:induction false} InvRun(k: Knobs, states: seq<State>, acts: seq<Action>, i: nat)
    requires ValidKnobs(k) && IsRun(k, states, acts) && i < |states|
    ensures Inv(k, states[i])
  {
    if i > 0 {
      InvRun(k, states, acts, i - 1);
      InvStep(k, states[i - 1], acts[i - 1]);
    }
  }

  /**
   After the first change since boot, with the flag clear, no write in progress and the latest
   write not failed, the stored row is the live budget, and a restart resumes it exactly.
   */
  lemma CleanMeansStored(k: Knobs, states: seq<State>, acts: seq<Action>, i: nat, t: real)
    requires ValidKnobs(k) && IsRun(k, states, acts) && i < |states|
    requires states[i].changed && !states[i].s.dirty && states[i].inFlight.None? && !states[i].lost
    ensures states[i].row == Some(states[i].s.budget)
    ensures Apply(k, states[i], Restart(false, true, t)).s.budget == states[i].s.budget
  {
    InvRun(k, states, acts, i);
  }

  /**
   Failures included: in such a state the stored row is the live budget exactly when the latest
   write landed, or failed over a row that already held what it carried.
   */
  lemma CleanStoredIff(k: Knobs, states: seq<State>, acts: seq<Action>, i: nat)
    requires ValidKnobs(k) && IsRun(k, states, acts) && i < |states|
    requires states[i].changed && !states[i].s.dirty && states[i].inFlight.None?
    ensures states[i].row == Some(states[i].s.budget) <==> !states[i].lost || states[i].heldBefore == states[i].taken
  {
    InvRun(k, states, acts, i);
  }

  /** A failed write is not retried: the flag stays clear over a row that never got the change. */
  lemma FailedWriteIsForgotten(k: Knobs)
    requires ValidKnobs(k) && Clamp(k, k.initBudget) < k.capacityMax
    ensures exists states: seq<State>, acts: seq<Action>, i: nat ::
              && IsRun(k, states, acts) && i < |states|
              && states[i].changed && !states[i].s.dirty && states[i].inFlight.None?
              && states[i].row != Some(states[i].s.budget)
  {
    var calm := (if k.cpuAi <= k.cpuMd then k.cpuAi else k.cpuMd) - 1.0;
    var mild := (if k.memAi <= k.memMd then k.memAi else k.memMd) - 1.0;
    var acts := [Action.TickAt(Sample(k.aiInterval, calm, mild, 0)), TakeSnapshot, WriteFails];
    var s0 := Boot(k, None, true, 0.0);
    var s1 := Apply(k, s0, acts[0]);
    var s2 := Apply(k, s1, acts[1]);
    var s3 := Apply(k, s2, acts[2]);
    var states := [s0, s1, s2, s3];
    assert IsRun(k, states, acts);
    assert states[3].row == None;
  }
}
