/** How many failures a quarter of an hour can record with k login attempts in flight, backend/auth.py. */
module LoginWindow {
  import opened Wrappers
  import opened Counting
  import opened Arithmetic
  import opened LoginLockout

  // A lock written in the window outlasts it, but an attempt that read an older lock clears the
  // newer one with it.  Each slot can do so once: what it reads afterwards is no lock or a new one.

  /** Every reading of the clock is the time of its step, and time does not run backwards. */
  ghost predicate Clocked(acts: seq<Action>, times: seq<real>) {
    && |times| == |acts|
    && (forall i :: 0 <= i < |acts| ==> OnTime(acts[i], times[i]))
    && (forall i, j :: 0 <= i < j < |times| ==> times[i] <= times[j])
  }

  predicate OnTime(a: Action, t: real) {
    (a.CheckLock? ==> a.now == t) && (a.WriteLock? ==> a.now == t)
  }

  /** Nobody logs in and the user is not erased. */
  predicate NoClearing(a: Action) {
    !a.Succeed? && !a.EraseUser?
  }

  ghost predicate Quiet(acts: seq<Action>, times: seq<real>, w: real)
    requires |times| == |acts|
  {
    forall i :: 0 <= i < |acts| && InWindow(times[i], w) ==> NoClearing(acts[i])
  }

  /** Failures recorded in the window. */
  function FailuresIn(acts: seq<Action>, times: seq<real>, w: real): nat
    requires |times| == |acts|
  {
    if acts == [] then 0
    else (if acts[0].Increment? && InWindow(times[0], w) then 1 else 0) + FailuresIn(acts[1..], times[1..], w)
  }

  /** One phase for each slot, after whose reset the count goes up to threshold - 1 + the slots that have reset. */
  function Phases(k: nat, stale: int): int
    decreases stale
  {
    if stale <= 0 then 0 else LOCKOUT_THRESHOLD + k - stale + Phases(k, stale - 1)
  }

  function MaxFailures(k: nat): int {
    k * (LOCKOUT_THRESHOLD - 1) + k * (k + 1) / 2 + Min(k - 1, LOCKOUT_THRESHOLD - 1)
  }

  lemma {:induction false} PhasesSum(k: nat, stale: nat)
    requires stale <= k
    ensures 2 * Phases(k, stale) == 2 * stale * (LOCKOUT_THRESHOLD - 1) + stale * (2 * k - stale + 1)
  {
    if stale > 0 {
      PhasesSum(k, stale - 1);
      calc {
        2 * Phases(k, stale);
        2 * (LOCKOUT_THRESHOLD + k - stale) + 2 * Phases(k, stale - 1);
        2 * (LOCKOUT_THRESHOLD + k - stale) + 2 * (stale - 1) * (LOCKOUT_THRESHOLD - 1)
        + (stale - 1) * (2 * k - stale + 2);
        2 * stale * (LOCKOUT_THRESHOLD - 1) + stale * (2 * k - stale + 1);
      }
    }
  }

  /** Every further stale slot is worth at least a threshold of failures. */
  lemma {:induction false} PhasesGrow(k: nat, m: nat, n: nat)
    requires m <= n <= k
    ensures Phases(k, m) + LOCKOUT_THRESHOLD * (n - m) <= Phases(k, n)
    decreases n - m
  {
    if m < n {
      PhasesGrow(k, m, n - 1);
    }
  }

  // ---------------------------------------------------------------- what a state can still record

  /** Will clear the row, or has read a lock that can expire in the window. */
  predicate StaleAt(a: Attempt, w: real) {
    a.ResetDue? || (a.Verifying? && a.seenLock.Some? && a.seenLock.value < w + LOCKOUT_BASE_S as real)
  }

  /** Will record a failure with no further look at the row. */
  predicate WillFail(a: Attempt) {
    a.FailureDue? || (a.Verifying? && a.seenLock.None? && !a.passwordOk)
  }

  /** Has recorded one, or can only go on by a success. */
  predicate Stuck(a: Attempt) {
    a.LockDue? || a.SuccessDue? || (a.Verifying? && a.seenLock.None? && a.passwordOk)
  }

  function StaleIn(w: real): Attempt -> bool {
    a => StaleAt(a, w)
  }

  function Stale(s: State, w: real): nat { CountIf(s.slots, StaleIn(w)) }

  function Failing(s: State): nat { CountIf(s.slots, WillFail) }

  function StuckCount(s: State): nat { CountIf(s.slots, Stuck) }

  /** Failing attempts that can become idle again without reaching the threshold. */
  function Short(s: State): int {
    Min(Failing(s), Max(0, LOCKOUT_THRESHOLD - 1 - s.user.failedLoginCount))
  }

  /** The row carries a lock that an attempt can read and find expired in the window. */
  predicate Expirable(s: State, w: real) {
    s.user.lockedUntil.Some? && s.user.lockedUntil.value < w + LOCKOUT_BASE_S as real
  }

  function StaleLater(k: nat, s: State): int {
    k - StuckCount(s) - Failing(s) + Short(s)
  }

  /** An upper bound on the failures recorded from s to the end of the window. */
  function Potential(k: nat, s: State, w: real): int {
    if s.user.lockedUntil.None? then
      (if Stale(s, w) >= k then 0 else LOCKOUT_THRESHOLD - 1 + k - Stale(s, w) - s.user.failedLoginCount)
      + Phases(k, Stale(s, w))
    else if Expirable(s, w) then Failing(s) + Phases(k, StaleLater(k, s))
    else Failing(s) + Phases(k, Stale(s, w))
  }

  /** A locked row leaves a slot that is not about to fail: the one that wrote the lock. */
  ghost predicate WindowInv(k: nat, s: State) {
    && Inv(k, s)
    && (s.user.lockedUntil.Some? ==> ArmedCount(s) <= k - 1)
  }

  lemma {:induction false} CountThree<T>(s: seq<T>, p: T -> bool, q: T -> bool, r: T -> bool)
    requires forall x :: x in s ==> !(p(x) && q(x)) && !(p(x) && r(x)) && !(q(x) && r(x))
    ensures CountIf(s, p) + CountIf(s, q) + CountIf(s, r) <= |s|
  {
    if s != [] {
      CountThree(s[1..], p, q, r);
    }
  }

  lemma {:induction false} CountWeaker<T>(s: seq<T>, p: T -> bool, q: T -> bool)
    requires forall x :: x in s && p(x) ==> q(x)
    ensures CountIf(s, p) <= CountIf(s, q)
  {
    if s != [] {
      CountWeaker(s[1..], p, q);
    }
  }

  lemma Shares(k: nat, s: State, w: real)
    requires |s.slots| == k
    ensures Stale(s, w) + Failing(s) + StuckCount(s) <= k
    ensures Failing(s) <= ArmedCount(s) && LockDueCount(s) <= StuckCount(s)
  {
    CountThree(s.slots, StaleIn(w), WillFail, Stuck);
    CountWeaker(s.slots, WillFail, Armed);
    CountWeaker(s.slots, AboutToLock, Stuck);
  }

  lemma WindowInvStep(k: nat, s: State, a: Action)
    requires WindowInv(k, s) && Enabled(s, a)
    ensures WindowInv(k, Apply(s, a))
  {
    var s' := Apply(s, a);
    InvStep(k, s, a);
    if SlotAction(a) {
      assert s'.slots == s.slots[a.slot := s'.slots[a.slot]];
      CountUpdate(s.slots, a.slot, s'.slots[a.slot], Armed);
      CountUpdate(s.slots, a.slot, s'.slots[a.slot], AboutToLock);
      CountDisjoint(s.slots, Armed, AboutToLock);
    }
  }

  lemma {:induction false} WindowInvRun(k: nat, states: seq<State>, acts: seq<Action>, i: nat)
    requires IsRun(k, states, acts) && i < |states|
    ensures WindowInv(k, states[i])
  {
    if i == 0 {
      InvInitial(k, states[0].user.enabled);
    } else {
      WindowInvRun(k, states, acts, i - 1);
      WindowInvStep(k, states[i - 1], acts[i - 1]);
    }
  }

  /** The bound holds wherever the window begins. */
  lemma PotentialBounded(k: nat, s: State, w: real)
    requires k >= 1 && WindowInv(k, s)
    ensures Potential(k, s, w) <= MaxFailures(k)
  {
    Shares(k, s, w);
    PhasesSum(k, k);
    var st := Stale(s, w);
    if s.user.lockedUntil.None? {
      if st < k {
        PhasesGrow(k, st + 1, k);
      }
    } else if Expirable(s, w) {
      PhasesGrow(k, StaleLater(k, s), k);
    } else {
      PhasesGrow(k, st, k);
    }
  }

  // ---------------------------------------------------------------- every step in the window

  /** What a slot action does to the three counts. */
  lemma Recount(s: State, a: Action, w: real)
    requires Enabled(s, a) && SlotAction(a)
    ensures var x, y := s.slots[a.slot], Apply(s, a).slots[a.slot];
            && Stale(Apply(s, a), w) + (if StaleAt(x, w) then 1 else 0)
               == Stale(s, w) + (if StaleAt(y, w) then 1 else 0)
            && Failing(Apply(s, a)) + (if WillFail(x) then 1 else 0) == Failing(s) + (if WillFail(y) then 1 else 0)
            && StuckCount(Apply(s, a)) + (if Stuck(x) then 1 else 0) == StuckCount(s) + (if Stuck(y) then 1 else 0)
  {
    var y := Apply(s, a).slots[a.slot];
    assert Apply(s, a).slots == s.slots[a.slot := y];
    CountUpdate(s.slots, a.slot, y, StaleIn(w));
    CountUpdate(s.slots, a.slot, y, WillFail);
    CountUpdate(s.slots, a.slot, y, Stuck);
  }

  ghost predicate Drops(k: nat, s: State, a: Action, w: real)
    requires Enabled(s, a)
  {
    Potential(k, Apply(s, a), w) + (if a.Increment? then 1 else 0) <= Potential(k, s, w)
  }

  lemma ResetDrops(k: nat, s: State, a: Action, w: real)
    requires WindowInv(k, s) && Enabled(s, a) && a.ResetExpired?
    ensures Drops(k, s, a, w)
  {
    Recount(s, a, w);
    Shares(k, s, w);
    if Expirable(s, w) {
      PhasesGrow(k, Stale(s, w), StaleLater(k, s));
    }
  }

  lemma IncrementDrops(k: nat, s: State, a: Action, w: real)
    requires WindowInv(k, s) && Enabled(s, a) && a.Increment?
    ensures Drops(k, s, a, w)
  {
    Recount(s, a, w);
    Shares(k, s, w);
  }

  lemma LockDrops(k: nat, s: State, a: Action, w: real)
    requires WindowInv(k, s) && Enabled(s, a) && a.WriteLock? && InWindow(a.now, w)
    ensures Drops(k, s, a, w)
  {
    Recount(s, a, w);
    Shares(k, s, w);
    if Expirable(s, w) {
      PhasesGrow(k, Stale(s, w), StaleLater(k, s));
    }
  }

  lemma CheckDrops(k: nat, s: State, a: Action, w: real)
    requires WindowInv(k, s) && Enabled(s, a) && a.CheckLock? && InWindow(a.now, w)
    ensures Drops(k, s, a, w)
  {
    Recount(s, a, w);
    Shares(k, s, w);
  }

  lemma ReadDrops(k: nat, s: State, a: Action, w: real)
    requires WindowInv(k, s) && Enabled(s, a) && (a.ReadRow? || a.Begin?)
    ensures Drops(k, s, a, w)
  {
    Recount(s, a, w);
    Shares(k, s, w);
    Shares(k, Apply(s, a), w);
  }

  lemma StepDrops(k: nat, s: State, a: Action, t: real, w: real)
    requires WindowInv(k, s) && Enabled(s, a) && InWindow(t, w) && OnTime(a, t) && NoClearing(a)
    ensures Drops(k, s, a, w)
  {
    match a
    case Begin(_) => ReadDrops(k, s, a, w);
    case ReadRow(_, _) => ReadDrops(k, s, a, w);
    case CheckLock(_, _) => CheckDrops(k, s, a, w);
    case ResetExpired(_) => ResetDrops(k, s, a, w);
    case Increment(_) => IncrementDrops(k, s, a, w);
    case WriteLock(_, _) => LockDrops(k, s, a, w);
    case SetEnabled(_) =>
  }

  // ---------------------------------------------------------------- the bound

  lemma PotentialNotNegative(k: nat, s: State, w: real)
    requires WindowInv(k, s)
    ensures Potential(k, s, w) >= 0
  {
    Shares(k, s, w);
    PhasesGrow(k, 0, Stale(s, w));
    if Expirable(s, w) {
      PhasesGrow(k, 0, StaleLater(k, s));
    }
  }

  lemma {:induction false} NoneAfterWindow(acts: seq<Action>, times: seq<real>, w: real)
    requires |times| == |acts| && forall i :: 0 <= i < |times| ==> times[i] >= w + LOCKOUT_BASE_S as real
    ensures FailuresIn(acts, times, w) == 0
  {
    if acts != [] {
      NoneAfterWindow(acts[1..], times[1..], w);
    }
  }

  lemma FailuresHead(acts: seq<Action>, times: seq<real>, w: real, i: nat)
    requires i < |acts| == |times|
    ensures FailuresIn(acts[i..], times[i..], w)
         == (if acts[i].Increment? && InWindow(times[i], w) then 1 else 0)
            + FailuresIn(acts[i + 1..], times[i + 1..], w)
  {
    assert acts[i..][1..] == acts[i + 1..] && times[i..][1..] == times[i + 1..];
  }

  lemma {:induction false} InsideWindow(k: nat, states: seq<State>, acts: seq<Action>, times: seq<real>,
                                      w: real, i: nat)
    requires IsRun(k, states, acts) && Clocked(acts, times) && Quiet(acts, times, w)
    requires i <= |acts| && (i < |acts| ==> times[i] >= w)
    ensures FailuresIn(acts[i..], times[i..], w) <= Potential(k, states[i], w)
    decreases |acts| - i
  {
    WindowInvRun(k, states, acts, i);
    PotentialNotNegative(k, states[i], w);
    if i < |acts| {
      if InWindow(times[i], w) {
        FailuresHead(acts, times, w, i);
        StepDrops(k, states[i], acts[i], times[i], w);
        InsideWindow(k, states, acts, times, w, i + 1);
      } else {
        NoneAfterWindow(acts[i..], times[i..], w);
      }
    }
  }

  lemma {:induction false} FromAnywhere(k: nat, states: seq<State>, acts: seq<Action>, times: seq<real>,
                                      w: real, i: nat)
    requires k >= 1 && IsRun(k, states, acts) && Clocked(acts, times) && Quiet(acts, times, w) && i <= |acts|
    ensures FailuresIn(acts[i..], times[i..], w) <= MaxFailures(k)
    decreases |acts| - i
  {
    if i < |acts| && times[i] < w {
      FailuresHead(acts, times, w, i);
      FromAnywhere(k, states, acts, times, w, i + 1);
    } else {
      InsideWindow(k, states, acts, times, w, i);
      WindowInvRun(k, states, acts, i);
      PotentialBounded(k, states[i], w);
    }
  }

  /**
   With at most k attempts in flight, LOCKOUT_BASE_S seconds without a successful login record
   at most MaxFailures(k) failures, whatever happened before.
   */
  lemma WindowBound(k: nat, states: seq<State>, acts: seq<Action>, times: seq<real>, w: real)
    requires k >= 1 && IsRun(k, states, acts) && Clocked(acts, times) && Quiet(acts, times, w)
    ensures FailuresIn(acts, times, w) <= MaxFailures(k)
  {
    FromAnywhere(k, states, acts, times, w, 0);
    assert acts[0..] == acts && times[0..] == times;
  }
}
