/** Account lockout of backend/auth.py. */
module LoginLockout {
  import opened Wrappers
  import opened Counting
  import opened Arithmetic

  // One row of the users table, and any number of login attempts on it.  An attempt
  // reads the row, verifies the password with no connection held, and then writes in
  // separate statements, so attempts interleave between those steps.  A system with at
  // most k attempts in flight is a row and k slots.

  const LOCKOUT_BASE_S := 15 * 60
  const LOCKOUT_MAX_S := 24 * 60 * 60
  const LOCKOUT_THRESHOLD: nat := 10

  /** Length in seconds of the lock set by the failure that brought the count to failedCount. */
  function LockoutDuration(failedCount: nat): (seconds: int)
    ensures LOCKOUT_BASE_S <= seconds <= LOCKOUT_MAX_S
    ensures failedCount <= LOCKOUT_THRESHOLD ==> seconds == LOCKOUT_BASE_S
  {
    var exponent := if failedCount > LOCKOUT_THRESHOLD then failedCount - LOCKOUT_THRESHOLD else 0;
    Min(LOCKOUT_BASE_S * Pow2(exponent), LOCKOUT_MAX_S)
  }

  lemma LockoutDurationMonotone(m: nat, n: nat)
    requires m <= n
    ensures LockoutDuration(m) <= LockoutDuration(n)
  {
    var a := if m > LOCKOUT_THRESHOLD then m - LOCKOUT_THRESHOLD else 0;
    var b := if n > LOCKOUT_THRESHOLD then n - LOCKOUT_THRESHOLD else 0;
    Pow2Monotone(a, b);
  }

  /** From the threshold on, every further failure doubles the length, up to the cap. */
  lemma LockoutDoubles(n: nat)
    requires n >= LOCKOUT_THRESHOLD
    ensures LockoutDuration(LOCKOUT_THRESHOLD) == LOCKOUT_BASE_S
    ensures LockoutDuration(n + 1) == Min(2 * LockoutDuration(n), LOCKOUT_MAX_S)
  {
    assert Pow2(n + 1 - LOCKOUT_THRESHOLD) == 2 * Pow2(n - LOCKOUT_THRESHOLD);
  }

  /** The LOCKOUT_BASE_S seconds from w on. */
  predicate InWindow(t: real, w: real) {
    w <= t < w + LOCKOUT_BASE_S as real
  }

  // ---------------------------------------------------------------- the row and its attempts

  datatype User = User(enabled: bool, failedLoginCount: nat, lockedUntil: Option<real>)

  /** Where an attempt stands between its database statements. */
  datatype Attempt =
    | Idle
    | Started                                                 // nothing read yet
    | Verifying(seenLock: Option<real>, passwordOk: bool)     // holds the row it read
    | ResetDue(passwordOk: bool)                              // its copy of the lock has expired
    | FailureDue                                              // about to increment the count
    | LockDue(newCount: nat)                                  // incremented; the lock is still to be written
    | SuccessDue                                              // about to write the success transaction

  datatype State = State(user: User, slots: seq<Attempt>)

  datatype Action =
    | Begin(slot: nat)
    | ReadRow(slot: nat, passwordOk: bool)
    | CheckLock(slot: nat, now: real)
    | ResetExpired(slot: nat)
    | Increment(slot: nat)
    | WriteLock(slot: nat, now: real)
    | Succeed(slot: nat)
    | SetEnabled(enabled: bool)     // an administrator
    | EraseUser                     // the privacy erasure, which clears both columns

  function Unlocked(u: User): User {
    u.(failedLoginCount := 0, lockedUntil := None)
  }

  predicate SlotAction(a: Action) {
    !a.SetEnabled? && !a.EraseUser?
  }

  predicate Enabled(s: State, a: Action) {
    && (SlotAction(a) ==> a.slot < |s.slots|)
    && match a
       case Begin(i) => s.slots[i].Idle?
       case ReadRow(i, _) => s.slots[i].Started?
       case CheckLock(i, _) => s.slots[i].Verifying?
       case ResetExpired(i) => s.slots[i].ResetDue?
       case Increment(i) => s.slots[i].FailureDue?
       case WriteLock(i, _) => s.slots[i].LockDue?
       case Succeed(i) => s.slots[i].SuccessDue?
       case SetEnabled(_) => true
       case EraseUser => true
  }

  function Decided(passwordOk: bool): Attempt {
    if passwordOk then SuccessDue else FailureDue
  }

  function Apply(s: State, a: Action): State
    requires Enabled(s, a)
  {
    match a
    case Begin(i) => s.(slots := s.slots[i := Started])
    case ReadRow(i, ok) =>
      s.(slots := s.slots[i := if s.user.enabled then Verifying(s.user.lockedUntil, ok) else Idle])
    case CheckLock(i, now) =>
      var Verifying(seen, ok) := s.slots[i];
      var next := match seen
        case Some(until) => if until > now then Idle else ResetDue(ok)
        case None => Decided(ok);
      s.(slots := s.slots[i := next])
    case ResetExpired(i) =>
      State(Unlocked(s.user), s.slots[i := Decided(s.slots[i].passwordOk)])
    case Increment(i) =>
      var c := s.user.failedLoginCount + 1;
      State(s.user.(failedLoginCount := c),
            s.slots[i := if c >= LOCKOUT_THRESHOLD then LockDue(c) else Idle])
    case WriteLock(i, now) =>
      State(s.user.(lockedUntil := Some(now + LockoutDuration(s.slots[i].newCount) as real)),
            s.slots[i := Idle])
    case Succeed(i) => State(Unlocked(s.user), s.slots[i := Idle])
    case SetEnabled(e) => s.(user := s.user.(enabled := e))
    case EraseUser => s.(user := Unlocked(s.user))
  }

  function Initial(k: nat, enabled: bool): State {
    State(User(enabled, 0, None), seq(k, _ => Idle))
  }

  /** A run of the system with k slots: states[i + 1] follows from states[i] by acts[i]. */
  ghost predicate IsRun(k: nat, states: seq<State>, acts: seq<Action>) {
    && |states| == |acts| + 1
    && states[0] in {Initial(k, true), Initial(k, false)}
    && forall i :: 0 <= i < |acts| ==> Enabled(states[i], acts[i]) && states[i + 1] == Apply(states[i], acts[i])
  }

  // ---------------------------------------------------------------- the bound on the count

  /** Attempts that will increment the count with no further look at the row. */
  predicate Armed(a: Attempt) {
    a.FailureDue? || (a.Verifying? && a.seenLock.None?)
  }

  predicate AboutToLock(a: Attempt) {
    a.LockDue?
  }

  function ArmedCount(s: State): nat { CountIf(s.slots, Armed) }

  function LockDueCount(s: State): nat { CountIf(s.slots, AboutToLock) }

  /**
   While the row carries no lock, every increment beyond the threshold is still waiting to
   write one; once it carries a lock, the armed attempts are the only ones that can still
   increment, and there is room left for all of them.
   */
  ghost predicate Inv(k: nat, s: State) {
    && |s.slots| == k
    && (s.user.lockedUntil.None? ==> s.user.failedLoginCount <= LOCKOUT_THRESHOLD - 1 + LockDueCount(s))
    && s.user.failedLoginCount + ArmedCount(s) <= LOCKOUT_THRESHOLD - 1 + k
    && (forall a :: a in s.slots && a.LockDue? ==> LOCKOUT_THRESHOLD <= a.newCount <= LOCKOUT_THRESHOLD - 1 + k)
  }

  lemma InvInitial(k: nat, enabled: bool)
    ensures Inv(k, Initial(k, enabled))
  {
    CountNone(Initial(k, enabled).slots, Armed);
  }

  lemma InvStep(k: nat, s: State, a: Action)
    requires Inv(k, s) && Enabled(s, a)
    ensures Inv(k, Apply(s, a))
  {
    var s' := Apply(s, a);
    CountDisjoint(s'.slots, Armed, AboutToLock);
    if SlotAction(a) {
      CountUpdate(s.slots, a.slot, s'.slots[a.slot], Armed);
      CountUpdate(s.slots, a.slot, s'.slots[a.slot], AboutToLock);
      assert s'.slots == s.slots[a.slot := s'.slots[a.slot]];
    }
  }

  lemma {:induction false} InvRun(k: nat, states: seq<State>, acts: seq<Action>, i: nat)
    requires IsRun(k, states, acts) && i < |states|
    ensures Inv(k, states[i])
  {
    if i == 0 {
      InvInitial(k, states[0].user.enabled);
    } else {
      InvRun(k, states, acts, i - 1);
      InvStep(k, states[i - 1], acts[i - 1]);
    }
  }

  /** With at most k attempts in flight the count never passes threshold + k - 1. */
  lemma CountBound(k: nat, states: seq<State>, acts: seq<Action>, i: nat)
    requires k >= 1
    requires IsRun(k, states, acts) && i < |states|
    ensures states[i].user.failedLoginCount <= LOCKOUT_THRESHOLD + k - 1
  {
    InvRun(k, states, acts, i);
  }

  /** Hence every lock ever written lasts at least the base and at most base * 2^(k - 1), capped at a day. */
  lemma LockLengthBound(k: nat, states: seq<State>, acts: seq<Action>, i: nat)
    requires k >= 1
    requires IsRun(k, states, acts) && i < |acts| && acts[i].WriteLock?
    ensures states[i + 1].user.lockedUntil.Some?
    ensures LOCKOUT_BASE_S as real <= states[i + 1].user.lockedUntil.value - acts[i].now
         <= Min(LOCKOUT_BASE_S * Pow2(k - 1), LOCKOUT_MAX_S) as real
  {
    InvRun(k, states, acts, i);
    assert states[i].slots[acts[i].slot] in states[i].slots;
    LockoutDurationMonotone(states[i].slots[acts[i].slot].newCount, LOCKOUT_THRESHOLD + k - 1);
  }

  /**
   Run one attempt at a time, every lock lasts exactly the base: the doubling of the
   duration is reached only through overlapping attempts.
   */
  lemma SerialLocksNeverDouble(states: seq<State>, acts: seq<Action>, i: nat)
    requires IsRun(1, states, acts) && i < |acts| && acts[i].WriteLock?
    ensures states[i + 1].user.lockedUntil == Some(acts[i].now + LOCKOUT_BASE_S as real)
  {
    InvRun(1, states, acts, i);
    assert states[i].slots[acts[i].slot] in states[i].slots;
  }

  // ---------------------------------------------------------------- who may succeed and who fails

  /** The lock is in force at now. */
  predicate InForce(lock: Option<real>, now: real) {
    lock.Some? && lock.value > now
  }

  /** The attempt in the slot read the row at step r, and has read nothing since. */
  ghost predicate ReadAt(acts: seq<Action>, r: nat, i: nat, slot: nat)
    requires i <= |acts|
  {
    && r < i && acts[r].ReadRow? && acts[r].slot == slot
    && forall j :: r < j < i ==> !(acts[j].ReadRow? && acts[j].slot == slot)
  }

  /** It found the user enabled, and no lock that was still in force when it looked at the clock. */
  ghost predicate Passed(states: seq<State>, acts: seq<Action>, r: nat, k: nat, i: nat, slot: nat, ok: bool)
    requires i <= |acts| < |states|
  {
    && ReadAt(acts, r, i, slot) && acts[r].passwordOk == ok && states[r].user.enabled
    && r < k < i && acts[k].CheckLock? && acts[k].slot == slot
    && !InForce(states[r].user.lockedUntil, acts[k].now)
  }

  ghost predicate Admitted(states: seq<State>, acts: seq<Action>, i: nat, slot: nat, ok: bool)
    requires i <= |acts| < |states|
  {
    exists r: nat, k: nat :: Passed(states, acts, r, k, i, slot, ok)
  }

  /** What the attempt in a slot has read and found, wherever it stands. */
  ghost predicate HistoryOk(states: seq<State>, acts: seq<Action>, i: nat, slot: nat)
    requires i <= |acts| < |states| && slot < |states[i].slots|
  {
    match states[i].slots[slot]
    case Verifying(seen, ok) =>
      exists r: nat :: ReadAt(acts, r, i, slot) && acts[r].passwordOk == ok
                       && states[r].user.enabled && states[r].user.lockedUntil == seen
    case ResetDue(ok) => Admitted(states, acts, i, slot, ok)
    case FailureDue => Admitted(states, acts, i, slot, false)
    case LockDue(_) => Admitted(states, acts, i, slot, false)
    case SuccessDue => Admitted(states, acts, i, slot, true)
    case _ => true
  }

  lemma AdmittedLater(states: seq<State>, acts: seq<Action>, i: nat, slot: nat, ok: bool)
    requires i < |acts| < |states| && Admitted(states, acts, i, slot, ok)
    requires !(acts[i].ReadRow? && acts[i].slot == slot)
    ensures Admitted(states, acts, i + 1, slot, ok)
  {
    var r: nat, k: nat :| Passed(states, acts, r, k, i, slot, ok);
    assert Passed(states, acts, r, k, i + 1, slot, ok);
  }

  /** A check of the lock lets the attempt go on exactly when the lock it read is not in force. */
  lemma CheckAdmits(states: seq<State>, acts: seq<Action>, i: nat, slot: nat, r: nat)
    requires i < |acts| < |states| && slot < |states[i].slots|
    requires Enabled(states[i], acts[i]) && states[i + 1] == Apply(states[i], acts[i])
    requires acts[i].CheckLock? && acts[i].slot == slot
    requires ReadAt(acts, r, i, slot) && states[r].user.enabled
    requires states[i].slots[slot] == Verifying(states[r].user.lockedUntil, acts[r].passwordOk)
    ensures states[i + 1].slots[slot].Idle? <==> InForce(states[r].user.lockedUntil, acts[i].now)
    ensures !InForce(states[r].user.lockedUntil, acts[i].now) ==>
              Admitted(states, acts, i + 1, slot, acts[r].passwordOk)
  {
    if !InForce(states[r].user.lockedUntil, acts[i].now) {
      assert Passed(states, acts, r, i, i + 1, slot, acts[r].passwordOk);
    }
  }

  lemma HistoryStep(states: seq<State>, acts: seq<Action>, i: nat, slot: nat)
    requires i < |acts| < |states| && slot < |states[i].slots| && HistoryOk(states, acts, i, slot)
    requires Enabled(states[i], acts[i]) && states[i + 1] == Apply(states[i], acts[i])
    ensures slot < |states[i + 1].slots| && HistoryOk(states, acts, i + 1, slot)
  {
    var a, p := acts[i], states[i].slots[slot];
    if a.ReadRow? && a.slot == slot {
      assert ReadAt(acts, i, i + 1, slot);
    } else if p.Verifying? {
      var r: nat :| ReadAt(acts, r, i, slot) && acts[r].passwordOk == p.passwordOk
                    && states[r].user.enabled && states[r].user.lockedUntil == p.seenLock;
      if a.CheckLock? && a.slot == slot {
        CheckAdmits(states, acts, i, slot, r);
      } else {
        assert ReadAt(acts, r, i + 1, slot);
      }
    } else if p.ResetDue? || p.FailureDue? || p.LockDue? || p.SuccessDue? {
      AdmittedLater(states, acts, i, slot, p.SuccessDue? || (p.ResetDue? && p.passwordOk));
    }
  }

  lemma {:induction false} HistoryRun(k: nat, states: seq<State>, acts: seq<Action>, i: nat, slot: nat)
    requires IsRun(k, states, acts) && i < |states| && slot < k
    ensures slot < |states[i].slots| && HistoryOk(states, acts, i, slot)
  {
    if i > 0 {
      HistoryRun(k, states, acts, i - 1, slot);
      HistoryStep(states, acts, i - 1, slot);
    }
  }

  /**
   Whatever runs beside it: an attempt that succeeds read an enabled user, gave the right password,
   and found no lock in force; one that records a failure did the same with a wrong password.
   */
  lemma OnlyAdmitted(k: nat, states: seq<State>, acts: seq<Action>, i: nat)
    requires IsRun(k, states, acts) && i < |acts| && (acts[i].Succeed? || acts[i].Increment?)
    ensures Admitted(states, acts, i, acts[i].slot, acts[i].Succeed?)
  {
    InvRun(k, states, acts, i);
    HistoryRun(k, states, acts, i, acts[i].slot);
  }

  /** And every attempt whose check finds no lock in force goes on, every other one ends there. */
  lemma OnlyLocksReject(k: nat, states: seq<State>, acts: seq<Action>, i: nat) returns (r: nat)
    requires IsRun(k, states, acts) && i < |acts| && acts[i].CheckLock?
    ensures ReadAt(acts, r, i, acts[i].slot)
    ensures var p := states[i + 1].slots[acts[i].slot];
            && (p.Idle? <==> InForce(states[r].user.lockedUntil, acts[i].now))
            && (p == ResetDue(acts[r].passwordOk) <==>
                  states[r].user.lockedUntil.Some? && !InForce(states[r].user.lockedUntil, acts[i].now))
            && (p.SuccessDue? <==> states[r].user.lockedUntil.None? && acts[r].passwordOk)
            && (p.FailureDue? <==> states[r].user.lockedUntil.None? && !acts[r].passwordOk)
  {
    var slot := acts[i].slot;
    InvRun(k, states, acts, i);
    HistoryRun(k, states, acts, i, slot);
    var p := states[i].slots[slot];
    r :| ReadAt(acts, r, i, slot) && acts[r].passwordOk == p.passwordOk
         && states[r].user.enabled && states[r].user.lockedUntil == p.seenLock;
  }

  // ---------------------------------------------------------------- the bound is reached

  ghost predicate Reachable(k: nat, s: State) {
    exists states: seq<State>, acts: seq<Action> :: IsRun(k, states, acts) && states[|acts|] == s
  }

  lemma ReachInitial(k: nat, enabled: bool)
    ensures Reachable(k, Initial(k, enabled))
  {
    assert IsRun(k, [Initial(k, enabled)], []);
  }

  lemma ReachStep(k: nat, s: State, a: Action)
    requires Reachable(k, s) && Enabled(s, a)
    ensures Reachable(k, Apply(s, a))
  {
    var states: seq<State>, acts: seq<Action> :| IsRun(k, states, acts) && states[|acts|] == s;
    var states', acts' := states + [Apply(s, a)], acts + [a];
    assert forall i :: 0 <= i < |acts| ==> states'[i] == states[i] && acts'[i] == acts[i];
    assert IsRun(k, states', acts');
  }

  /** The first i of k attempts have read an unlocked row and a wrong password, the others have not begun. */
  function Doomed(i: nat, k: nat): (slots: seq<Attempt>)
    requires i <= k
    ensures |slots| == k
  {
    seq(i, _ => FailureDue) + seq(k - i, _ => Idle)
  }

  /** The first i of k such attempts have counted their failure and are about to lock the row. */
  function Fired(i: nat, k: nat): (slots: seq<Attempt>)
    requires i <= k
    ensures |slots| == k
  {
    seq(i, (j: nat) => LockDue(LOCKOUT_THRESHOLD + j)) + seq(k - i, _ => FailureDue)
  }

  lemma {:induction false} ReachNineFailures(k: nat, n: nat)
    requires k >= 1 && n < LOCKOUT_THRESHOLD
    ensures Reachable(k, State(User(true, n, None), seq(k, _ => Idle)))
  {
    if n == 0 {
      ReachInitial(k, true);
    } else {
      ReachNineFailures(k, n - 1);
      ReachDoomed(k, n - 1, 1);
      var s := State(User(true, n - 1, None), Doomed(1, k));
      ReachStep(k, s, Increment(0));
      assert Apply(s, Increment(0)) == State(User(true, n, None), seq(k, _ => Idle));
    }
  }

  lemma {:induction false} ReachDoomed(k: nat, n: nat, i: nat)
    requires i <= k
    requires Reachable(k, State(User(true, n, None), seq(k, _ => Idle)))
    ensures Reachable(k, State(User(true, n, None), Doomed(i, k)))
  {
    if i == 0 {
      assert Doomed(0, k) == seq(k, _ => Idle);
    } else {
      ReachDoomed(k, n, i - 1);
      var s := State(User(true, n, None), Doomed(i - 1, k));
      ReachStep(k, s, Begin(i - 1));
      var s1 := Apply(s, Begin(i - 1));
      ReachStep(k, s1, ReadRow(i - 1, false));
      var s2 := Apply(s1, ReadRow(i - 1, false));
      ReachStep(k, s2, CheckLock(i - 1, 0.0));
      assert Apply(s2, CheckLock(i - 1, 0.0)).slots == Doomed(i, k);
    }
  }

  lemma {:induction false} ReachFired(k: nat, i: nat)
    requires 1 <= k && i <= k
    ensures Reachable(k, State(User(true, LOCKOUT_THRESHOLD - 1 + i, None), Fired(i, k)))
  {
    if i == 0 {
      ReachNineFailures(k, LOCKOUT_THRESHOLD - 1);
      ReachDoomed(k, LOCKOUT_THRESHOLD - 1, k);
      assert Fired(0, k) == Doomed(k, k);
    } else {
      ReachFired(k, i - 1);
      var s := State(User(true, LOCKOUT_THRESHOLD - 2 + i, None), Fired(i - 1, k));
      ReachStep(k, s, Increment(i - 1));
      assert Apply(s, Increment(i - 1)).slots == Fired(i, k);
    }
  }

  /** The bound of CountBound is met for every k, so it cannot be improved. */
  lemma CountBoundIsTight(k: nat)
    requires k >= 1
    ensures exists s :: Reachable(k, s) && s.user.failedLoginCount == LOCKOUT_THRESHOLD + k - 1
  {
    ReachFired(k, k);
  }
}
