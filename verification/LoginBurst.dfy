/**
 The bound of LoginWindow on the failures of a quarter of an hour is met, for every number of slots.

 Before the window a lock is written over a cleared count, with attempts still about to fail.
 In it those fail, every slot reads the lock at the moment it expires, and then the slots clear
 the row one after the other; after each reset all slots that have reset fail together.
 The stretches of such a run are put together from single attempts.
 */
module LoginBurst {
  import opened Wrappers
  import opened Counting
  import opened Arithmetic
  import opened LoginLockout
  import opened LoginSerial
  import LoginWindow

  const EARLY := 0.0
  const WINDOW := LOCKOUT_BASE_S as real

  // ---------------------------------------------------------------- stretches of a run at one time

  predicate IsIncrement(a: Action) {
    a.Increment?
  }

  ghost predicate Calm(acts: seq<Action>, t: real) {
    forall a :: a in acts ==> LoginWindow.OnTime(a, t) && LoginWindow.NoClearing(a)
  }

  /** From s to s2 at time t with n failures, without a success or an erasure. */
  ghost predicate Goes(s: State, s2: State, t: real, n: nat) {
    exists acts :: Executes(s, acts, s2) && Calm(acts, t) && CountIf(acts, IsIncrement) == n
  }

  lemma {:induction false} ExecutesAppend(s: State, a: seq<Action>, m: State, b: seq<Action>, s2: State)
    requires Executes(s, a, m) && Executes(m, b, s2)
    ensures Executes(s, a + b, s2)
    decreases |a|
  {
    if a == [] {
      assert a + b == b;
    } else {
      ExecutesAppend(Apply(s, a[0]), a[1..], m, b, s2);
      ExecutesCons(s, a[0], a[1..] + b, s2);
      assert a + b == [a[0]] + (a[1..] + b);
    }
  }

  lemma ExecutesCons(s: State, a: Action, rest: seq<Action>, s2: State)
    requires Enabled(s, a) && Executes(Apply(s, a), rest, s2)
    ensures Executes(s, [a] + rest, s2)
  {
    assert ([a] + rest)[1..] == rest;
  }

  lemma {:induction false} CountAppend(a: seq<Action>, b: seq<Action>)
    ensures CountIf(a + b, IsIncrement) == CountIf(a, IsIncrement) + CountIf(b, IsIncrement)
  {
    if a == [] {
      assert a + b == b;
    } else {
      assert (a + b)[1..] == a[1..] + b;
      CountAppend(a[1..], b);
    }
  }

  lemma Stays(s: State, t: real)
    ensures Goes(s, s, t, 0)
  {
    assert Executes(s, [], s) && Calm([], t) && CountIf([], IsIncrement) == 0;
  }

  lemma Then(s: State, m: State, s2: State, t: real, i: nat, j: nat)
    requires Goes(s, m, t, i) && Goes(m, s2, t, j)
    ensures Goes(s, s2, t, i + j)
  {
    var a :| Executes(s, a, m) && Calm(a, t) && CountIf(a, IsIncrement) == i;
    var b :| Executes(m, b, s2) && Calm(b, t) && CountIf(b, IsIncrement) == j;
    ExecutesAppend(s, a, m, b, s2);
    CountAppend(a, b);
    assert Calm(a + b, t);
  }

  lemma ThenStep(s: State, m: State, a: Action, s2: State, t: real, n: nat)
    requires Goes(s, m, t, n) && Enabled(m, a) && s2 == Apply(m, a)
    requires LoginWindow.OnTime(a, t) && LoginWindow.NoClearing(a)
    ensures Goes(s, s2, t, n + if a.Increment? then 1 else 0)
  {
    assert Executes(m, [a], s2) by {
      assert [a][1..] == [] && Executes(s2, [], s2);
    }
    assert CountIf([a], IsIncrement) == if a.Increment? then 1 else 0;
    assert Calm([a], t);
    assert Goes(m, s2, t, if a.Increment? then 1 else 0);
    Then(s, m, s2, t, n, if a.Increment? then 1 else 0);
  }

  // ---------------------------------------------------------------- single attempts

  function Unlocked0(c: nat): User {
    User(true, c, None)
  }

  /** An idle slot reads an unlocked row with a wrong password. */
  lemma Arms(c: nat, slots: seq<Attempt>, i: nat, t: real)
    requires i < |slots| && slots[i].Idle?
    ensures Goes(State(Unlocked0(c), slots), State(Unlocked0(c), slots[i := FailureDue]), t, 0)
  {
    var u := Unlocked0(c);
    var s := State(u, slots);
    var s1 := State(u, slots[i := Started]);
    var s2 := State(u, slots[i := Verifying(None, false)]);
    Stays(s, t);
    ThenStep(s, s, Begin(i), s1, t, 0);
    assert Apply(s1, ReadRow(i, false)).slots == s2.slots;
    ThenStep(s, s1, ReadRow(i, false), s2, t, 0);
    assert Apply(s2, CheckLock(i, t)).slots == slots[i := FailureDue];
    ThenStep(s, s2, CheckLock(i, t), State(u, slots[i := FailureDue]), t, 0);
  }

  /** Below the threshold a failure leaves the slot idle. */
  lemma Fails(u: User, slots: seq<Attempt>, i: nat, t: real)
    requires i < |slots| && slots[i].FailureDue? && u.failedLoginCount + 1 < LOCKOUT_THRESHOLD
    ensures Goes(State(u, slots), State(u.(failedLoginCount := u.failedLoginCount + 1), slots[i := Idle]), t, 1)
  {
    var s := State(u, slots);
    Stays(s, t);
    ThenStep(s, s, Increment(i), State(u.(failedLoginCount := u.failedLoginCount + 1), slots[i := Idle]), t, 0);
  }

  /** From the threshold on it locks the row. */
  lemma FailsAndLocks(u: User, slots: seq<Attempt>, i: nat, t: real) returns (lock: Option<real>)
    requires i < |slots| && slots[i].FailureDue? && u.failedLoginCount + 1 >= LOCKOUT_THRESHOLD
    ensures lock == Some(t + LockoutDuration(u.failedLoginCount + 1) as real)
    ensures Goes(State(u, slots), State(User(u.enabled, u.failedLoginCount + 1, lock), slots[i := Idle]), t, 1)
  {
    var c := u.failedLoginCount + 1;
    var s, m := State(u, slots), State(u.(failedLoginCount := c), slots[i := LockDue(c)]);
    lock := Some(t + LockoutDuration(c) as real);
    Stays(s, t);
    ThenStep(s, s, Increment(i), m, t, 0);
    assert Apply(m, WriteLock(i, t)).slots == slots[i := Idle];
    ThenStep(s, m, WriteLock(i, t), State(User(u.enabled, c, lock), slots[i := Idle]), t, 1);
  }

  /** One slot fails up to n times in all. */
  lemma {:induction false} FailsOften(c: nat, slots: seq<Attempt>, n: nat, t: real)
    requires slots != [] && slots[0].Idle? && c <= n < LOCKOUT_THRESHOLD
    ensures Goes(State(Unlocked0(c), slots), State(Unlocked0(n), slots), t, n - c)
    decreases n
  {
    var s := State(Unlocked0(c), slots);
    if n == c {
      Stays(s, t);
    } else {
      FailsOften(c, slots, n - 1, t);
      Arms(n - 1, slots, 0, t);
      Fails(Unlocked0(n - 1), slots[0 := FailureDue], 0, t);
      assert slots[0 := FailureDue][0 := Idle] == slots;
      var m, armed := State(Unlocked0(n - 1), slots), State(Unlocked0(n - 1), slots[0 := FailureDue]);
      Then(s, m, armed, t, n - 1 - c, 0);
      Then(s, armed, State(Unlocked0(n), slots), t, n - 1 - c, 1);
    }
  }

  // ---------------------------------------------------------------- the first slots together

  /** The first i slots at x, the others as they were. */
  function First(i: nat, x: Attempt, slots: seq<Attempt>): (r: seq<Attempt>)
    ensures |r| == |slots|
    ensures forall j :: 0 <= j < |r| ==> r[j] == if j < i then x else slots[j]
  {
    seq(|slots|, j requires 0 <= j < |slots| => if j < i then x else slots[j])
  }

  lemma FirstNext(i: nat, x: Attempt, slots: seq<Attempt>)
    requires i < |slots|
    ensures First(i, x, slots)[i := x] == First(i + 1, x, slots)
    ensures First(i + 1, x, slots)[i := slots[i]] == First(i, x, slots)
    ensures First(0, x, slots) == slots
  {
  }

  predicate IdleUpTo(i: nat, slots: seq<Attempt>) {
    i <= |slots| && forall j :: 0 <= j < i ==> slots[j].Idle?
  }

  lemma {:induction false} FirstArm(c: nat, slots: seq<Attempt>, i: nat, t: real)
    requires IdleUpTo(i, slots)
    ensures Goes(State(Unlocked0(c), slots), State(Unlocked0(c), First(i, FailureDue, slots)), t, 0)
  {
    var s := State(Unlocked0(c), slots);
    if i == 0 {
      assert First(0, FailureDue, slots) == slots;
      Stays(s, t);
    } else {
      FirstArm(c, slots, i - 1, t);
      Arms(c, First(i - 1, FailureDue, slots), i - 1, t);
      FirstNext(i - 1, FailureDue, slots);
      Then(s, State(Unlocked0(c), First(i - 1, FailureDue, slots)),
           State(Unlocked0(c), First(i, FailureDue, slots)), t, 0, 0);
    }
  }

  /** Armed slots fail although the row is locked, each at the threshold or beyond. */
  lemma {:induction false} FirstLock(u: User, slots: seq<Attempt>, i: nat, t: real) returns (u2: User)
    requires IdleUpTo(i, slots) && u.enabled && u.failedLoginCount + 1 >= LOCKOUT_THRESHOLD
    ensures u2.enabled
    ensures Goes(State(u, First(i, FailureDue, slots)), State(u2, slots), t, i)
    decreases i
  {
    var s := State(u, First(i, FailureDue, slots));
    if i == 0 {
      assert First(0, FailureDue, slots) == slots;
      Stays(s, t);
      u2 := u;
    } else {
      var lock := FailsAndLocks(u, First(i, FailureDue, slots), i - 1, t);
      FirstNext(i - 1, FailureDue, slots);
      var u1 := User(true, u.failedLoginCount + 1, lock);
      u2 := FirstLock(u1, slots, i - 1, t);
      Then(s, State(u1, First(i - 1, FailureDue, slots)), State(u2, slots), t, 1, i - 1);
    }
  }

  // ---------------------------------------------------------------- one phase

  function Waiting(k: nat): seq<Attempt> {
    seq(k, _ => ResetDue(false))
  }

  /** The first j slots are done, the others still have to reset. */
  function DoneUpTo(k: nat, j: nat): seq<Attempt> {
    First(j, Idle, Waiting(k))
  }

  /** Slot j - 1 resets; then the first j slots record threshold - 1 + j failures. */
  lemma Phase(k: nat, j: nat, u: User, t: real) returns (u2: User)
    requires 1 <= j <= k && u.enabled
    ensures u2.enabled
    ensures Goes(State(u, DoneUpTo(k, j - 1)), State(u2, DoneUpTo(k, j)), t, LOCKOUT_THRESHOLD - 1 + j)
  {
    var before, after := DoneUpTo(k, j - 1), DoneUpTo(k, j);
    var s, s1, s2 := State(u, before), State(Unlocked0(0), before[j - 1 := FailureDue]), State(Unlocked0(1), after);
    FirstNext(j - 1, Idle, Waiting(k));
    Stays(s, t);
    ThenStep(s, s, ResetExpired(j - 1), s1, t, 0);
    Fails(Unlocked0(0), before[j - 1 := FailureDue], j - 1, t);
    assert before[j - 1 := FailureDue][j - 1 := Idle] == after;
    Then(s, s1, s2, t, 0, 1);
    FailsOften(1, after, LOCKOUT_THRESHOLD - 1, t);
    var s3 := State(Unlocked0(LOCKOUT_THRESHOLD - 1), after);
    Then(s, s2, s3, t, 1, LOCKOUT_THRESHOLD - 2);
    u2 := AllFail(s, after, j, t);
  }

  lemma AllFail(s: State, slots: seq<Attempt>, j: nat, t: real) returns (u2: User)
    requires IdleUpTo(j, slots)
    requires Goes(s, State(Unlocked0(LOCKOUT_THRESHOLD - 1), slots), t, LOCKOUT_THRESHOLD - 1)
    ensures u2.enabled && Goes(s, State(u2, slots), t, LOCKOUT_THRESHOLD - 1 + j)
  {
    var c: nat := LOCKOUT_THRESHOLD - 1;
    FirstArm(c, slots, j, t);
    u2 := FirstLock(Unlocked0(c), slots, j, t);
    Then(State(Unlocked0(c), slots), State(Unlocked0(c), First(j, FailureDue, slots)), State(u2, slots), t, 0, j);
    Then(s, State(Unlocked0(c), slots), State(u2, slots), t, c, j);
  }

  /** All phases of the first j slots. */
  function PhaseSum(j: nat): nat {
    if j == 0 then 0 else LOCKOUT_THRESHOLD - 1 + j + PhaseSum(j - 1)
  }

  lemma {:induction false} PhaseSumIs(j: nat)
    ensures PhaseSum(j) == j * (LOCKOUT_THRESHOLD - 1) + j * (j + 1) / 2
  {
    if j > 0 {
      PhaseSumIs(j - 1);
      assert j * (j + 1) == (j - 1) * j + 2 * j;
    }
  }

  lemma {:induction false} AllPhases(k: nat, j: nat, u: User, t: real) returns (u2: User)
    requires j <= k && u.enabled
    ensures u2.enabled && Goes(State(u, Waiting(k)), State(u2, DoneUpTo(k, j)), t, PhaseSum(j))
    decreases j
  {
    if j == 0 {
      assert DoneUpTo(k, 0) == Waiting(k);
      Stays(State(u, Waiting(k)), t);
      u2 := u;
    } else {
      var u1 := AllPhases(k, j - 1, u, t);
      u2 := Phase(k, j, u1, t);
      Then(State(u, Waiting(k)), State(u1, DoneUpTo(k, j - 1)), State(u2, DoneUpTo(k, j)),
           t, PhaseSum(j - 1), LOCKOUT_THRESHOLD - 1 + j);
    }
  }

  // ---------------------------------------------------------------- the start of the window

  function AllIdle(k: nat): seq<Attempt> {
    seq(k, _ => Idle)
  }

  /** Attempts that were armed before the lock fail one after the other, short of the threshold. */
  lemma {:induction false} FirstFail(u: User, slots: seq<Attempt>, i: nat, t: real)
    requires IdleUpTo(i, slots) && u.failedLoginCount + i < LOCKOUT_THRESHOLD
    ensures Goes(State(u, First(i, FailureDue, slots)),
                 State(u.(failedLoginCount := u.failedLoginCount + i), slots), t, i)
    decreases i
  {
    var s := State(u, First(i, FailureDue, slots));
    if i == 0 {
      assert First(0, FailureDue, slots) == slots;
      Stays(s, t);
    } else {
      var u1 := u.(failedLoginCount := u.failedLoginCount + 1);
      Fails(u, First(i, FailureDue, slots), i - 1, t);
      FirstNext(i - 1, FailureDue, slots);
      FirstFail(u1, slots, i - 1, t);
      Then(s, State(u1, First(i - 1, FailureDue, slots)),
           State(u.(failedLoginCount := u.failedLoginCount + i), slots), t, 1, i - 1);
    }
  }

  /** An idle slot reads a lock that has expired by now. */
  lemma ReadsExpired(u: User, slots: seq<Attempt>, i: nat, t: real)
    requires i < |slots| && slots[i].Idle? && u.enabled && u.lockedUntil == Some(t)
    ensures Goes(State(u, slots), State(u, slots[i := ResetDue(false)]), t, 0)
  {
    var s, s1, s2 := State(u, slots), State(u, slots[i := Started]), State(u, slots[i := Verifying(Some(t), false)]);
    Stays(s, t);
    ThenStep(s, s, Begin(i), s1, t, 0);
    assert Apply(s1, ReadRow(i, false)).slots == s2.slots;
    ThenStep(s, s1, ReadRow(i, false), s2, t, 0);
    assert Apply(s2, CheckLock(i, t)).slots == slots[i := ResetDue(false)];
    ThenStep(s, s2, CheckLock(i, t), State(u, slots[i := ResetDue(false)]), t, 0);
  }

  lemma {:induction false} FirstRead(u: User, slots: seq<Attempt>, i: nat, t: real)
    requires IdleUpTo(i, slots) && u.enabled && u.lockedUntil == Some(t)
    ensures Goes(State(u, slots), State(u, First(i, ResetDue(false), slots)), t, 0)
  {
    var s := State(u, slots);
    if i == 0 {
      assert First(0, ResetDue(false), slots) == slots;
      Stays(s, t);
    } else {
      FirstRead(u, slots, i - 1, t);
      ReadsExpired(u, First(i - 1, ResetDue(false), slots), i - 1, t);
      FirstNext(i - 1, ResetDue(false), slots);
      Then(s, State(u, First(i - 1, ResetDue(false), slots)), State(u, First(i, ResetDue(false), slots)), t, 0, 0);
    }
  }

  /** The window, from a row whose lock expires as it begins. */
  lemma WholeWindow(k: nat, m: nat, u: User) returns (s2: State)
    requires m <= k && u.enabled && u.lockedUntil == Some(WINDOW)
    requires m == 0 || u.failedLoginCount + m < LOCKOUT_THRESHOLD
    ensures Goes(State(u, First(m, FailureDue, AllIdle(k))), s2, WINDOW, m + PhaseSum(k))
  {
    var s := State(u, First(m, FailureDue, AllIdle(k)));
    var u1 := u.(failedLoginCount := u.failedLoginCount + m);
    if m == 0 {
      assert s.slots == AllIdle(k);
      Stays(s, WINDOW);
    } else {
      FirstFail(u, AllIdle(k), m, WINDOW);
    }
    FirstRead(u1, AllIdle(k), k, WINDOW);
    assert First(k, ResetDue(false), AllIdle(k)) == Waiting(k);
    Then(s, State(u1, AllIdle(k)), State(u1, Waiting(k)), WINDOW, m, 0);
    var u2 := AllPhases(k, k, u1, WINDOW);
    s2 := State(u2, DoneUpTo(k, k));
    Then(s, State(u1, Waiting(k)), s2, WINDOW, m, PhaseSum(k));
  }

  // ---------------------------------------------------------------- before the window

  ghost predicate Early(acts: seq<Action>) {
    forall a :: a in acts ==> LoginWindow.OnTime(a, EARLY)
  }

  /** Some run of k slots, all of it early, ends in s. */
  ghost predicate Comes(k: nat, s: State) {
    exists acts :: Executes(Initial(k, true), acts, s) && Early(acts)
  }

  lemma ComesOn(k: nat, s: State, s2: State, n: nat)
    requires Comes(k, s) && Goes(s, s2, EARLY, n)
    ensures Comes(k, s2)
  {
    var a :| Executes(Initial(k, true), a, s) && Early(a);
    var b :| Executes(s, b, s2) && Calm(b, EARLY) && CountIf(b, IsIncrement) == n;
    ExecutesAppend(Initial(k, true), a, s, b, s2);
    assert Early(a + b);
  }

  lemma ComesStep(k: nat, s: State, a: Action, s2: State)
    requires Comes(k, s) && Enabled(s, a) && s2 == Apply(s, a) && LoginWindow.OnTime(a, EARLY)
    ensures Comes(k, s2)
  {
    var acts :| Executes(Initial(k, true), acts, s) && Early(acts);
    assert Executes(s, [a], s2) by {
      assert [a][1..] == [] && Executes(s2, [], s2);
    }
    ExecutesAppend(Initial(k, true), acts, s, [a], s2);
    assert Early(acts + [a]);
  }

  lemma ComesToNine(k: nat)
    requires k >= 1
    ensures Comes(k, State(Unlocked0(LOCKOUT_THRESHOLD - 1), AllIdle(k)))
  {
    var s := State(Unlocked0(0), AllIdle(k));
    assert s == Initial(k, true);
    assert Executes(s, [], s) && Early([]);
    FailsOften(0, AllIdle(k), LOCKOUT_THRESHOLD - 1, EARLY);
    ComesOn(k, s, State(Unlocked0(LOCKOUT_THRESHOLD - 1), AllIdle(k)), LOCKOUT_THRESHOLD - 1);
  }

  /** A single slot just locks the row. */
  lemma AloneBefore()
    ensures Comes(1, State(User(true, LOCKOUT_THRESHOLD, Some(WINDOW)), AllIdle(1)))
  {
    var c: nat, slots := LOCKOUT_THRESHOLD - 1, AllIdle(1);
    var s, m := State(Unlocked0(c), slots), State(Unlocked0(c), slots[0 := FailureDue]);
    ComesToNine(1);
    Arms(c, slots, 0, EARLY);
    ComesOn(1, s, m, 0);
    var lock := FailsAndLocks(Unlocked0(c), slots[0 := FailureDue], 0, EARLY);
    assert slots[0 := FailureDue][0 := Idle] == slots;
    ComesOn(1, m, State(User(true, LOCKOUT_THRESHOLD, Some(WINDOW)), slots), 1);
  }

  /** The last slot has counted the failure that locks, the first is about to succeed. */
  lemma BeforeSuccess(k: nat)
    requires k >= 2
    ensures Comes(k, State(Unlocked0(LOCKOUT_THRESHOLD),
                     AllIdle(k)[0 := SuccessDue][k - 1 := LockDue(LOCKOUT_THRESHOLD)]))
  {
    var u, idle := Unlocked0(LOCKOUT_THRESHOLD - 1), AllIdle(k);
    var s1, s2 := State(u, idle[0 := Started]), State(u, idle[0 := Verifying(None, true)]);
    var s3 := State(u, idle[0 := SuccessDue]);
    ComesToNine(k);
    ComesStep(k, State(u, idle), Begin(0), s1);
    assert Apply(s1, ReadRow(0, true)).slots == s2.slots;
    ComesStep(k, s1, ReadRow(0, true), s2);
    assert Apply(s2, CheckLock(0, EARLY)).slots == s3.slots;
    ComesStep(k, s2, CheckLock(0, EARLY), s3);
    Arms(LOCKOUT_THRESHOLD - 1, s3.slots, k - 1, EARLY);
    var s4 := State(u, s3.slots[k - 1 := FailureDue]);
    ComesOn(k, s3, s4, 0);
    var s5 := State(Unlocked0(LOCKOUT_THRESHOLD), s3.slots[k - 1 := LockDue(LOCKOUT_THRESHOLD)]);
    assert Apply(s4, Increment(k - 1)).slots == s5.slots;
    ComesStep(k, s4, Increment(k - 1), s5);
  }

  /** Then the count is cleared, m slots are armed, and the lock is written over the cleared count. */
  lemma ManyBefore(k: nat, m: nat)
    requires k >= 2 && m <= k - 1
    ensures Comes(k, State(User(true, 0, Some(WINDOW)), First(m, FailureDue, AllIdle(k))))
  {
    var last := LockDue(LOCKOUT_THRESHOLD);
    var s := State(Unlocked0(LOCKOUT_THRESHOLD), AllIdle(k)[0 := SuccessDue][k - 1 := last]);
    var slots := AllIdle(k)[k - 1 := last];
    BeforeSuccess(k);
    assert Apply(s, Succeed(0)).slots == slots;
    ComesStep(k, s, Succeed(0), State(Unlocked0(0), slots));
    FirstArm(0, slots, m, EARLY);
    var armed := State(Unlocked0(0), First(m, FailureDue, slots));
    ComesOn(k, State(Unlocked0(0), slots), armed, 0);
    assert armed.slots[k - 1 := Idle] == First(m, FailureDue, AllIdle(k));
    ComesStep(k, armed, WriteLock(k - 1, EARLY), State(User(true, 0, Some(WINDOW)), First(m, FailureDue, AllIdle(k))));
  }

  /** A start from which the window has all its failures. */
  lemma Start(k: nat) returns (u: User, m: nat)
    requires k >= 1
    ensures m == Min(k - 1, LOCKOUT_THRESHOLD - 1)
    ensures u.enabled && u.lockedUntil == Some(WINDOW) && (m == 0 || u.failedLoginCount + m < LOCKOUT_THRESHOLD)
    ensures Comes(k, State(u, First(m, FailureDue, AllIdle(k))))
  {
    m := Min(k - 1, LOCKOUT_THRESHOLD - 1);
    if k == 1 {
      u := User(true, LOCKOUT_THRESHOLD, Some(WINDOW));
      AloneBefore();
      assert First(0, FailureDue, AllIdle(1)) == AllIdle(1);
    } else {
      u := User(true, 0, Some(WINDOW));
      ManyBefore(k, m);
    }
  }

  // ---------------------------------------------------------------- the whole run

  lemma {:induction false} ExecutesIsRun(s: State, acts: seq<Action>, s2: State) returns (states: seq<State>)
    requires Executes(s, acts, s2)
    ensures |states| == |acts| + 1 && states[0] == s
    ensures forall i :: 0 <= i < |acts| ==> Enabled(states[i], acts[i]) && states[i + 1] == Apply(states[i], acts[i])
    decreases |acts|
  {
    if acts == [] {
      states := [s];
    } else {
      var rest := ExecutesIsRun(Apply(s, acts[0]), acts[1..], s2);
      states := [s] + rest;
      forall i | 0 <= i < |acts| ensures Enabled(states[i], acts[i]) && states[i + 1] == Apply(states[i], acts[i]) {
        if i > 0 {
          assert states[i] == rest[i - 1] && acts[i] == acts[1..][i - 1];
        }
      }
    }
  }

  function Times(early: nat, inside: nat): seq<real> {
    seq(early, _ => EARLY) + seq(inside, _ => WINDOW)
  }

  lemma {:induction false} CountInWindow(a: seq<Action>, b: seq<Action>)
    ensures LoginWindow.FailuresIn(a + b, Times(|a|, |b|), WINDOW) == CountIf(b, IsIncrement)
    decreases |a| + |b|
  {
    var times := Times(|a|, |b|);
    if a != [] {
      assert (a + b)[1..] == a[1..] + b && times[1..] == Times(|a| - 1, |b|);
      CountInWindow(a[1..], b);
    } else if b != [] {
      assert a + b == b && b[1..] == a + b[1..] && times[1..] == Times(0, |b| - 1);
      CountInWindow(a, b[1..]);
    }
  }

  lemma TwoTimes(a: seq<Action>, b: seq<Action>)
    requires Early(a) && Calm(b, WINDOW)
    ensures LoginWindow.Clocked(a + b, Times(|a|, |b|)) && LoginWindow.Quiet(a + b, Times(|a|, |b|), WINDOW)
  {
    var acts, times := a + b, Times(|a|, |b|);
    forall i | 0 <= i < |acts|
      ensures LoginWindow.OnTime(acts[i], times[i])
      ensures InWindow(times[i], WINDOW) ==> LoginWindow.NoClearing(acts[i])
    {
      assert if i < |a| then acts[i] in a else acts[i] in b;
    }
  }

  /** For every k, a run in which the window has as many failures as LoginWindow.WindowBound allows. */
  lemma WindowBoundIsMet(k: nat) returns (states: seq<State>, acts: seq<Action>, times: seq<real>)
    requires k >= 1
    ensures IsRun(k, states, acts) && LoginWindow.Clocked(acts, times) && LoginWindow.Quiet(acts, times, WINDOW)
    ensures LoginWindow.FailuresIn(acts, times, WINDOW) == LoginWindow.MaxFailures(k)
  {
    var u, m := Start(k);
    var s := State(u, First(m, FailureDue, AllIdle(k)));
    var s2 := WholeWindow(k, m, u);
    var a :| Executes(Initial(k, true), a, s) && Early(a);
    var b :| Executes(s, b, s2) && Calm(b, WINDOW) && CountIf(b, IsIncrement) == m + PhaseSum(k);
    PhaseSumIs(k);
    acts, times := a + b, Times(|a|, |b|);
    ExecutesAppend(Initial(k, true), a, s, b, s2);
    states := ExecutesIsRun(Initial(k, true), acts, s2);
    TwoTimes(a, b);
    CountInWindow(a, b);
  }
}
