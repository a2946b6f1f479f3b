/** Login attempts of backend/auth.py served one at a time. */
module LoginSerial {
  import opened Wrappers
  import opened LoginLockout

  // UserRow updates the columns as the source does.  Serve is what one attempt does to the
  // row; it is the effect of the interleaving model run with a single slot, and the
  // sliding-window bound on recorded failures is proved about it.

  datatype Outcome = Rejected | Failed | Succeeded

  /** now: clock when the lock is checked; recordedAt: clock when the outcome is written. */
  datatype Login = Login(now: real, recordedAt: real, passwordOk: bool)

  function AfterFailure(u: User, recordedAt: real): User {
    var c := u.failedLoginCount + 1;
    User(u.enabled, c,
         if c >= LOCKOUT_THRESHOLD then Some(recordedAt + LockoutDuration(c) as real) else u.lockedUntil)
  }

  function Serve(u: User, e: Login): (User, Outcome) {
    if !u.enabled || (u.lockedUntil.Some? && u.lockedUntil.value > e.now) then
      (u, Rejected)
    else if e.passwordOk then
      (Unlocked(u), Succeeded)
    else
      (AfterFailure(if u.lockedUntil.Some? then Unlocked(u) else u, e.recordedAt), Failed)
  }

  /** No lock is in force at now. */
  predicate Open(u: User, now: real) {
    u.enabled && (u.lockedUntil.None? || u.lockedUntil.value <= now)
  }

  /** Who gets in, who is counted, and what that leaves in the row. */
  lemma ServeIff(u: User, e: Login)
    ensures var (after, o) := Serve(u, e);
            var count := if u.lockedUntil.Some? then 1 else u.failedLoginCount + 1;
            && (o == Succeeded <==> Open(u, e.now) && e.passwordOk)
            && (o == Failed <==> Open(u, e.now) && !e.passwordOk)
            && (o == Rejected ==> after == u)
            && (o == Succeeded ==> after == User(u.enabled, 0, None))
            && (o == Failed ==>
                  after == User(u.enabled, count,
                                if count < LOCKOUT_THRESHOLD then None
                                else Some(e.recordedAt + LockoutDuration(count) as real)))
  {
  }

  class UserRow {
    var enabled: bool
    var failedLoginCount: nat
    var lockedUntil: Option<real>

    ghost function Row(): User
      reads this
    {
      User(enabled, failedLoginCount, lockedUntil)
    }

    constructor ()
      ensures Row() == User(true, 0, None)
    {
      enabled, failedLoginCount, lockedUntil := true, 0, None;
    }

    method RecordLoginFailure(recordedAt: real) returns (newCount: nat)
      modifies this
      ensures Row() == AfterFailure(old(Row()), recordedAt)
      ensures newCount == failedLoginCount == old(failedLoginCount) + 1 && enabled == old(enabled)
      ensures lockedUntil == if newCount < LOCKOUT_THRESHOLD then old(lockedUntil)
                             else Some(recordedAt + LockoutDuration(newCount) as real)
    {
      failedLoginCount := failedLoginCount + 1;
      newCount := failedLoginCount;
      if newCount >= LOCKOUT_THRESHOLD {
        lockedUntil := Some(recordedAt + LockoutDuration(newCount) as real);
      }
    }

    method ResetLoginFailures()
      modifies this
      ensures Row() == Unlocked(old(Row()))
    {
      failedLoginCount, lockedUntil := 0, None;
    }

    method AuthenticatePassword(e: Login) returns (outcome: Outcome)
      modifies this
      ensures (Row(), outcome) == Serve(old(Row()), e)
      ensures outcome == Succeeded <==> Open(old(Row()), e.now) && e.passwordOk
      ensures outcome == Failed <==> Open(old(Row()), e.now) && !e.passwordOk
      ensures outcome == Rejected ==> Row() == old(Row())
      ensures outcome == Succeeded ==> failedLoginCount == 0 && lockedUntil == None
    {
      if !enabled {
        return Rejected;
      }
      var seen := lockedUntil;
      if seen.Some? && seen.value > e.now {
        return Rejected;
      }
      if seen.Some? && seen.value <= e.now {
        ResetLoginFailures();
      }
      if !e.passwordOk {
        var _ := RecordLoginFailure(e.recordedAt);
        return Failed;
      }
      ResetLoginFailures();
      return Succeeded;
    }
  }

  /** The statements of one attempt that nothing interrupts. */
  function SerialActions(u: User, e: Login): seq<Action> {
    var first := [Begin(0), ReadRow(0, e.passwordOk)];
    if !u.enabled then first
    else if u.lockedUntil.Some? && u.lockedUntil.value > e.now then first + [CheckLock(0, e.now)]
    else
      var reset := if u.lockedUntil.Some? then [ResetExpired(0)] else [];
      var after := if u.lockedUntil.Some? then 0 else u.failedLoginCount;
      first + [CheckLock(0, e.now)] + reset
      + (if e.passwordOk then [Succeed(0)]
         else if after + 1 >= LOCKOUT_THRESHOLD then [Increment(0), WriteLock(0, e.recordedAt)]
         else [Increment(0)])
  }

  /** The machine's statements tell the outcome: it counts a failure, or writes a success, or neither. */
  lemma OutcomeIsActions(u: User, e: Login)
    ensures Succeed(0) in SerialActions(u, e) <==> Serve(u, e).1 == Succeeded
    ensures Increment(0) in SerialActions(u, e) <==> Serve(u, e).1 == Failed
  {
    var first := [Begin(0), ReadRow(0, e.passwordOk)];
    assert Succeed(0) !in first && Increment(0) !in first;
  }

  ghost predicate Executes(s: State, acts: seq<Action>, s': State)
    decreases |acts|
  {
    if acts == [] then s == s'
    else Enabled(s, acts[0]) && Executes(Apply(s, acts[0]), acts[1..], s')
  }

  /** Serve is the interleaving model restricted to one attempt in flight. */
  lemma ServeIsSerialRun(u: User, e: Login)
    ensures Executes(State(u, [Idle]), SerialActions(u, e), State(Serve(u, e).0, [Idle]))
  {
    var acts := SerialActions(u, e);
    var s := State(u, [Idle]);
    var s1 := Apply(s, acts[0]);
    var s2 := Apply(s1, acts[1]);
    var end := State(Serve(u, e).0, [Idle]);
    assert acts[1..][1..] == acts[2..];
    if !u.enabled {
      assert Executes(s2, acts[2..], end);
    } else {
      var s3 := Apply(s2, acts[2]);
      assert acts[2..][1..] == acts[3..];
      assert Executes(s3, acts[3..], end) by {
        if !(u.lockedUntil.Some? && u.lockedUntil.value > e.now) {
          var s4 := Apply(s3, acts[3]);
          assert acts[3..][1..] == acts[4..];
          if |acts| > 4 {
            var s5 := Apply(s4, acts[4]);
            assert acts[4..][1..] == acts[5..] == [];
            assert Executes(s5, acts[5..], end);
          }
          assert Executes(s4, acts[4..], end);
        }
      }
      assert Executes(s2, acts[2..], end);
    }
    assert Executes(s1, acts[1..], end);
  }

  // ---------------------------------------------------------------- failures per window

  /** The clock never runs backwards, neither inside an attempt nor between attempts. */
  ghost predicate Ordered(es: seq<Login>) {
    && (forall i :: 0 <= i < |es| ==> es[i].now <= es[i].recordedAt)
    && (forall i, j :: 0 <= i < j < |es| ==> es[i].recordedAt <= es[j].now)
  }

  /** Outcomes of serving es in turn, with the clock reading each was recorded at. */
  function Outcomes(u: User, es: seq<Login>): (os: seq<(real, Outcome)>)
    ensures |os| == |es|
    decreases |es|
  {
    if es == [] then [] else [(es[0].recordedAt, Serve(u, es[0]).1)] + Outcomes(Serve(u, es[0]).0, es[1..])
  }

  function FailuresIn(os: seq<(real, Outcome)>, w: real): nat {
    if os == [] then 0
    else (if os[0].1 == Failed && InWindow(os[0].0, w) then 1 else 0) + FailuresIn(os[1..], w)
  }

  ghost predicate NoSuccessIn(os: seq<(real, Outcome)>, w: real) {
    forall o :: o in os && o.1 == Succeeded ==> !InWindow(o.0, w)
  }

  /** What one-at-a-time service keeps: the count reaches the threshold exactly when the row is locked. */
  predicate SerialInv(u: User) {
    if u.lockedUntil.None? then u.failedLoginCount < LOCKOUT_THRESHOLD else u.failedLoginCount == LOCKOUT_THRESHOLD
  }

  lemma ServeKeepsSerialInv(u: User, e: Login)
    requires SerialInv(u)
    ensures SerialInv(Serve(u, e).0)
  {
  }

  lemma {:induction false} NoneAfterWindow(u: User, es: seq<Login>, w: real)
    requires Ordered(es)
    requires forall e :: e in es ==> e.recordedAt >= w + LOCKOUT_BASE_S as real
    ensures FailuresIn(Outcomes(u, es), w) == 0
    decreases |es|
  {
    if es != [] {
      assert es[0] in es;
      NoneAfterWindow(Serve(u, es[0]).0, es[1..], w);
      assert Outcomes(u, es)[1..] == Outcomes(Serve(u, es[0]).0, es[1..]);
    }
  }

  /** A lock that outlasts the window admits no further failure in it. */
  lemma {:induction false} NoneWhileLocked(u: User, es: seq<Login>, w: real)
    requires Ordered(es)
    requires u.lockedUntil.Some? && u.lockedUntil.value >= w + LOCKOUT_BASE_S as real
    ensures FailuresIn(Outcomes(u, es), w) == 0
    decreases |es|
  {
    if es != [] {
      assert Outcomes(u, es)[1..] == Outcomes(Serve(u, es[0]).0, es[1..]);
      if es[0].now >= u.lockedUntil.value {
        NoneAfterWindow(u, es, w);
      } else {
        NoneWhileLocked(Serve(u, es[0]).0, es[1..], w);
      }
    }
  }

  /** From inside the window, an unlocked row leaves room for threshold - count failures. */
  lemma {:induction false} RoomLeft(u: User, es: seq<Login>, w: real)
    requires Ordered(es) && u.lockedUntil.None? && SerialInv(u)
    requires forall e :: e in es ==> e.recordedAt >= w
    requires NoSuccessIn(Outcomes(u, es), w)
    ensures FailuresIn(Outcomes(u, es), w) <= LOCKOUT_THRESHOLD - u.failedLoginCount
    decreases |es|
  {
    if es != [] {
      var (u', o) := Serve(u, es[0]);
      var os := Outcomes(u, es);
      assert os[1..] == Outcomes(u', es[1..]);
      assert os[0] in os;
      if !InWindow(es[0].recordedAt, w) {
        assert es[0] in es;
        NoneAfterWindow(u, es, w);
      } else if u'.lockedUntil.Some? {
        NoneWhileLocked(u', es[1..], w);
      } else {
        assert forall x :: x in os[1..] ==> x in os;
        RoomLeft(u', es[1..], w);
      }
    }
  }

  /**
   Served one at a time from any state that service can leave, a window of LOCKOUT_BASE_S
   seconds with no successful login records at most LOCKOUT_THRESHOLD failures.
   */
  lemma {:induction false} FailuresPerWindow(u: User, es: seq<Login>, w: real)
    requires SerialInv(u) && Ordered(es)
    requires NoSuccessIn(Outcomes(u, es), w)
    ensures FailuresIn(Outcomes(u, es), w) <= LOCKOUT_THRESHOLD
    decreases |es|
  {
    if es != [] {
      var (u', o) := Serve(u, es[0]);
      var os := Outcomes(u, es);
      assert os[1..] == Outcomes(u', es[1..]);
      assert forall x :: x in os[1..] ==> x in os;
      ServeKeepsSerialInv(u, es[0]);
      if es[0].recordedAt < w || o == Rejected {
        FailuresPerWindow(u', es[1..], w);
      } else if !InWindow(es[0].recordedAt, w) {
        NoneAfterWindow(u, es, w);
      } else {
        assert os[0] in os;
        if u'.lockedUntil.Some? {
          NoneWhileLocked(u', es[1..], w);
        } else {
          RoomLeft(u', es[1..], w);
        }
      }
    }
  }
}
