/** Session lookup and rotation of backend/auth.py for one caller, on a table updated in place. */
module SessionStore {
  import opened Wrappers
  import opened SessionRotation

  class SessionTable {
    var table: Table
    var used: set<Token>

    ghost predicate Valid()
      reads this
    {
      UsedOk(State(table, [], used, map[])) && TableOk(table)
    }

    constructor ()
      ensures Valid() && table == map[]
    {
      table, used := map[], {};
    }

    /** An expired row is evicted by the lookup that meets it. */
    method GetSession(token: Token, now: real) returns (found: bool)
      requires Valid()
      modifies this`table
      ensures Valid()
      ensures found <==> token in old(table) && now <= old(table)[token].expiresAt
      ensures table == if found then old(table) else old(table) - {token}
    {
      found := token in table && !(table[token].expiresAt < now);
      if !found && token in table {
        var kept := table - {token};
        assert forall x, p :: ProducedBy(kept, x, p) <==> ProducedBy(table, x, p) && x != token;
        table := kept;
      }
    }

    /** None stands for the ValueError, whose transaction is undone. */
    method RotateSession(prior: Token, now: real, minted: Token, expires: real) returns (answer: Option<Token>)
      requires Valid() && minted !in used
      modifies this
      ensures Valid()
      ensures answer.None? <==> !Live(old(table), prior, now)
      ensures answer.None? ==> table == old(table)
      ensures answer.Some? ==>
                if HasLiveSuccessor(old(table), prior, now)
                then answer == old(table)[prior].rotatedTo && table == old(table)
                else answer == Some(minted) && table == Rotated(old(table), prior, now, minted, expires)
      ensures answer.Some? ==> ProducedBy(table, answer.value, prior) && OnlyProduct(table, prior, answer)
      ensures answer == Some(minted) ==> Leaves(old(table), table, prior, now, minted, expires)
    {
      if prior !in table || table[prior].expiresAt < now {
        return None;
      }
      var succ := table[prior].rotatedTo;
      if succ.Some? && Live(table, succ.value, now) {
        return succ;
      }
      RotatedUsed(table, used, prior, now, minted, expires);
      RotatedOk(table, used, prior, now, minted, expires);
      RotatedLeaves(table, used, prior, now, minted, expires);
      if succ.Some? && succ.value in table {
        table := table - {succ.value};
      }
      table := table[minted := Row(expires, None, Some(prior))];
      used := used + {minted};
      table := table[prior := table[prior].(rotatedTo := Some(minted), expiresAt := now + ROTATION_GRACE_S)];
      RotatedByParts(old(table), prior, now, minted, expires);
      return Some(minted);
    }
  }

  predicate HasLiveSuccessor(t: Table, prior: Token, now: real)
    requires prior in t
  {
    t[prior].rotatedTo.Some? && Live(t, t[prior].rotatedTo.value, now)
  }

  /** What the concurrent model commits for a rotation that has to create a session. */
  function Rotated(t: Table, prior: Token, now: real, minted: Token, expires: real): Table
    requires prior in t
  {
    var succ := t[prior].rotatedTo;
    var evicted := if succ.Some? && succ.value in t then succ else None;
    Committed(t, Finished(prior, evicted, Some((minted, expires)), Some(now + ROTATION_GRACE_S), minted))
  }

  /**
   The new session ends at expires, the rotated token points at it and ends after the grace
   period, the successor that the token named before is gone, and every other row is as it was.
   */
  ghost predicate Leaves(t: Table, t': Table, prior: Token, now: real, minted: Token, expires: real) {
    && prior in t && prior in t' && minted in t'
    && t'[minted].expiresAt == expires && t'[minted].rotatedTo == None
    && t'[prior].rotatedTo == Some(minted) && t'[prior].expiresAt == now + ROTATION_GRACE_S
    && t'[prior].origin == t[prior].origin
    && forall x :: x != minted && x != prior ==>
         (x in t' <==> x in t && t[prior].rotatedTo != Some(x)) && (x in t' ==> t'[x] == t[x])
  }

  lemma RotatedByParts(t: Table, prior: Token, now: real, minted: Token, expires: real)
    requires prior in t && minted != prior && t[prior].rotatedTo != Some(prior)
    ensures var succ := t[prior].rotatedTo;
            var t1 := if succ.Some? && succ.value in t then t - {succ.value} else t;
            var t2 := t1[minted := Row(expires, None, Some(prior))];
            Rotated(t, prior, now, minted, expires)
            == t2[prior := t2[prior].(rotatedTo := Some(minted), expiresAt := now + ROTATION_GRACE_S)]
  {
  }

  lemma RotatedLeaves(t: Table, used: set<Token>, prior: Token, now: real, minted: Token, expires: real)
    requires UsedOk(State(t, [], used, map[])) && minted !in used
    requires Live(t, prior, now) && !HasLiveSuccessor(t, prior, now)
    ensures Leaves(t, Rotated(t, prior, now, minted, expires), prior, now, minted, expires)
  {
    assert t[prior].rotatedTo != Some(prior);
    assert prior in used && minted !in t;
  }

  // ---------------------------------------------------------------- without overlap

  ghost predicate Executes(lockKey: Token -> int, s: State, acts: seq<Action>, s': State)
    decreases |acts|
  {
    if acts == [] then s == s'
    else Enabled(lockKey, s, acts[0]) && Executes(lockKey, Apply(lockKey, s, acts[0]), acts[1..], s')
  }

  lemma {:induction false} ExecutesSnoc(lockKey: Token -> int, s: State, acts: seq<Action>, m: State, a: Action)
    requires Executes(lockKey, s, acts, m) && Enabled(lockKey, m, a)
    ensures Executes(lockKey, s, acts + [a], Apply(lockKey, m, a))
    decreases |acts|
  {
    if acts == [] {
      assert acts + [a] == [a] && [a][1..] == [];
    } else {
      assert (acts + [a])[1..] == acts[1..] + [a] && (acts + [a])[0] == acts[0];
      ExecutesSnoc(lockKey, Apply(lockKey, s, acts[0]), acts[1..], m, a);
    }
  }

  function Alone(t: Table, used: set<Token>, p: Phase): State {
    State(t, [p], used, map[])
  }

  lemma SerialStep(lockKey: Token -> int, s: State, acts: seq<Action>, m: State, a: Action, m': State)
    requires Executes(lockKey, s, acts, m) && Enabled(lockKey, m, a) && Apply(lockKey, m, a) == m'
    ensures Executes(lockKey, s, acts + [a], m')
  {
    ExecutesSnoc(lockKey, s, acts, m, a);
  }

  /** The steps up to the point where the old row has been read under the lock. */
  lemma SerialStart(lockKey: Token -> int, t: Table, used: set<Token>, prior: Token)
    returns (acts: seq<Action>)
    ensures Executes(lockKey, Alone(t, used, Idle), acts, Alone(t, used, Locked(prior)))
  {
    var s := Alone(t, used, Idle);
    acts := [];
    SerialStep(lockKey, s, acts, s, Start(0, prior), Alone(t, used, Waiting(prior)));
    acts := acts + [Start(0, prior)];
    SerialStep(lockKey, s, acts, Alone(t, used, Waiting(prior)), Acquire(0), Alone(t, used, Locked(prior)));
    acts := acts + [Acquire(0)];
  }

  /** Up to the point where a session has to be created. */
  lemma SerialToCreate(lockKey: Token -> int, t: Table, used: set<Token>, prior: Token, now: real)
    returns (acts: seq<Action>)
    requires Live(t, prior, now) && !HasLiveSuccessor(t, prior, now)
    ensures var succ := t[prior].rotatedTo;
            Executes(lockKey, Alone(t, used, Idle), acts,
                     Alone(t, used, CreateDue(prior, if succ.Some? && succ.value in t then succ else None)))
  {
    var s, succ := Alone(t, used, Idle), t[prior].rotatedTo;
    var locked := Alone(t, used, Locked(prior));
    acts := SerialStart(lockKey, t, used, prior);
    if succ.None? {
      SerialStep(lockKey, s, acts, locked, ReadOld(0, now), Alone(t, used, CreateDue(prior, None)));
      acts := acts + [ReadOld(0, now)];
    } else {
      var found := Alone(t, used, Successor(prior, succ.value));
      SerialStep(lockKey, s, acts, locked, ReadOld(0, now), found);
      acts := acts + [ReadOld(0, now)];
      if succ.value !in t {
        SerialStep(lockKey, s, acts, found, ReadSuccessor(0, now), Alone(t, used, CreateDue(prior, None)));
        acts := acts + [ReadSuccessor(0, now)];
      } else {
        var due := Alone(t, used, EvictDue(prior, succ.value));
        SerialStep(lockKey, s, acts, found, ReadSuccessor(0, now), due);
        acts := acts + [ReadSuccessor(0, now)];
        SerialStep(lockKey, s, acts, due, Evict(0), Alone(t, used, CreateDue(prior, succ)));
        acts := acts + [Evict(0)];
      }
    }
  }

  /** A rotation that nothing interrupts is a run of one caller, with the effect of RotateSession. */
  lemma RotateIsSerialRun(lockKey: Token -> int, t: Table, used: set<Token>, prior: Token, now: real,
                          minted: Token, expires: real) returns (acts: seq<Action>, s': State)
    requires minted !in used
    ensures Executes(lockKey, Alone(t, used, Idle), acts, s') && s'.callers == [Idle]
    ensures !Live(t, prior, now) ==> s'.table == t && s'.answered == map[]
    ensures Live(t, prior, now) ==>
              if HasLiveSuccessor(t, prior, now)
              then s'.table == t && s'.answered == map[prior := t[prior].rotatedTo.value]
              else s'.table == Rotated(t, prior, now, minted, expires) && s'.answered == map[prior := minted]
  {
    var s := Alone(t, used, Idle);
    if !Live(t, prior, now) {
      acts := SerialStart(lockKey, t, used, prior);
      SerialStep(lockKey, s, acts, Alone(t, used, Locked(prior)), ReadOld(0, now), s);
      acts, s' := acts + [ReadOld(0, now)], s;
    } else if HasLiveSuccessor(t, prior, now) {
      acts, s' := SerialGrace(lockKey, t, used, prior, now);
    } else {
      acts := SerialToCreate(lockKey, t, used, prior, now);
      var rest;
      rest, s' := SerialCreate(lockKey, t, used, prior, now, minted, expires, acts);
      acts := rest;
    }
  }

  lemma SerialGrace(lockKey: Token -> int, t: Table, used: set<Token>, prior: Token, now: real)
    returns (acts: seq<Action>, s': State)
    requires Live(t, prior, now) && HasLiveSuccessor(t, prior, now)
    ensures Executes(lockKey, Alone(t, used, Idle), acts, s') && s'.callers == [Idle]
    ensures s'.table == t && s'.answered == map[prior := t[prior].rotatedTo.value]
  {
    var s, succ := Alone(t, used, Idle), t[prior].rotatedTo.value;
    var found, done := Alone(t, used, Successor(prior, succ)), Alone(t, used, Finished(prior, None, None, None, succ));
    acts := SerialStart(lockKey, t, used, prior);
    SerialStep(lockKey, s, acts, Alone(t, used, Locked(prior)), ReadOld(0, now), found);
    acts := acts + [ReadOld(0, now)];
    SerialStep(lockKey, s, acts, found, ReadSuccessor(0, now), done);
    acts := acts + [ReadSuccessor(0, now)];
    s' := Apply(lockKey, done, Commit(0));
    SerialStep(lockKey, s, acts, done, Commit(0), s');
    acts := acts + [Commit(0)];
  }

  lemma SerialCreate(lockKey: Token -> int, t: Table, used: set<Token>, prior: Token, now: real,
                     minted: Token, expires: real, before: seq<Action>) returns (acts: seq<Action>, s': State)
    requires prior in t && minted !in used
    requires var succ := t[prior].rotatedTo;
             Executes(lockKey, Alone(t, used, Idle), before,
                      Alone(t, used, CreateDue(prior, if succ.Some? && succ.value in t then succ else None)))
    ensures Executes(lockKey, Alone(t, used, Idle), acts, s') && s'.callers == [Idle]
    ensures s'.table == Rotated(t, prior, now, minted, expires) && s'.answered == map[prior := minted]
  {
    var s, succ := Alone(t, used, Idle), t[prior].rotatedTo;
    var evicted := if succ.Some? && succ.value in t then succ else None;
    var due := Alone(t, used, CreateDue(prior, evicted));
    var marking := Alone(t, used + {minted}, MarkDue(prior, evicted, minted, expires));
    var done := Alone(t, used + {minted},
                      Finished(prior, evicted, Some((minted, expires)), Some(now + ROTATION_GRACE_S), minted));
    SerialStep(lockKey, s, before, due, CreateNew(0, minted, expires), marking);
    acts := before + [CreateNew(0, minted, expires)];
    SerialStep(lockKey, s, acts, marking, MarkOld(0, now), done);
    acts := acts + [MarkOld(0, now)];
    s' := Apply(lockKey, done, Commit(0));
    SerialStep(lockKey, s, acts, done, Commit(0), s');
    acts := acts + [Commit(0)];
  }

  lemma RotatedUsed(t: Table, used: set<Token>, prior: Token, now: real, minted: Token, expires: real)
    requires UsedOk(State(t, [], used, map[])) && prior in t
    ensures UsedOk(State(Rotated(t, prior, now, minted, expires), [], used + {minted}, map[]))
  {
    var t' := Rotated(t, prior, now, minted, expires);
    forall x | x in t' ensures x in used + {minted} && RowMentions(t'[x]) <= used + {minted} {
      assert x in t ==> x in used && RowMentions(t[x]) <= used;
    }
  }

  lemma RotatedOk(t: Table, used: set<Token>, prior: Token, now: real, minted: Token, expires: real)
    requires UsedOk(State(t, [], used, map[])) && TableOk(t) && minted !in used
    requires Live(t, prior, now) && !HasLiveSuccessor(t, prior, now)
    ensures var t' := Rotated(t, prior, now, minted, expires);
            TableOk(t') && ProducedBy(t', minted, prior) && OnlyProduct(t', prior, Some(minted))
  {
    var succ := t[prior].rotatedTo;
    var evicted := if succ.Some? && succ.value in t then succ else None;
    var p := Finished(prior, evicted, Some((minted, expires)), Some(now + ROTATION_GRACE_S), minted);
    assert OnlyProduct(t, prior, evicted);
    assert forall x :: x in t ==> x in used && RowMentions(t[x]) <= used;
    CommittedTableOk(t, p);
    CommittedProducts(t, p, minted, prior);
  }
}
