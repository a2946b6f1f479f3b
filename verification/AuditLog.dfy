/** One uninterrupted call of audit.log (backend/audit.py). */
module AuditLog {
  import opened Wrappers
  import opened AuditChain
  import opened AuditWriters

  // The table is updated in place, and the effect is that of the interleaving model run by a
  // single writer.

  /** The lowest-id row the dedupe query finds. */
  function FirstMatch(rows: seq<Row>, q: Request): (id: Option<nat>)
    ensures id.Some? <==> Duplicated(rows, q)
    ensures id.Some? ==> exists i :: 0 <= i < |rows| && rows[i].id == id.value && Matches(rows[i], q)
                                     && forall j :: 0 <= j < i ==> !Matches(rows[j], q)
  {
    if rows == [] then None
    else
      var prefix := rows[..|rows| - 1];
      var found := FirstMatch(prefix, q);
      assert rows == prefix + [rows[|rows| - 1]];
      if found.Some? then
        assert Duplicated(rows, q) by {
          var i :| 0 <= i < |prefix| && Matches(prefix[i], q);
          assert Matches(rows[i], q);
        }
        found
      else if Matches(rows[|rows| - 1], q) then
        assert forall j :: 0 <= j < |prefix| ==> rows[j] == prefix[j];
        Some(rows[|rows| - 1].id)
      else
        assert forall j :: 0 <= j < |prefix| ==> rows[j] == prefix[j];
        None
  }

  /** The row holds the event of the request, in the same whole second. */
  predicate SameSecond(r: Row, q: Request) {
    r.action == q.action && r.entityKind == q.entityKind && r.entityId == Some(q.entityId) && r.ts.Floor == q.ts.Floor
  }

  lemma StoredIff(rows: seq<Row>, q: Request)
    requires WholeSecond(q.ts)
    ensures FirstMatch(rows, q).Some? <==> exists i :: 0 <= i < |rows| && SameSecond(rows[i], q)
  {
    DuplicatedIff(rows, q);
  }

  class AuditTable {
    const env: Env
    var rows: Table
    var nextId: nat

    ghost predicate Valid()
      reads this
    {
      TableOk(env, rows, nextId)
    }

    ghost function Chain(tenant: string): seq<Row>
      reads this
    {
      Scan(rows, tenant, nextId)
    }

    constructor (env: Env)
      ensures Valid() && this.env == env && rows == map[] && nextId == 0
    {
      this.env := env;
      rows, nextId := map[], 0;
    }

    /** SELECT curr_hash ... ORDER BY id DESC LIMIT 1, or "" for a tenant without rows. */
    method LastHashForTenant(tenant: string) returns (prev: string)
      ensures prev == Tail(Chain(tenant))
    {
      var i: nat := nextId;
      while i > 0
        invariant Tail(Scan(rows, tenant, i)) == Tail(Chain(tenant))
      {
        i := i - 1;
        if i in rows && rows[i].tenant == tenant {
          assert Scan(rows, tenant, i + 1) == Scan(rows, tenant, i) + [rows[i]];
          return rows[i].currHash;
        }
        assert Scan(rows, tenant, i + 1) == Scan(rows, tenant, i);
      }
      return "";
    }

    /** Returns the id of the new row, or of the row that already records the event in this second. */
    method Log(q: Request) returns (id: nat)
      requires Sound(env) && Valid() && Wellformed(q)
      modifies this
      ensures Valid()
      ensures FirstMatch(old(Chain(q.tenant)), q).Some? ==>
                rows == old(rows) && nextId == old(nextId) && id == FirstMatch(old(Chain(q.tenant)), q).value
      ensures FirstMatch(old(Chain(q.tenant)), q).None? ==>
                && id == old(nextId) && nextId == id + 1
                && rows == old(rows)[id := NewRow(env, id, Tail(old(Chain(q.tenant))), q)]
                && Records(env, rows[id], id, Tail(old(Chain(q.tenant))), q)
      ensures WholeSecond(q.ts) ==>
                (rows == old(rows) <==>
                 exists i :: 0 <= i < |old(Chain(q.tenant))| && SameSecond(old(Chain(q.tenant))[i], q))
      ensures forall tenant :: tenant != q.tenant ==> Chain(tenant) == old(Chain(tenant))
      ensures Chain(q.tenant) == old(Chain(q.tenant)) || Chain(q.tenant) == old(Chain(q.tenant)) + [rows[id]]
    {
      if WholeSecond(q.ts) {
        StoredIff(Chain(q.tenant), q);
      }
      NewRowRecords(env, nextId, Tail(Chain(q.tenant)), q);
      var prev := LastHashForTenant(q.tenant);
      var existing := FirstMatch(Scan(rows, q.tenant, nextId), q);
      if existing.Some? {
        return existing.value;
      }
      id := nextId;
      LogKeepsTable(env, rows, id, q);
      rows, nextId := rows[id := NewRow(env, id, prev, q)], id + 1;
    }
  }

  ghost predicate TableOk(env: Env, t: Table, n: nat) {
    && IdsBelow(t, n)
    && forall tenant :: ChainOk(env, t, n, tenant)
  }

  ghost predicate ChainOk(env: Env, t: Table, n: nat, tenant: string) {
    GoodChain(env, Scan(t, tenant, n))
  }

  /** The insert appends to the chain of its tenant and leaves every other chain alone. */
  lemma LogKeepsTable(env: Env, t: Table, n: nat, q: Request)
    requires Sound(env) && Wellformed(q) && TableOk(env, t, n) && !Duplicated(Scan(t, q.tenant, n), q)
    ensures var row := NewRow(env, n, Tail(Scan(t, q.tenant, n)), q);
            && TableOk(env, t[n := row], n + 1)
            && Scan(t[n := row], q.tenant, n + 1) == Scan(t, q.tenant, n) + [row]
            && var m := n + 1;
               forall tenant :: tenant != q.tenant ==> Scan(t[n := row], tenant, m) == Scan(t, tenant, n)
  {
    var row := NewRow(env, n, Tail(Scan(t, q.tenant, n)), q);
    var t', m := t[n := row], n + 1;
    forall tenant
      ensures ChainOk(env, t', m, tenant) && (tenant != q.tenant ==> Scan(t', tenant, m) == Scan(t, tenant, n))
    {
      assert ChainOk(env, t, n, tenant);
      LogKeepsChain(env, t, n, q, tenant);
    }
    ScanAppend(t, q.tenant, n, row);
  }

  lemma LogKeepsChain(env: Env, t: Table, n: nat, q: Request, tenant: string)
    requires Sound(env) && Wellformed(q) && IdsBelow(t, n) && ChainOk(env, t, n, tenant)
    requires !Duplicated(Scan(t, q.tenant, n), q)
    ensures var t' := t[n := NewRow(env, n, Tail(Scan(t, q.tenant, n)), q)];
            ChainOk(env, t', n + 1, tenant) && (tenant != q.tenant ==> Scan(t', tenant, n + 1) == Scan(t, tenant, n))
  {
    ScanAppend(t, tenant, n, NewRow(env, n, Tail(Scan(t, q.tenant, n)), q));
    if tenant == q.tenant {
      ChainExtends(env, Scan(t, tenant, n), n, q);
    }
  }

  ghost function AfterLog(env: Env, t: Table, nextId: nat, q: Request): (Table, nat) {
    var chain := Scan(t, q.tenant, nextId);
    if Duplicated(chain, q) then (t, nextId)
    else (t[nextId := NewRow(env, nextId, Tail(chain), q)], nextId + 1)
  }

  /** Number of statements of one call in a transaction of its own. */
  ghost function SerialLength(t: Table, nextId: nat, q: Request): nat {
    if Duplicated(Scan(t, q.tenant, nextId), q) then 6 else 7
  }

  ghost function SerialAction(t: Table, nextId: nat, q: Request, k: nat): Action {
    if k == 0 then Begin(0)
    else if k == 1 then StartAppend(0, q)
    else if k == 2 then TakeLock(0)
    else if k == 3 then ReadTail(0)
    else if k == 4 then CheckDuplicate(0)
    else if k == 5 && SerialLength(t, nextId, q) == 7 then Insert(0)
    else Commit(0)
  }

  /** The states those statements pass through when nobody else moves. */
  ghost function SerialState(c: Config, t: Table, nextId: nat, q: Request, k: nat): State {
    var chain := Scan(t, q.tenant, nextId);
    var lock := Locked(c.lockKey(q.tenant));
    var (t', n') := AfterLog(c.env, t, nextId, q);
    if k == 0 then State(t, nextId, [Writer([], Closed)])
    else if k == 1 then State(t, nextId, [Writer([], Open)])
    else if k == 2 then State(t, nextId, [Writer([], WantLock(q))])
    else if k == 3 then State(t, nextId, [Writer([lock], HaveLock(q))])
    else if k == 4 then State(t, nextId, [Writer([lock], TailRead(q, Tail(chain)))])
    else if k == 5 && SerialLength(t, nextId, q) == 6 then State(t, nextId, [Writer([lock], Open)])
    else if k == 5 then State(t, nextId, [Writer([lock], Deduped(q, Tail(chain)))])
    else if k == 6 && SerialLength(t, nextId, q) == 7 then
      State(t, nextId + 1, [Writer([lock, Inserted(NewRow(c.env, nextId, Tail(chain), q))], Open)])
    else State(t', n', [Writer([], Closed)])
  }

  lemma SerialVisible(t: Table, key: int, row: Row)
    ensures t + RowsOf([Locked(key)]) == t
    ensures t + RowsOf([Locked(key), Inserted(row)]) == t[row.id := row]
  {
    assert [] + [Locked(key)] == [Locked(key)];
    RowsOfAppend([], Locked(key));
    assert [Locked(key)] + [Inserted(row)] == [Locked(key), Inserted(row)];
    RowsOfAppend([Locked(key)], Inserted(row));
  }

  ghost predicate StepsTo(c: Config, s: State, a: Action, s': State) {
    Enabled(c, s, a) && Apply(c, s, a) == s'
  }

  lemma SerialReads(c: Config, t: Table, nextId: nat, q: Request, k: nat)
    requires Wellformed(q) && k <= 4
    ensures StepsTo(c, SerialState(c, t, nextId, q, k), SerialAction(t, nextId, q, k),
                    SerialState(c, t, nextId, q, k + 1))
  {
    SerialVisible(t, c.lockKey(q.tenant), NewRow(c.env, nextId, Tail(Scan(t, q.tenant, nextId)), q));
    assert [] + [Locked(c.lockKey(q.tenant))] == [Locked(c.lockKey(q.tenant))];
    var s := SerialState(c, t, nextId, q, k);
    var s' := Apply(c, s, SerialAction(t, nextId, q, k));
    assert s'.writers == [s'.writers[0]];
  }

  lemma SerialWrites(c: Config, t: Table, nextId: nat, q: Request, k: nat)
    requires Wellformed(q) && 5 <= k < SerialLength(t, nextId, q)
    ensures StepsTo(c, SerialState(c, t, nextId, q, k), SerialAction(t, nextId, q, k),
                    SerialState(c, t, nextId, q, k + 1))
  {
    var row := NewRow(c.env, nextId, Tail(Scan(t, q.tenant, nextId)), q);
    SerialVisible(t, c.lockKey(q.tenant), row);
    assert [Locked(c.lockKey(q.tenant))] + [Inserted(row)] == [Locked(c.lockKey(q.tenant)), Inserted(row)];
    var s := SerialState(c, t, nextId, q, k);
    var s' := Apply(c, s, SerialAction(t, nextId, q, k));
    assert s'.writers == [s'.writers[0]];
  }

  lemma SerialStep(c: Config, t: Table, nextId: nat, q: Request, k: nat)
    requires Wellformed(q) && k < SerialLength(t, nextId, q)
    ensures StepsTo(c, SerialState(c, t, nextId, q, k), SerialAction(t, nextId, q, k),
                    SerialState(c, t, nextId, q, k + 1))
  {
    if k <= 4 {
      SerialReads(c, t, nextId, q, k);
    } else {
      SerialWrites(c, t, nextId, q, k);
    }
  }

  /** With nobody else in the way, the steps of the interleaving model have exactly the effect of Log. */
  lemma LogIsSerialRun(c: Config, t: Table, nextId: nat, q: Request)
    requires Wellformed(q)
    ensures SerialState(c, t, nextId, q, 0) == State(t, nextId, [Writer([], Closed)])
    ensures forall k: nat :: k < SerialLength(t, nextId, q) ==>
              StepsTo(c, SerialState(c, t, nextId, q, k), SerialAction(t, nextId, q, k),
                      SerialState(c, t, nextId, q, k + 1))
    ensures var (t', n') := AfterLog(c.env, t, nextId, q);
            SerialState(c, t, nextId, q, SerialLength(t, nextId, q)) == State(t', n', [Writer([], Closed)])
  {
    forall k: nat | k < SerialLength(t, nextId, q)
      ensures StepsTo(c, SerialState(c, t, nextId, q, k), SerialAction(t, nextId, q, k),
                      SerialState(c, t, nextId, q, k + 1))
    {
      SerialStep(c, t, nextId, q, k);
    }
  }

  // ---------------------------------------------------------------- one event twice

  lemma DuplicatedSnoc(chain: seq<Row>, row: Row, q: Request)
    requires !Duplicated(chain, q)
    ensures Duplicated(chain + [row], q) <==> Matches(row, q)
  {
    var longer := chain + [row];
    assert longer[|chain|] == row;
    forall i | 0 <= i < |chain| ensures !Matches(longer[i], q) {
      assert longer[i] == chain[i];
    }
  }

  lemma LogAppends(env: Env, t: Table, n: nat, q: Request)
    requires IdsBelow(t, n) && !Duplicated(Scan(t, q.tenant, n), q)
    ensures var (t', n') := AfterLog(env, t, n, q);
            n' == n + 1 && Scan(t', q.tenant, n') == Scan(t, q.tenant, n) +
                [NewRow(env, n, Tail(Scan(t, q.tenant, n)), q)]
  {
    ScanAppend(t, q.tenant, n, NewRow(env, n, Tail(Scan(t, q.tenant, n)), q));
  }

  /** An event logged twice at one reading is stored once exactly when that reading's window is its second. */
  lemma RepeatStoredOnceIff(env: Env, t: Table, n: nat, q: Request)
    requires IdsBelow(t, n) && !Duplicated(Scan(t, q.tenant, n), q)
    ensures var (t1, n1) := AfterLog(env, t, n, q);
            && (Duplicated(Scan(t1, q.tenant, n1), q) <==> WholeSecond(q.ts))
            && (AfterLog(env, t1, n1, q) == (t1, n1) <==> WholeSecond(q.ts))
  {
    var row := NewRow(env, n, Tail(Scan(t, q.tenant, n)), q);
    LogAppends(env, t, n, q);
    DuplicatedSnoc(Scan(t, q.tenant, n), row, q);
    OwnWindowIff(q.ts);
    assert Matches(row, q) <==> InDedupeWindow(q.ts, q.ts);
  }

  /** The states and actions of a single writer that logs q twice, from an empty table. */
  ghost function TwiceState(c: Config, q: Request, k: nat): State {
    var (t1, n1) := AfterLog(c.env, map[], 0, q);
    if k <= 7 then SerialState(c, map[], 0, q, k) else SerialState(c, t1, n1, q, k - 7)
  }

  ghost function TwiceAction(c: Config, q: Request, k: nat): Action {
    var (t1, n1) := AfterLog(c.env, map[], 0, q);
    if k < 7 then SerialAction(map[], 0, q, k) else SerialAction(t1, n1, q, k - 7)
  }

  lemma TwiceStep(c: Config, q: Request, k: nat)
    requires Wellformed(q) && !WholeSecond(q.ts) && k < 14
    ensures StepsTo(c, TwiceState(c, q, k), TwiceAction(c, q, k), TwiceState(c, q, k + 1))
  {
    var (t1, n1) := AfterLog(c.env, map[], 0, q);
    assert Scan(map[], q.tenant, 0) == [];
    RepeatStoredOnceIff(c.env, map[], 0, q);
    if k < 7 {
      SerialStep(c, map[], 0, q, k);
    } else {
      SerialStep(c, t1, n1, q, k - 7);
    }
  }

  /** Before the epoch one event can be stored twice in its second: any reading inside a second will do. */
  lemma StoredTwiceBeforeEpoch(c: Config, q: Request) returns (states: seq<State>, acts: seq<Action>)
    requires Wellformed(q) && !WholeSecond(q.ts)
    ensures IsRun(c, states, acts)
    ensures var s := states[|acts|];
            var rows := Scan(s.table, q.tenant, s.nextId);
            |rows| == 2 && SameKey(rows[0], rows[1]) && rows[0].ts.Floor == rows[1].ts.Floor
  {
    states := seq(15, k requires 0 <= k < 15 => TwiceState(c, q, k));
    acts := seq(14, k requires 0 <= k < 14 => TwiceAction(c, q, k));
    forall k | 0 <= k < 14 ensures Enabled(c, states[k], acts[k]) && states[k + 1] == Apply(c, states[k], acts[k]) {
      TwiceStep(c, q, k);
    }
    TwiceRows(c, q);
  }

  lemma TwiceRows(c: Config, q: Request)
    requires !WholeSecond(q.ts)
    ensures var s := TwiceState(c, q, 14);
            var rows := Scan(s.table, q.tenant, s.nextId);
            |rows| == 2 && SameKey(rows[0], rows[1]) && rows[0].ts.Floor == rows[1].ts.Floor
  {
    var (t1, n1) := AfterLog(c.env, map[], 0, q);
    assert Scan(map[], q.tenant, 0) == [];
    LogAppends(c.env, map[], 0, q);
    RepeatStoredOnceIff(c.env, map[], 0, q);
    LogAppends(c.env, t1, n1, q);
  }
}
