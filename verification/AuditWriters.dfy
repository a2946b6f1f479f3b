/** Concurrent writers of the audit log of backend/audit.py. */
module AuditWriters {
  import opened Wrappers
  import opened Json
  import opened AuditChain
  import CanonicalJson

  // Any number of writers append to any number of tenants' chains, each inside a database
  // transaction.  The steps of one append (take the tenant's advisory lock, read the tail,
  // look for a duplicate, insert) interleave with every other writer's, with commits, with
  // rollbacks to any savepoint, and with tenants whose lock keys collide.

  // ---------------------------------------------------------------- the table

  /** Committed or visible rows by primary key. */
  type Table = map<nat, Row>

  /** SELECT ... WHERE tenant_id = tenant ORDER BY id, over the ids below n. */
  function Scan(t: Table, tenant: string, n: nat): seq<Row> {
    if n == 0 then []
    else Scan(t, tenant, n - 1) + (if n - 1 in t && t[n - 1].tenant == tenant then [t[n - 1]] else [])
  }

  /** Python's int(): toward zero. */
  function Truncate(ts: real): int {
    if ts >= 0.0 then ts.Floor else -((-ts).Floor)
  }

  datatype Request = Request(
    tenant: string, action: string, entityKind: string, entityId: string,
    before: Json, after: Json, actor: string,
    sessionId: Option<string>, guildId: Option<string>, ts: real)

  /** The row the dedupe query of a request would find. */
  predicate Matches(r: Row, q: Request) {
    && r.action == q.action && r.entityKind == q.entityKind && r.entityId == Some(q.entityId)
    && Truncate(q.ts) as real <= r.ts < (Truncate(q.ts) + 1) as real
  }

  predicate Duplicated(rows: seq<Row>, q: Request) {
    exists i :: 0 <= i < |rows| && Matches(rows[i], q)
  }

  function NewRow(env: Env, id: nat, prev: string, q: Request): Row {
    var text := CanonicalText(env, q);
    Row(id, q.tenant, q.ts, q.actor, q.action, q.entityKind, Some(q.entityId),
        Text(q.before, Spaced), Text(q.after, Spaced), prev, env.hash(prev + text), q.sessionId, q.guildId)
  }

  function CanonicalText(env: Env, q: Request): string {
    CanonicalJson.Canonical(Payload(q.action, q.entityKind, q.entityId, q.before, q.after, q.actor)) + env.stamp(q.ts)
  }

  /** The payload is a JSON document; both halves are objects, so their texts are not empty. */
  ghost predicate Wellformed(q: Request) {
    Valid(q.before) && Valid(q.after) && q.before.Obj? && q.after.Obj?
  }

  // ---------------------------------------------------------------- writers

  /** What a transaction has done so far, oldest first. */
  datatype Event = Locked(key: int) | Inserted(row: Row)

  datatype Phase =
    | Closed                              // no transaction
    | Open                                // between statements of the caller's transaction
    | WantLock(q: Request)
    | HaveLock(q: Request)
    | TailRead(q: Request, prev: string)
    | Deduped(q: Request, prev: string)

  datatype Writer = Writer(log: seq<Event>, phase: Phase)

  /** lockKey is hashtext("audit-chain-" + tenant): tenants may share a key. */
  datatype Config = Config(env: Env, lockKey: string -> int)

  datatype State = State(table: Table, nextId: nat, writers: seq<Writer>)

  function RowsOf(log: seq<Event>): Table {
    if log == [] then map[]
    else
      var e := log[|log| - 1];
      var rest := RowsOf(log[..|log| - 1]);
      if e.Inserted? then rest[e.row.id := e.row] else rest
  }

  function KeysOf(log: seq<Event>): set<int> {
    set e | e in log && e.Locked? :: e.key
  }

  /** Read committed: what is committed now, and the writer's own rows. */
  function Visible(s: State, w: nat): Table
    requires w < |s.writers|
  {
    s.table + RowsOf(s.writers[w].log)
  }

  function VisibleChain(s: State, w: nat, tenant: string): seq<Row>
    requires w < |s.writers|
  {
    Scan(Visible(s, w), tenant, s.nextId)
  }

  datatype Action =
    | Begin(w: nat)
    | StartAppend(w: nat, q: Request)
    | TakeLock(w: nat)
    | ReadTail(w: nat)
    | CheckDuplicate(w: nat)
    | Insert(w: nat)
    | RollbackTo(w: nat, n: nat)     // to the savepoint taken when the log had n events
    | Commit(w: nat)
    | Abort(w: nat)

  ghost predicate Enabled(c: Config, s: State, a: Action) {
    && a.w < |s.writers|
    && var p := s.writers[a.w].phase;
       match a
       case Begin(_) => p.Closed?
       case StartAppend(_, q) => p.Open? && Wellformed(q)
       case TakeLock(w) => p.WantLock? &&
         forall v :: 0 <= v < |s.writers| && v != w ==> c.lockKey(p.q.tenant) !in KeysOf(s.writers[v].log)
       case ReadTail(_) => p.HaveLock?
       case CheckDuplicate(_) => p.TailRead?
       case Insert(_) => p.Deduped?
       case RollbackTo(w, n) => !p.Closed? && n <= |s.writers[w].log|
       case Commit(_) => p.Open?
       case Abort(_) => !p.Closed?
  }

  function SetWriter(s: State, w: nat, x: Writer): State
    requires w < |s.writers|
  {
    s.(writers := s.writers[w := x])
  }

  ghost function Apply(c: Config, s: State, a: Action): State
    requires Enabled(c, s, a)
  {
    var x := s.writers[a.w];
    match a
    case Begin(w) => SetWriter(s, w, Writer([], Open))
    case StartAppend(w, q) => SetWriter(s, w, x.(phase := WantLock(q)))
    case TakeLock(w) =>
      SetWriter(s, w, Writer(x.log + [Locked(c.lockKey(x.phase.q.tenant))], HaveLock(x.phase.q)))
    case ReadTail(w) =>
      SetWriter(s, w, x.(phase := TailRead(x.phase.q, Tail(VisibleChain(s, w, x.phase.q.tenant)))))
    case CheckDuplicate(w) =>
      var found := Duplicated(VisibleChain(s, w, x.phase.q.tenant), x.phase.q);
      SetWriter(s, w, x.(phase := if found then Open else Deduped(x.phase.q, x.phase.prev)))
    case Insert(w) =>
      var row := NewRow(c.env, s.nextId, x.phase.prev, x.phase.q);
      SetWriter(s, w, Writer(x.log + [Inserted(row)], Open)).(nextId := s.nextId + 1)
    case RollbackTo(w, n) => SetWriter(s, w, Writer(x.log[..n], Open))
    case Commit(w) => SetWriter(s, w, Writer([], Closed)).(table := Visible(s, w))
    case Abort(w) => SetWriter(s, w, Writer([], Closed))
  }

  ghost predicate Initial(s: State) {
    && s.table == map[] && s.nextId == 0
    && forall w :: 0 <= w < |s.writers| ==> s.writers[w] == Writer([], Closed)
  }

  ghost predicate IsRun(c: Config, states: seq<State>, acts: seq<Action>) {
    && |states| == |acts| + 1
    && Initial(states[0])
    && forall i :: 0 <= i < |acts| ==> Enabled(c, states[i], acts[i]) && states[i + 1] == Apply(c, states[i], acts[i])
  }

  // ---------------------------------------------------------------- facts about scans

  /** Two tables hold the same rows of one tenant. */
  ghost predicate Agree(t: Table, u: Table, tenant: string, n: nat) {
    forall id: nat :: id < n ==>
      ((id in t && t[id].tenant == tenant) <==> (id in u && u[id].tenant == tenant))
      && (id in t && t[id].tenant == tenant ==> t[id] == u[id])
  }

  lemma {:induction false} ScanAgree(t: Table, u: Table, tenant: string, n: nat)
    requires Agree(t, u, tenant, n)
    ensures Scan(t, tenant, n) == Scan(u, tenant, n)
  {
    if n > 0 {
      ScanAgree(t, u, tenant, n - 1);
    }
  }

  ghost predicate IdsBelow(t: Table, n: nat) {
    forall id: nat :: id in t ==> id < n && t[id].id == id
  }

  lemma {:induction false} RowsOfPrefix(log: seq<Event>, n: nat)
    requires n <= |log|
    ensures RowsOf(log[..n]).Keys <= RowsOf(log).Keys
    decreases |log|
  {
    if n == |log| {
      assert log[..n] == log;
    } else {
      var shorter := log[..|log| - 1];
      assert log[..n] == shorter[..n];
      RowsOfPrefix(shorter, n);
    }
  }

  lemma RowsOfAppend(log: seq<Event>, e: Event)
    ensures RowsOf(log + [e]) == if e.Inserted? then RowsOf(log)[e.row.id := e.row] else RowsOf(log)
  {
    assert (log + [e])[..|log|] == log;
  }

  // ---------------------------------------------------------------- the invariant

  /** No row repeats, within one whole second, an earlier row's action, kind and entity. */
  ghost predicate Deduplicated(rows: seq<Row>) {
    forall i, j :: 0 <= i < j < |rows| ==> !SameEvent(rows[i], rows[j])
  }

  /** The dedupe query issued for the later row finds the earlier one. */
  predicate SameEvent(earlier: Row, later: Row) {
    && earlier.action == later.action && earlier.entityKind == later.entityKind && earlier.entityId == later.entityId
    && Truncate(later.ts) as real <= earlier.ts < (Truncate(later.ts) + 1) as real
  }

  ghost predicate GoodChain(env: Env, rows: seq<Row>) {
    Accepted(env, rows) && Deduplicated(rows)
  }

  /** What a writer would see had it rolled back to its n-th event. */
  ghost function SeenAt(s: State, w: nat, n: nat): Table
    requires w < |s.writers| && n <= |s.writers[w].log|
  {
    s.table + RowsOf(s.writers[w].log[..n])
  }

  ghost predicate IdsOk(s: State) {
    && IdsBelow(s.table, s.nextId)
    && (forall w :: 0 <= w < |s.writers| ==>
          IdsBelow(RowsOf(s.writers[w].log), s.nextId) && s.table.Keys !! RowsOf(s.writers[w].log).Keys)
    && (forall v, w :: 0 <= v < |s.writers| && 0 <= w < |s.writers| && v != w ==>
          RowsOf(s.writers[v].log).Keys !! RowsOf(s.writers[w].log).Keys)
  }

  /** Only a lock holder has uncommitted rows of a tenant, at every savepoint. */
  ghost predicate RowsCovered(c: Config, log: seq<Event>) {
    forall n: nat, id :: n <= |log| && id in RowsOf(log[..n]) ==>
      c.lockKey(RowsOf(log[..n])[id].tenant) in KeysOf(log[..n])
  }

  ghost predicate LocksOk(c: Config, s: State) {
    && (forall w :: 0 <= w < |s.writers| ==> RowsCovered(c, s.writers[w].log))
    && (forall v, w :: 0 <= v < |s.writers| && 0 <= w < |s.writers| && v != w ==>
          KeysOf(s.writers[v].log) !! KeysOf(s.writers[w].log))
  }

  ghost predicate ChainsOk(c: Config, s: State) {
    && (forall tenant :: GoodChain(c.env, Scan(s.table, tenant, s.nextId)))
    && (forall w, n: nat, tenant :: 0 <= w < |s.writers| && n <= |s.writers[w].log| ==>
          GoodChain(c.env, Scan(SeenAt(s, w, n), tenant, s.nextId)))
  }

  /** What an append in progress has learnt is still true. */
  ghost predicate PhaseOk(c: Config, s: State, w: nat)
    requires w < |s.writers|
  {
    var x := s.writers[w];
    && (!x.phase.Closed? && !x.phase.Open? ==> Wellformed(x.phase.q))
    && (x.phase.HaveLock? || x.phase.TailRead? || x.phase.Deduped? ==> c.lockKey(x.phase.q.tenant) in KeysOf(x.log))
    && (x.phase.TailRead? || x.phase.Deduped? ==> x.phase.prev == Tail(VisibleChain(s, w, x.phase.q.tenant)))
    && (x.phase.Deduped? ==> !Duplicated(VisibleChain(s, w, x.phase.q.tenant), x.phase.q))
    && (x.phase.Closed? ==> x.log == [])
  }

  ghost predicate Inv(c: Config, s: State) {
    && IdsOk(s) && LocksOk(c, s) && ChainsOk(c, s)
    && forall w :: 0 <= w < |s.writers| ==> PhaseOk(c, s, w)
  }

  // ---------------------------------------------------------------- one append

  /** Appending the row of an unmatched request to a good chain gives a good chain. */
  lemma ChainExtends(env: Env, rows: seq<Row>, id: nat, q: Request)
    requires Sound(env) && GoodChain(env, rows) && Wellformed(q) && !Duplicated(rows, q)
    ensures GoodChain(env, rows + [NewRow(env, id, Tail(rows), q)])
  {
    var row := NewRow(env, id, Tail(rows), q);
    var longer := rows + [row];
    assert RowText(env, row) == Some(CanonicalText(env, q));
    forall i | 0 <= i < |longer| ensures Good(env, longer, i) {
      if i < |rows| {
        assert Good(env, rows, i);
      }
    }
    forall i, j | 0 <= i < j < |longer| ensures !SameEvent(longer[i], longer[j]) {
      if j == |rows| {
        assert SameEvent(rows[i], row) <==> Matches(rows[i], q);
      }
    }
  }

  lemma {:induction false} ScanSkips(t: Table, tenant: string, n: nat, m: nat)
    requires IdsBelow(t, n) && n <= m
    ensures Scan(t, tenant, m) == Scan(t, tenant, n)
    decreases m
  {
    if n < m {
      ScanSkips(t, tenant, n, m - 1);
    }
  }

  lemma RowsOfPrefixBelow(log: seq<Event>, n: nat, bound: nat)
    requires n <= |log| && IdsBelow(RowsOf(log), bound)
    ensures IdsBelow(RowsOf(log[..n]), bound)
  {
    RowsOfPrefix(log, n);
    RowsOfOwnId(log[..n]);
  }

  lemma {:induction false} RowsOfOwnId(log: seq<Event>)
    ensures forall id :: id in RowsOf(log) ==> RowsOf(log)[id].id == id
  {
    if log != [] {
      RowsOfOwnId(log[..|log| - 1]);
    }
  }

  // ---------------------------------------------------------------- every step keeps the invariant

  lemma InvInitial(c: Config, s: State)
    requires Initial(s)
    ensures Inv(c, s)
  {
    forall tenant ensures Scan(s.table, tenant, s.nextId) == [] {
    }
  }

  /** Steps that change nothing but what a writer knows: begin, start, read, check. */
  lemma PhaseStep(c: Config, s: State, w: nat, p: Phase)
    requires Inv(c, s) && w < |s.writers|
    requires PhaseOk(c, SetWriter(s, w, s.writers[w].(phase := p)), w)
    ensures Inv(c, SetWriter(s, w, s.writers[w].(phase := p)))
  {
    var s' := SetWriter(s, w, s.writers[w].(phase := p));
    assert forall v :: 0 <= v < |s.writers| ==> s'.writers[v].log == s.writers[v].log;
    forall v, n: nat, tenant | 0 <= v < |s'.writers| && n <= |s'.writers[v].log|
      ensures GoodChain(c.env, Scan(SeenAt(s', v, n), tenant, s'.nextId))
    {
      assert SeenAt(s', v, n) == SeenAt(s, v, n);
    }
    forall v | 0 <= v < |s'.writers| ensures PhaseOk(c, s', v) {
      if v != w {
        assert PhaseOk(c, s, v) && Visible(s', v) == Visible(s, v);
      }
    }
  }

  lemma KeysOfAppend(log: seq<Event>, e: Event)
    ensures KeysOf(log + [e]) == if e.Locked? then KeysOf(log) + {e.key} else KeysOf(log)
  {
    assert forall x :: x in log + [e] <==> x in log || x == e;
  }

  lemma CoveredAppend(c: Config, log: seq<Event>, e: Event)
    requires RowsCovered(c, log)
    requires e.Inserted? ==> c.lockKey(e.row.tenant) in KeysOf(log)
    ensures RowsCovered(c, log + [e])
  {
    var log' := log + [e];
    forall n: nat, id | n <= |log'| && id in RowsOf(log'[..n])
      ensures c.lockKey(RowsOf(log'[..n])[id].tenant) in KeysOf(log'[..n])
    {
      if n <= |log| {
        assert log'[..n] == log[..n];
      } else {
        assert log'[..n] == log' && log[..|log|] == log;
        RowsOfAppend(log, e);
        KeysOfAppend(log, e);
        if id in RowsOf(log) {
          assert c.lockKey(RowsOf(log[..|log|])[id].tenant) in KeysOf(log[..|log|]);
        }
      }
    }
  }

  lemma LockChains(c: Config, s: State, w: nat)
    requires Inv(c, s) && Enabled(c, s, TakeLock(w))
    ensures ChainsOk(c, Apply(c, s, TakeLock(w)))
  {
    var s' := Apply(c, s, TakeLock(w));
    var log, log' := s.writers[w].log, s'.writers[w].log;
    RowsOfAppend(log, log'[|log|]);
    forall v, n: nat, tenant | 0 <= v < |s'.writers| && n <= |s'.writers[v].log|
      ensures GoodChain(c.env, Scan(SeenAt(s', v, n), tenant, s'.nextId))
    {
      if v == w && n > |log| {
        assert log'[..n] == log' && log[..|log|] == log;
        assert SeenAt(s', v, n) == SeenAt(s, v, |log|);
      } else {
        assert s'.writers[v].log[..n] == s.writers[v].log[..n];
        assert SeenAt(s', v, n) == SeenAt(s, v, n);
      }
    }
  }

  lemma LockStep(c: Config, s: State, w: nat)
    requires Inv(c, s) && Enabled(c, s, TakeLock(w))
    ensures Inv(c, Apply(c, s, TakeLock(w)))
  {
    var s' := Apply(c, s, TakeLock(w));
    LockIdsAndKeys(c, s, w);
    LockChains(c, s, w);
    forall v | 0 <= v < |s'.writers| ensures PhaseOk(c, s', v) {
      LockPhases(c, s, w, v);
    }
  }

  lemma LockIdsAndKeys(c: Config, s: State, w: nat)
    requires Inv(c, s) && Enabled(c, s, TakeLock(w))
    ensures IdsOk(Apply(c, s, TakeLock(w))) && LocksOk(c, Apply(c, s, TakeLock(w)))
  {
    var s', log := Apply(c, s, TakeLock(w)), s.writers[w].log;
    var e := Locked(c.lockKey(s.writers[w].phase.q.tenant));
    RowsOfAppend(log, e);
    KeysOfAppend(log, e);
    CoveredAppend(c, log, e);
    assert forall v :: 0 <= v < |s.writers| ==> RowsOf(s'.writers[v].log) == RowsOf(s.writers[v].log);
  }

  lemma LockPhases(c: Config, s: State, w: nat, v: nat)
    requires Inv(c, s) && Enabled(c, s, TakeLock(w)) && v < |s.writers|
    ensures PhaseOk(c, Apply(c, s, TakeLock(w)), v)
  {
    var s', log := Apply(c, s, TakeLock(w)), s.writers[w].log;
    var e := Locked(c.lockKey(s.writers[w].phase.q.tenant));
    RowsOfAppend(log, e);
    KeysOfAppend(log, e);
    assert PhaseOk(c, s, v) && Visible(s', v) == Visible(s, v);
  }

  /** Rolling back to a savepoint, or altogether. */
  lemma ShrinkStep(c: Config, s: State, w: nat, n: nat, p: Phase)
    requires Inv(c, s) && w < |s.writers| && n <= |s.writers[w].log|
    requires p.Open? || (p.Closed? && n == 0)
    ensures Inv(c, SetWriter(s, w, Writer(s.writers[w].log[..n], p)))
  {
    var log := s.writers[w].log;
    var s' := SetWriter(s, w, Writer(log[..n], p));
    RowsOfPrefix(log, n);
    RowsOfPrefixBelow(log, n, s.nextId);
    assert KeysOf(log[..n]) <= KeysOf(log);
    forall m: nat | m <= n ensures log[..n][..m] == log[..m] {
    }
    forall m: nat, id | m <= n && id in RowsOf(log[..n][..m])
      ensures c.lockKey(RowsOf(log[..n][..m])[id].tenant) in KeysOf(log[..n][..m])
    {
      assert log[..n][..m] == log[..m];
    }
    forall v, m: nat, tenant | 0 <= v < |s'.writers| && m <= |s'.writers[v].log|
      ensures GoodChain(c.env, Scan(SeenAt(s', v, m), tenant, s'.nextId))
    {
      assert SeenAt(s', v, m) == SeenAt(s, v, m);
    }
    forall v | 0 <= v < |s'.writers| ensures PhaseOk(c, s', v) {
      if v != w {
        assert PhaseOk(c, s, v) && Visible(s', v) == Visible(s, v);
      }
    }
  }

  /** After an insert by w, every table that w's new row is not in reads as before. */
  lemma InsertOthers(c: Config, s: State, w: nat, v: nat, n: nat, tenant: string)
    requires Inv(c, s) && Enabled(c, s, Insert(w))
    requires v < |s.writers| && n <= |s.writers[v].log|
    ensures var s' := Apply(c, s, Insert(w));
            && n <= |s'.writers[v].log| && SeenAt(s', v, n) == SeenAt(s, v, n)
            && IdsBelow(SeenAt(s, v, n), s.nextId)
            && Scan(SeenAt(s', v, n), tenant, s'.nextId) == Scan(SeenAt(s, v, n), tenant, s.nextId)
  {
    var s' := Apply(c, s, Insert(w));
    assert s'.writers[v].log[..n] == s.writers[v].log[..n];
    RowsOfPrefixBelow(s.writers[v].log, n, s.nextId);
    ScanSkips(SeenAt(s, v, n), tenant, s.nextId, s.nextId + 1);
  }

  lemma ScanAppend(t: Table, tenant: string, n: nat, row: Row)
    requires IdsBelow(t, n)
    ensures Scan(t[n := row], tenant, n + 1) ==
            if row.tenant == tenant then Scan(t, tenant, n) + [row] else Scan(t, tenant, n)
  {
    assert Agree(t[n := row], t, tenant, n);
    ScanAgree(t[n := row], t, tenant, n);
  }

  lemma InsertedRows(c: Config, s: State, w: nat)
    requires Enabled(c, s, Insert(w))
    ensures var x := s.writers[w];
            RowsOf(Apply(c, s, Insert(w)).writers[w].log)
            == RowsOf(x.log)[s.nextId := NewRow(c.env, s.nextId, x.phase.prev, x.phase.q)]
  {
    var x := s.writers[w];
    RowsOfAppend(x.log, Inserted(NewRow(c.env, s.nextId, x.phase.prev, x.phase.q)));
  }

  lemma InsertOwnTable(c: Config, s: State, w: nat)
    requires Inv(c, s) && Enabled(c, s, Insert(w))
    ensures var s', x := Apply(c, s, Insert(w)), s.writers[w];
            SeenAt(s', w, |s'.writers[w].log|)
            == Visible(s, w)[s.nextId := NewRow(c.env, s.nextId, x.phase.prev, x.phase.q)]
  {
    var log', x := Apply(c, s, Insert(w)).writers[w].log, s.writers[w];
    assert log'[..|log'|] == log';
    InsertedRows(c, s, w);
    OverlayInsert(s.table, RowsOf(x.log), s.nextId, NewRow(c.env, s.nextId, x.phase.prev, x.phase.q));
  }

  lemma OverlayInsert(t: Table, own: Table, id: nat, row: Row)
    ensures t + own[id := row] == (t + own)[id := row]
  {
  }

  lemma SeesGood(c: Config, s: State, w: nat, tenant: string)
    requires Inv(c, s) && w < |s.writers|
    ensures IdsBelow(Visible(s, w), s.nextId) && GoodChain(c.env, VisibleChain(s, w, tenant))
  {
    var log := s.writers[w].log;
    assert log[..|log|] == log;
    assert Visible(s, w) == SeenAt(s, w, |log|);
  }

  /** What w itself sees after its insert. */
  lemma InsertOwn(c: Config, s: State, w: nat, tenant: string)
    requires Sound(c.env) && Inv(c, s) && Enabled(c, s, Insert(w))
    ensures var s' := Apply(c, s, Insert(w));
            GoodChain(c.env, Scan(SeenAt(s', w, |s'.writers[w].log|), tenant, s'.nextId))
  {
    var x, seen := s.writers[w], Visible(s, w);
    assert PhaseOk(c, s, w);
    InsertOwnTable(c, s, w);
    SeesGood(c, s, w, tenant);
    ScanAppend(seen, tenant, s.nextId, NewRow(c.env, s.nextId, x.phase.prev, x.phase.q));
    if tenant == x.phase.q.tenant {
      ChainExtends(c.env, Scan(seen, tenant, s.nextId), s.nextId, x.phase.q);
    }
  }

  /** Rows of writer v after an insert by w: only w has one more, and its id is new. */
  lemma InsertIdsOf(c: Config, s: State, w: nat, v: nat)
    requires IdsOk(s) && Enabled(c, s, Insert(w)) && v < |s.writers|
    ensures var rows := RowsOf(Apply(c, s, Insert(w)).writers[v].log);
            && IdsBelow(rows, s.nextId + 1) && s.table.Keys !! rows.Keys
            && rows.Keys == RowsOf(s.writers[v].log).Keys + if v == w then {s.nextId} else {}
  {
    if v == w {
      InsertedRows(c, s, w);
    }
    assert IdsBelow(RowsOf(s.writers[v].log), s.nextId);
  }

  lemma InsertIds(c: Config, s: State, w: nat)
    requires Inv(c, s) && Enabled(c, s, Insert(w))
    ensures IdsOk(Apply(c, s, Insert(w)))
  {
    var s' := Apply(c, s, Insert(w));
    forall v | 0 <= v < |s.writers|
      ensures IdsBelow(RowsOf(s'.writers[v].log), s'.nextId) && s'.table.Keys !! RowsOf(s'.writers[v].log).Keys
    {
      InsertIdsOf(c, s, w, v);
    }
    forall u, v | 0 <= u < |s.writers| && 0 <= v < |s.writers| && u != v
      ensures RowsOf(s'.writers[u].log).Keys !! RowsOf(s'.writers[v].log).Keys
    {
      InsertIdsOf(c, s, w, u);
      InsertIdsOf(c, s, w, v);
      assert IdsBelow(RowsOf(s.writers[u].log), s.nextId) && IdsBelow(RowsOf(s.writers[v].log), s.nextId);
    }
  }

  lemma InsertLocks(c: Config, s: State, w: nat)
    requires Inv(c, s) && Enabled(c, s, Insert(w))
    ensures LocksOk(c, Apply(c, s, Insert(w)))
  {
    var s', x := Apply(c, s, Insert(w)), s.writers[w];
    var e := s'.writers[w].log[|x.log|];
    assert PhaseOk(c, s, w);
    KeysOfAppend(x.log, e);
    CoveredAppend(c, x.log, e);
    assert forall v :: 0 <= v < |s.writers| ==> KeysOf(s'.writers[v].log) == KeysOf(s.writers[v].log);
  }

  lemma InsertChains(c: Config, s: State, w: nat)
    requires Sound(c.env) && Inv(c, s) && Enabled(c, s, Insert(w))
    ensures ChainsOk(c, Apply(c, s, Insert(w)))
  {
    var s' := Apply(c, s, Insert(w));
    forall tenant ensures GoodChain(c.env, Scan(s'.table, tenant, s'.nextId)) {
      ScanSkips(s.table, tenant, s.nextId, s.nextId + 1);
    }
    forall v, n: nat, tenant | 0 <= v < |s'.writers| && n <= |s'.writers[v].log|
      ensures GoodChain(c.env, Scan(SeenAt(s', v, n), tenant, s'.nextId))
    {
      if v == w && n == |s'.writers[w].log| {
        InsertOwn(c, s, w, tenant);
      } else {
        InsertOthers(c, s, w, v, n, tenant);
        assert GoodChain(c.env, Scan(SeenAt(s, v, n), tenant, s.nextId));
      }
    }
  }

  lemma InsertStep(c: Config, s: State, w: nat)
    requires Sound(c.env) && Inv(c, s) && Enabled(c, s, Insert(w))
    ensures Inv(c, Apply(c, s, Insert(w)))
  {
    var s' := Apply(c, s, Insert(w));
    InsertIds(c, s, w);
    InsertLocks(c, s, w);
    InsertChains(c, s, w);
    forall v | 0 <= v < |s'.writers| ensures PhaseOk(c, s', v) {
      if v != w {
        assert PhaseOk(c, s, v);
        var x := s.writers[v];
        assert x.log[..|x.log|] == x.log;
        if x.phase.TailRead? || x.phase.Deduped? {
          InsertOthers(c, s, w, v, |x.log|, x.phase.q.tenant);
        }
      }
    }
  }

  /** A commit by w changes a tenant's rows only for readers that hold none of them. */
  lemma CommitScan(c: Config, s: State, w: nat, v: nat, n: nat, tenant: string)
    requires Inv(c, s) && Enabled(c, s, Commit(w)) && v < |s.writers| && v != w && n <= |s.writers[v].log|
    ensures var s' := Apply(c, s, Commit(w));
            Scan(SeenAt(s', v, n), tenant, s.nextId) ==
            if c.lockKey(tenant) in KeysOf(s.writers[v].log)
            then Scan(SeenAt(s, v, n), tenant, s.nextId)
            else Scan(SeenAt(s, w, |s.writers[w].log|), tenant, s.nextId)
  {
    var s', log := Apply(c, s, Commit(w)), s.writers[w].log;
    assert log[..|log|] == log;
    RowsOfPrefix(s.writers[v].log, n);
    if c.lockKey(tenant) in KeysOf(s.writers[v].log) {
      NoneOfTenant(c, log, |log|, tenant);
      assert Agree(SeenAt(s', v, n), SeenAt(s, v, n), tenant, s.nextId);
      ScanAgree(SeenAt(s', v, n), SeenAt(s, v, n), tenant, s.nextId);
    } else {
      NoneOfTenant(c, s.writers[v].log, n, tenant);
      assert Agree(SeenAt(s', v, n), SeenAt(s, w, |log|), tenant, s.nextId);
      ScanAgree(SeenAt(s', v, n), SeenAt(s, w, |log|), tenant, s.nextId);
    }
  }

  /** Who does not hold the lock for a tenant has inserted none of its rows. */
  lemma NoneOfTenant(c: Config, log: seq<Event>, n: nat, tenant: string)
    requires RowsCovered(c, log) && n <= |log| && c.lockKey(tenant) !in KeysOf(log)
    ensures forall id :: id in RowsOf(log[..n]) ==> RowsOf(log[..n])[id].tenant != tenant
  {
    assert KeysOf(log[..n]) <= KeysOf(log);
  }

  lemma CommitChains(c: Config, s: State, w: nat)
    requires Inv(c, s) && Enabled(c, s, Commit(w))
    ensures ChainsOk(c, Apply(c, s, Commit(w)))
  {
    var s' := Apply(c, s, Commit(w));
    var log := s.writers[w].log;
    assert log[..|log|] == log;
    assert s'.table == SeenAt(s, w, |log|);
    forall v, n: nat, tenant | 0 <= v < |s'.writers| && n <= |s'.writers[v].log|
      ensures GoodChain(c.env, Scan(SeenAt(s', v, n), tenant, s'.nextId))
    {
      if v == w {
        assert SeenAt(s', v, n) == s'.table;
      } else {
        CommitScan(c, s, w, v, n, tenant);
      }
    }
  }

  lemma CommitPhases(c: Config, s: State, w: nat, v: nat)
    requires Inv(c, s) && Enabled(c, s, Commit(w)) && v < |s.writers|
    ensures PhaseOk(c, Apply(c, s, Commit(w)), v)
  {
    if v != w {
      assert PhaseOk(c, s, v);
      var x := s.writers[v];
      assert x.log[..|x.log|] == x.log;
      if x.phase.TailRead? || x.phase.Deduped? {
        CommitScan(c, s, w, v, |x.log|, x.phase.q.tenant);
      }
    }
  }

  lemma CommitStep(c: Config, s: State, w: nat)
    requires Inv(c, s) && Enabled(c, s, Commit(w))
    ensures Inv(c, Apply(c, s, Commit(w)))
  {
    var s' := Apply(c, s, Commit(w));
    CommitChains(c, s, w);
    forall v | 0 <= v < |s'.writers| ensures PhaseOk(c, s', v) {
      CommitPhases(c, s, w, v);
    }
    assert s'.writers[w].log == [] && RowsOf([]) == map[];
    assert s'.table == s.table + RowsOf(s.writers[w].log);
    assert forall v :: 0 <= v < |s.writers| && v != w ==> s'.writers[v] == s.writers[v];
  }

  lemma InvStep(c: Config, s: State, a: Action)
    requires Sound(c.env) && Inv(c, s) && Enabled(c, s, a)
    ensures Inv(c, Apply(c, s, a))
  {
    var x := s.writers[a.w];
    assert PhaseOk(c, s, a.w);
    match a
    case Begin(w) =>
      assert x == Writer([], Closed);
      PhaseStep(c, s, w, Open);
    case StartAppend(w, q) => PhaseStep(c, s, w, WantLock(q));
    case TakeLock(w) => LockStep(c, s, w);
    case ReadTail(w) =>
      var p := TailRead(x.phase.q, Tail(VisibleChain(s, w, x.phase.q.tenant)));
      assert Visible(SetWriter(s, w, x.(phase := p)), w) == Visible(s, w);
      PhaseStep(c, s, w, p);
    case CheckDuplicate(w) =>
      var p := if Duplicated(VisibleChain(s, w, x.phase.q.tenant), x.phase.q) then Open
               else Deduped(x.phase.q, x.phase.prev);
      assert Visible(SetWriter(s, w, x.(phase := p)), w) == Visible(s, w);
      PhaseStep(c, s, w, p);
    case Insert(w) => InsertStep(c, s, w);
    case RollbackTo(w, n) => ShrinkStep(c, s, w, n, Open);
    case Commit(w) => CommitStep(c, s, w);
    case Abort(w) =>
      assert x.log[..0] == [];
      ShrinkStep(c, s, w, 0, Closed);
  }

  lemma {:induction false} InvRun(c: Config, states: seq<State>, acts: seq<Action>, i: nat)
    requires Sound(c.env) && IsRun(c, states, acts) && i < |states|
    ensures Inv(c, states[i])
  {
    if i == 0 {
      InvInitial(c, states[0]);
    } else {
      InvRun(c, states, acts, i - 1);
      InvStep(c, states[i - 1], acts[i - 1]);
    }
  }

  // ---------------------------------------------------------------- the theorem

  predicate SameKey(r: Row, q: Row) {
    r.action == q.action && r.entityKind == q.entityKind && r.entityId == q.entityId
  }

  /** The readings whose rows the dedupe query of a request at t finds. */
  predicate InDedupeWindow(t: real, x: real) {
    Truncate(t) as real <= x < (Truncate(t) + 1) as real
  }

  /** Truncation toward zero takes a reading to the start of its own second. */
  predicate WholeSecond(t: real) {
    t >= 0.0 || t == t.Floor as real
  }

  lemma FloorIs(x: real, n: int)
    ensures x.Floor == n <==> n as real <= x < (n + 1) as real
  {
  }

  lemma OwnWindowIff(t: real)
    ensures WholeSecond(t) <==> Truncate(t) == t.Floor
    ensures WholeSecond(t) <==> InDedupeWindow(t, t)
  {
    FloorIs(t, Truncate(t));
    if t < 0.0 {
      FloorIs(-t, (-t).Floor);
    }
  }

  /** The dedupe window is the whole second of the reading exactly from the epoch on, and at whole seconds before it. */
  lemma WindowIsSecondIff(t: real)
    ensures (forall x: real :: InDedupeWindow(t, x) <==> x.Floor == t.Floor) <==> WholeSecond(t)
  {
    OwnWindowIff(t);
    forall x: real ensures InDedupeWindow(t, x) <==> x.Floor == Truncate(t) {
      FloorIs(x, Truncate(t));
    }
    assert InDedupeWindow(t, t) <==> WholeSecond(t);
  }

  /**
   Whatever the interleaving, the committed rows of every tenant are accepted by the verifier,
   and none of them has the action, entity and whole second of an earlier one, unless its own
   reading lies inside a second before the epoch.
   */
  lemma EveryRunVerifies(c: Config, states: seq<State>, acts: seq<Action>, i: nat, tenant: string)
    requires Sound(c.env) && IsRun(c, states, acts) && i < |states|
    ensures var rows := Scan(states[i].table, tenant, states[i].nextId);
            && VerdictOf(c.env, rows) == Intact
            && forall m, n :: 0 <= m < n < |rows| && WholeSecond(rows[n].ts) && SameKey(rows[m], rows[n]) ==>
                 rows[m].ts.Floor != rows[n].ts.Floor
  {
    InvRun(c, states, acts, i);
    var rows := Scan(states[i].table, tenant, states[i].nextId);
    VerdictIntact(c.env, rows);
    forall m, n | 0 <= m < n < |rows| && WholeSecond(rows[n].ts) && SameKey(rows[m], rows[n])
      ensures rows[m].ts.Floor != rows[n].ts.Floor
    {
      assert !SameEvent(rows[m], rows[n]);
      WindowIsSecondIff(rows[n].ts);
      assert !InDedupeWindow(rows[n].ts, rows[m].ts);
    }
  }

  // ---------------------------------------------------------------- what is recorded

  /** The row holds the request and nothing else, and its digest is that of the request after prev. */
  ghost predicate Records(env: Env, row: Row, id: nat, prev: string, q: Request) {
    && row.id == id && row.tenant == q.tenant && row.ts == q.ts
    && row.sessionId == q.sessionId && row.guildId == q.guildId
    && row.actor == q.actor && row.action == q.action
    && row.entityKind == q.entityKind && row.entityId == Some(q.entityId)
    && env.loads(row.beforeJson) == Some(q.before) && env.loads(row.afterJson) == Some(q.after)
    && HashedOf(env, row) == Some(Hashed(q.action, q.entityKind, q.entityId,
                                         CanonicalJson.Sort(q.before), CanonicalJson.Sort(q.after),
                                         q.actor, env.stamp(q.ts)))
    && row.prevHash == prev
    && row.currHash == env.hash(prev + (CanonicalJson.Canonical(
                         Payload(q.action, q.entityKind, q.entityId, q.before, q.after, q.actor)) + env.stamp(q.ts)))
  }

  lemma NewRowRecords(env: Env, id: nat, prev: string, q: Request)
    requires Sound(env) && Wellformed(q)
    ensures Records(env, NewRow(env, id, prev, q), id, prev, q)
  {
    assert env.loads(Text(q.before, Spaced)) == Some(q.before) && env.loads(Text(q.after, Spaced)) == Some(q.after);
    assert Text(q.before, Spaced) != "" && Text(q.after, Spaced) != "";
  }

  /** A request is taken for one already stored when a row of its chain has its event in its second. */
  lemma DuplicatedIff(rows: seq<Row>, q: Request)
    requires WholeSecond(q.ts)
    ensures Duplicated(rows, q) <==>
            exists i :: 0 <= i < |rows| && rows[i].action == q.action && rows[i].entityKind == q.entityKind
                        && rows[i].entityId == Some(q.entityId) && rows[i].ts.Floor == q.ts.Floor
  {
    forall i | 0 <= i < |rows|
      ensures InDedupeWindow(q.ts, rows[i].ts) <==> rows[i].ts.Floor == q.ts.Floor
    {
      OwnWindowIff(q.ts);
      FloorIs(rows[i].ts, Truncate(q.ts));
    }
    forall i | 0 <= i < |rows|
      ensures Matches(rows[i], q) <==>
              rows[i].action == q.action && rows[i].entityKind == q.entityKind
              && rows[i].entityId == Some(q.entityId) && rows[i].ts.Floor == q.ts.Floor
    {
      assert Matches(rows[i], q) <==>
             rows[i].action == q.action && rows[i].entityKind == q.entityKind
             && rows[i].entityId == Some(q.entityId) && InDedupeWindow(q.ts, rows[i].ts);
    }
  }

  /** The request of the append that writer w began last, in the first i steps. */
  function Asked(acts: seq<Action>, i: nat, w: nat): Option<Request>
    requires i <= |acts|
  {
    if i == 0 then None
    else if acts[i - 1].StartAppend? && acts[i - 1].w == w then Some(acts[i - 1].q)
    else Asked(acts, i - 1, w)
  }

  predicate Appending(p: Phase) {
    p.WantLock? || p.HaveLock? || p.TailRead? || p.Deduped?
  }

  lemma {:induction false} AppendsAsked(c: Config, states: seq<State>, acts: seq<Action>, i: nat, w: nat)
    requires IsRun(c, states, acts) && i < |states| && w < |states[i].writers|
    requires Appending(states[i].writers[w].phase)
    ensures Asked(acts, i, w) == Some(states[i].writers[w].phase.q)
  {
    if i > 0 && !(acts[i - 1].StartAppend? && acts[i - 1].w == w) {
      SameRequest(c, states[i - 1], acts[i - 1], w);
      AppendsAsked(c, states, acts, i - 1, w);
    }
  }

  lemma SameRequest(c: Config, s: State, a: Action, w: nat)
    requires Enabled(c, s, a) && w < |s.writers| && !(a.StartAppend? && a.w == w)
    requires Appending(Apply(c, s, a).writers[w].phase)
    ensures Appending(s.writers[w].phase) && Apply(c, s, a).writers[w].phase.q == s.writers[w].phase.q
  {
  }

  /** An insert records the request that its writer was asked to append, after the tail it sees. */
  lemma InsertRecords(c: Config, states: seq<State>, acts: seq<Action>, i: nat) returns (row: Row)
    requires Sound(c.env) && IsRun(c, states, acts) && i < |acts| && acts[i].Insert?
    ensures var s, w := states[i], acts[i].w;
            && Asked(acts, i, w).Some?
            && states[i + 1].writers[w].log == s.writers[w].log + [Inserted(row)]
            && Records(c.env, row, s.nextId, Tail(VisibleChain(s, w, Asked(acts, i, w).value.tenant)),
                       Asked(acts, i, w).value)
  {
    var s, x := states[i], states[i].writers[acts[i].w];
    InvRun(c, states, acts, i);
    assert PhaseOk(c, s, acts[i].w);
    AppendsAsked(c, states, acts, i, acts[i].w);
    row := NewRow(c.env, s.nextId, x.phase.prev, x.phase.q);
    NewRowRecords(c.env, s.nextId, x.phase.prev, x.phase.q);
  }

  /** The row comes from an insert among the first i steps, and records what was asked for there. */
  ghost predicate FromInsert(env: Env, states: seq<State>, acts: seq<Action>, i: nat, row: Row)
    requires i <= |acts| < |states|
  {
    exists j :: 0 <= j < i && acts[j].Insert? && row.id == states[j].nextId
                && Asked(acts, j, acts[j].w).Some?
                && Records(env, row, row.id, row.prevHash, Asked(acts, j, acts[j].w).value)
  }

  /** Every insert in a log. */
  ghost predicate LogFromInserts(env: Env, states: seq<State>, acts: seq<Action>, i: nat, log: seq<Event>)
    requires i <= |acts| < |states|
  {
    forall e :: e in log && e.Inserted? ==> FromInsert(env, states, acts, i, e.row)
  }

  lemma {:induction false} RowsOfEvent(log: seq<Event>, id: nat)
    requires id in RowsOf(log)
    ensures Inserted(RowsOf(log)[id]) in log
  {
    var front, e := log[..|log| - 1], log[|log| - 1];
    if !(e.Inserted? && e.row.id == id) {
      RowsOfEvent(front, id);
    } else {
      assert e in log;
    }
  }

  lemma FromInsertLater(env: Env, states: seq<State>, acts: seq<Action>, i: nat, row: Row)
    requires i < |acts| < |states| && FromInsert(env, states, acts, i, row)
    ensures FromInsert(env, states, acts, i + 1, row)
  {
  }

  lemma LogStep(c: Config, states: seq<State>, acts: seq<Action>, i: nat, w: nat)
    requires Sound(c.env) && IsRun(c, states, acts) && i < |acts| && w < |states[i].writers|
    requires LogFromInserts(c.env, states, acts, i, states[i].writers[w].log)
    ensures LogFromInserts(c.env, states, acts, i + 1, states[i + 1].writers[w].log)
  {
    var log, log' := states[i].writers[w].log, states[i + 1].writers[w].log;
    forall e | e in log && e.Inserted? ensures FromInsert(c.env, states, acts, i + 1, e.row) {
      FromInsertLater(c.env, states, acts, i, e.row);
    }
    if acts[i].Insert? && acts[i].w == w {
      var row := InsertRecords(c, states, acts, i);
      assert FromInsert(c.env, states, acts, i + 1, row);
      assert log' == log + [Inserted(row)];
    } else {
      assert forall e :: e in log' && e.Inserted? ==> e in log;
    }
  }

  /** In every run: every committed row, and every uncommitted one, records what some writer was asked to append. */
  lemma {:induction false} EveryRowAsked(c: Config, states: seq<State>, acts: seq<Action>, i: nat)
    requires Sound(c.env) && IsRun(c, states, acts) && i < |states|
    ensures forall id :: id in states[i].table ==> FromInsert(c.env, states, acts, i, states[i].table[id])
    ensures forall w :: 0 <= w < |states[i].writers| ==>
              LogFromInserts(c.env, states, acts, i, states[i].writers[w].log)
  {
    if i > 0 {
      EveryRowAsked(c, states, acts, i - 1);
      var s, s', a := states[i - 1], states[i], acts[i - 1];
      forall w | 0 <= w < |s'.writers| ensures LogFromInserts(c.env, states, acts, i, s'.writers[w].log) {
        LogStep(c, states, acts, i - 1, w);
      }
      forall id | id in s'.table ensures FromInsert(c.env, states, acts, i, s'.table[id]) {
        if a.Commit? && id in RowsOf(s.writers[a.w].log) {
          RowsOfEvent(s.writers[a.w].log, id);
          FromInsertLater(c.env, states, acts, i - 1, s'.table[id]);
        } else {
          FromInsertLater(c.env, states, acts, i - 1, s.table[id]);
        }
      }
    }
  }

  // ---------------------------------------------------------------- what is kept

  /** The rows inserted by one transaction have growing ids, all given out. */
  ghost predicate LogOrdered(log: seq<Event>, nextId: nat) {
    && (forall n :: 0 <= n < |log| && log[n].Inserted? ==> log[n].row.id < nextId)
    && (forall m, n :: 0 <= m < n < |log| && log[m].Inserted? && log[n].Inserted? ==> log[m].row.id < log[n].row.id)
  }

  lemma {:induction false} LogsOrdered(c: Config, states: seq<State>, acts: seq<Action>, i: nat, w: nat)
    requires IsRun(c, states, acts) && i < |states| && w < |states[i].writers|
    ensures LogOrdered(states[i].writers[w].log, states[i].nextId)
  {
    if i > 0 {
      LogsOrdered(c, states, acts, i - 1, w);
      OrderedStep(c, states[i - 1], acts[i - 1], w);
    }
  }

  lemma OrderedStep(c: Config, s: State, a: Action, w: nat)
    requires Enabled(c, s, a) && w < |s.writers| && LogOrdered(s.writers[w].log, s.nextId)
    ensures LogOrdered(Apply(c, s, a).writers[w].log, Apply(c, s, a).nextId)
  {
    var log, log' := s.writers[w].log, Apply(c, s, a).writers[w].log;
    if a.w != w || !a.Insert? {
      assert log' == [] || log' <= log || (log' == log + [log'[|log|]] && log'[|log|].Locked?);
    }
  }

  lemma {:induction false} RowsOfHas(log: seq<Event>, nextId: nat, n: nat)
    requires LogOrdered(log, nextId) && n < |log| && log[n].Inserted?
    ensures log[n].row.id in RowsOf(log) && RowsOf(log)[log[n].row.id] == log[n].row
    decreases |log|
  {
    if n < |log| - 1 {
      RowsOfHas(log[..|log| - 1], nextId, n);
    }
  }

  /** A commit stores every row its transaction has inserted. */
  lemma CommitStores(c: Config, states: seq<State>, acts: seq<Action>, i: nat, row: Row)
    requires Sound(c.env) && IsRun(c, states, acts) && i < |acts| && acts[i].Commit?
    requires Inserted(row) in states[i].writers[acts[i].w].log
    ensures row.id in states[i + 1].table && states[i + 1].table[row.id] == row
  {
    var log := states[i].writers[acts[i].w].log;
    LogsOrdered(c, states, acts, i, acts[i].w);
    var n :| 0 <= n < |log| && log[n] == Inserted(row);
    RowsOfHas(log, states[i].nextId, n);
  }

  /** Committed rows are never changed or lost. */
  lemma {:induction false} RowsStay(c: Config, states: seq<State>, acts: seq<Action>, i: nat, j: nat, id: nat)
    requires Sound(c.env) && IsRun(c, states, acts) && i <= j < |states| && id in states[i].table
    ensures id in states[j].table && states[j].table[id] == states[i].table[id]
    decreases j
  {
    if i < j {
      RowsStay(c, states, acts, i, j - 1, id);
      InvRun(c, states, acts, j - 1);
      RowStays(c, states[j - 1], acts[j - 1], id);
    }
  }

  lemma RowStays(c: Config, s: State, a: Action, id: nat)
    requires IdsOk(s) && Enabled(c, s, a) && id in s.table
    ensures id in Apply(c, s, a).table && Apply(c, s, a).table[id] == s.table[id]
  {
    assert s.table.Keys !! RowsOf(s.writers[a.w].log).Keys;
  }
}
