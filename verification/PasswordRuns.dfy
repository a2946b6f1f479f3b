/** Password checks, changes and logins of one user of backend/auth.py, interleaved. */
module PasswordRuns {
  import opened Wrappers
  import opened PasswordHistory

  // Any number of callers act on one user's row and history.  A login reads the hash, verifies it
  // with no connection held and rewrites it later; a change is checked in two statements, and then
  // reads, inserts, trims and updates in a transaction of its own, which sees committed rows and
  // its own.  Other users' rows take no part: every statement names the user.

  datatype Stored = Stored(id: nat, hash: Hash)

  /**
   A change past its reads.  since: how many passwords there had been when its check began;
   readAt: the same when it read the current hash; own: the row it inserts; dropped: the ids its
   delete names.
   */
  datatype Change = Change(plain: string, since: nat, readAt: nat, own: Option<Stored>, dropped: set<nat>)

  /** One caller between its statements. */
  datatype Phase =
    | Idle
    | RehashDue(plain: string, readAt: nat)                          // verified against the outdated hash it read
    | HistoryClear(plain: string, since: nat)                        // not in the history it fetched
    | Admitted(plain: string, since: nat)                            // nor the current password it fetched
    | InsertDue(plain: string, since: nat, readAt: nat, seen: Hash)  // from here on inside the transaction
    | TrimDue(c: Change)
    | DeleteDue(c: Change)                                           // knows the ids, waits for their row locks
    | UpdateDue(c: Change)
    | CommitDue(c: Change)                                           // holds the lock of the users row

  /** had: every password that has been the current one, oldest first; the program keeps no such list. */
  datatype State = State(current: Option<Hash>, rows: seq<Stored>, nextId: nat, callers: seq<Phase>, had: seq<string>)

  datatype Action =
    | ReadLogin(w: nat, plain: string)
    | WriteRehash(w: nat)
    | CheckHistory(w: nat, plain: string)
    | CheckCurrent(w: nat)
    | ReadOld(w: nat)
    | Insert(w: nat)
    | Trim(w: nat)
    | Delete(w: nat)
    | Update(w: nat)
    | Commit(w: nat)
    | Abort(w: nat)

  // ---------------------------------------------------------------- rows in id order

  function Ids(rows: seq<Stored>): set<nat> {
    set r | r in rows :: r.id
  }

  ghost predicate Sorted(rows: seq<Stored>) {
    forall i, j :: 0 <= i < j < |rows| ==> rows[i].id < rows[j].id
  }

  function InsertById(rows: seq<Stored>, own: Stored): seq<Stored> {
    if rows == [] || rows[|rows| - 1].id < own.id then rows + [own]
    else InsertById(rows[..|rows| - 1], own) + [rows[|rows| - 1]]
  }

  function Without(rows: seq<Stored>, ids: set<nat>): seq<Stored> {
    if rows == [] then []
    else
      var front, last := Without(rows[..|rows| - 1], ids), rows[|rows| - 1];
      if last.id in ids then front else front + [last]
  }

  function PlainsOf(rows: seq<Stored>): (r: seq<string>)
    ensures |r| == |rows| && forall i :: 0 <= i < |rows| ==> r[i] == rows[i].hash.plain
  {
    seq(|rows|, i requires 0 <= i < |rows| => rows[i].hash.plain)
  }

  /** How many of n rows a trim deletes. */
  function Excess(n: nat): nat {
    if n > PASSWORD_HISTORY_LIMIT then n - PASSWORD_HISTORY_LIMIT else 0
  }

  /** The rows that ORDER BY id DESC LIMIT leaves out. */
  function ToTrim(view: seq<Stored>): set<nat> {
    Ids(view[..Excess(|view|)])
  }

  // ---------------------------------------------------------------- the steps

  predicate InHistory(s: State, plain: string) {
    exists r :: r in LastN(s.rows, PASSWORD_HISTORY_LIMIT) && VerifyPassword(plain, r.hash)
  }

  predicate IsCurrent(s: State, plain: string) {
    s.current.Some? && VerifyPassword(plain, s.current.value)
  }

  /** An update of the users row waits for a transaction that has updated it. */
  predicate RowFree(s: State) {
    forall v :: 0 <= v < |s.callers| ==> !s.callers[v].CommitDue?
  }

  /** A delete waits for a transaction that has deleted one of the same rows. */
  predicate DeletesFree(s: State, ids: set<nat>) {
    forall v :: 0 <= v < |s.callers| && (s.callers[v].UpdateDue? || s.callers[v].CommitDue?)
      ==> s.callers[v].c.dropped !! ids
  }

  predicate Enabled(s: State, a: Action) {
    && a.w < |s.callers|
    && var p := s.callers[a.w];
       match a
       case ReadLogin(_, _) => p.Idle?
       case WriteRehash(_) => p.RehashDue? && RowFree(s)
       case CheckHistory(_, _) => p.Idle?
       case CheckCurrent(_) => p.HistoryClear?
       case ReadOld(_) => p.Admitted?
       case Insert(_) => p.InsertDue?
       case Trim(_) => p.TrimDue? && p.c.own.Some?
       case Delete(_) => p.DeleteDue? && DeletesFree(s, p.c.dropped)
       case Update(_) => p.UpdateDue? && RowFree(s)
       case Commit(_) => p.CommitDue?
       case Abort(_) => !p.Idle?
  }

  function SetPhase(s: State, w: nat, p: Phase): State
    requires w < |s.callers|
  {
    s.(callers := s.callers[w := p])
  }

  /** The history once the change has committed. */
  function CommittedRows(rows: seq<Stored>, c: Change): seq<Stored> {
    if c.own.None? then rows else Without(InsertById(rows, c.own.value), c.dropped)
  }

  function Apply(s: State, a: Action): State
    requires Enabled(s, a)
  {
    var w, p := a.w, s.callers[a.w];
    match a
    case ReadLogin(_, plain) =>
      SetPhase(s, w, if IsCurrent(s, plain) && s.current.value.legacy then RehashDue(plain, |s.had|) else Idle)
    case WriteRehash(_) =>
      SetPhase(s, w, Idle).(current := Some(HashPassword(p.plain)),
                            had := if IsCurrent(s, p.plain) then s.had else s.had + [p.plain])
    case CheckHistory(_, plain) => SetPhase(s, w, if InHistory(s, plain) then Idle else HistoryClear(plain, |s.had|))
    case CheckCurrent(_) => SetPhase(s, w, if IsCurrent(s, p.plain) then Idle else Admitted(p.plain, p.since))
    case ReadOld(_) =>
      SetPhase(s, w, match s.current
                     case Some(h) => InsertDue(p.plain, p.since, |s.had|, h)
                     case None => UpdateDue(Change.Change(p.plain, p.since, |s.had|, None, {})))
    case Insert(_) =>
      SetPhase(s, w, TrimDue(Change.Change(p.plain, p.since, p.readAt, Some(Stored(s.nextId, p.seen)), {}))).
        (nextId := s.nextId + 1)
    case Trim(_) => SetPhase(s, w, DeleteDue(p.c.(dropped := ToTrim(InsertById(s.rows, p.c.own.value)))))
    case Delete(_) => SetPhase(s, w, UpdateDue(p.c))
    case Update(_) => SetPhase(s, w, CommitDue(p.c))
    case Commit(_) =>
      SetPhase(s, w, Idle).(current := Some(HashPassword(p.c.plain)), rows := CommittedRows(s.rows, p.c),
                            had := s.had + [p.c.plain])
    case Abort(_) => SetPhase(s, w, Idle)
  }

  /** A user with or without a password, no history yet, nobody at work. */
  ghost predicate Initial(s: State) {
    && s.rows == []
    && s.had == (if s.current.Some? then [s.current.value.plain] else [])
    && forall w :: 0 <= w < |s.callers| ==> s.callers[w].Idle?
  }

  ghost predicate IsRun(states: seq<State>, acts: seq<Action>) {
    && |states| == |acts| + 1
    && Initial(states[0])
    && forall i :: 0 <= i < |acts| ==> Enabled(states[i], acts[i]) && states[i + 1] == Apply(states[i], acts[i])
  }

  // ---------------------------------------------------------------- what should hold

  /** The passwords before the current one. */
  function Earlier(had: seq<string>): seq<string> {
    if had == [] then [] else had[..|had| - 1]
  }

  /** The stored history is exactly the most recent earlier passwords. */
  ghost predicate HistoryRecent(s: State) {
    PlainsOf(s.rows) == LastN(Earlier(s.had), PASSWORD_HISTORY_LIMIT)
  }

  /** Any PASSWORD_HISTORY_LIMIT + 2 passwords in a row are pairwise distinct. */
  ghost predicate RecentlyDistinct(had: seq<string>) {
    forall i, j :: 0 <= i < j < |had| && j - i <= PASSWORD_HISTORY_LIMIT + 1 ==> had[i] != had[j]
  }

  ghost predicate Good(s: State) {
    HistoryRecent(s) && RecentlyDistinct(s.had)
  }

  /** own comes after every row, and dropped names the rows that a trim made now would delete. */
  predicate Fresh(rows: seq<Stored>, own: Stored, dropped: set<nat>) {
    && Newest(rows, own)
    && own.id !in dropped
    && forall i :: 0 <= i < |rows| ==> (rows[i].id in dropped <==> i < Excess(|rows| + 1))
  }

  predicate Newest(rows: seq<Stored>, own: Stored) {
    rows != [] ==> rows[|rows| - 1].id < own.id
  }

  /** The passwords that were current at some time since a check began. */
  function CurrentSince(had: seq<string>, since: nat): seq<string> {
    if 0 < since <= |had| then had[since - 1..] else had
  }

  /**
   The change read the password that is still current, or again, and its row and its delete fit
   the rows there are.
   */
  predicate ReadsStand(s: State, c: Change) {
    && (c.own.Some? <==> s.current.Some?)
    && (c.own.Some? ==> c.own.value.hash.plain == s.current.value.plain && Fresh(s.rows, c.own.value, c.dropped))
  }

  /** Nor has its new password been current since its check began, among the latest. */
  predicate CheckStands(s: State, c: Change) {
    c.plain !in LastN(CurrentSince(s.had, c.since), PASSWORD_HISTORY_LIMIT + 1)
  }

  /** Whether a write comes in time; every other step does. */
  predicate Timely(s: State, a: Action)
    requires Enabled(s, a)
  {
    match a
    case WriteRehash(w) => IsCurrent(s, s.callers[w].plain)
    case Commit(w) => ReadsStand(s, s.callers[w].c) && CheckStands(s, s.callers[w].c)
    case _ => true
  }

  // ---------------------------------------------------------------- what every run keeps

  ghost predicate RowsOk(s: State) {
    Sorted(s.rows) && forall r :: r in s.rows ==> r.id < s.nextId
  }

  ghost predicate HadOk(s: State) {
    && (s.current.Some? <==> s.had != [])
    && (s.current.Some? ==> s.current.value.plain == s.had[|s.had| - 1])
  }

  /** An admitted password is not the current one unless another has been written since. */
  predicate CheckOk(s: State, plain: string, since: nat) {
    since <= |s.had| && (since == |s.had| > 0 ==> s.had[since - 1] != plain)
  }

  predicate ReadOk(s: State, plain: string, readAt: nat) {
    0 < readAt <= |s.had| && s.had[readAt - 1] == plain
  }

  ghost predicate OwnOk(s: State, c: Change) {
    && CheckOk(s, c.plain, c.since)
    && c.since <= c.readAt <= |s.had|
    && (c.own.None? ==> c.readAt == 0)
    && (c.own.Some? ==>
          && ReadOk(s, c.own.value.hash.plain, c.readAt)
          && c.own.value.id < s.nextId
          && c.own.value.id !in Ids(s.rows)
          && (c.own.value.id in c.dropped || forall d :: d in c.dropped ==> d < c.own.value.id)
          && (c.readAt == |s.had| ==> Newest(s.rows, c.own.value)))
  }

  ghost predicate TrimmedOk(s: State, c: Change) {
    OwnOk(s, c) && (c.own.Some? && c.readAt == |s.had| ==> Fresh(s.rows, c.own.value, c.dropped))
  }

  ghost predicate PhaseOk(s: State, p: Phase) {
    match p
    case Idle => true
    case RehashDue(plain, readAt) => ReadOk(s, plain, readAt)
    case HistoryClear(_, since) => since <= |s.had|
    case Admitted(plain, since) => CheckOk(s, plain, since)
    case InsertDue(plain, since, readAt, seen) => CheckOk(s, plain, since) && since <= readAt
      && ReadOk(s, seen.plain, readAt)
    case TrimDue(c) => OwnOk(s, c) && c.own.Some?
    case DeleteDue(c) => TrimmedOk(s, c)
    case UpdateDue(c) => TrimmedOk(s, c)
    case CommitDue(c) => TrimmedOk(s, c)
  }

  predicate InTransaction(p: Phase) {
    p.TrimDue? || p.DeleteDue? || p.UpdateDue? || p.CommitDue?
  }

  function OwnId(p: Phase): Option<nat> {
    if InTransaction(p) && p.c.own.Some? then Some(p.c.own.value.id) else None
  }

  ghost predicate OwnIdsApart(s: State) {
    forall v, w :: 0 <= v < w < |s.callers| && OwnId(s.callers[v]).Some? ==> OwnId(s.callers[v]) != OwnId(s.callers[w])
  }

  ghost predicate Inv(s: State) {
    && RowsOk(s) && HadOk(s) && OwnIdsApart(s)
    && forall w :: 0 <= w < |s.callers| ==> PhaseOk(s, s.callers[w])
  }

  lemma {:induction false} InsertedHas(rows: seq<Stored>, own: Stored)
    ensures |InsertById(rows, own)| == |rows| + 1
    ensures forall r :: r in InsertById(rows, own) <==> r in rows || r == own
  {
    if rows != [] && own.id <= rows[|rows| - 1].id {
      InsertedHas(rows[..|rows| - 1], own);
      assert forall r :: r in rows <==> r in rows[..|rows| - 1] || r == rows[|rows| - 1];
    }
  }

  lemma {:induction false} InsertedSorted(rows: seq<Stored>, own: Stored)
    requires Sorted(rows) && own.id !in Ids(rows)
    ensures Sorted(InsertById(rows, own))
  {
    if rows != [] && own.id <= rows[|rows| - 1].id {
      var front, last := rows[..|rows| - 1], rows[|rows| - 1];
      assert last in rows;
      assert Ids(front) <= Ids(rows);
      InsertedSorted(front, own);
      InsertedHas(front, own);
      SortedSnoc(InsertById(front, own), last);
    }
  }

  lemma SortedSnoc(rows: seq<Stored>, last: Stored)
    requires Sorted(rows) && forall r :: r in rows ==> r.id < last.id
    ensures Sorted(rows + [last])
  {
  }

  lemma InsertedRows(rows: seq<Stored>, own: Stored)
    requires Sorted(rows) && own.id !in Ids(rows)
    ensures Sorted(InsertById(rows, own))
    ensures |InsertById(rows, own)| == |rows| + 1
    ensures forall r :: r in InsertById(rows, own) <==> r in rows || r == own
  {
    InsertedSorted(rows, own);
    InsertedHas(rows, own);
  }

  lemma {:induction false} WithoutRows(rows: seq<Stored>, ids: set<nat>)
    requires Sorted(rows)
    ensures Sorted(Without(rows, ids)) && |Without(rows, ids)| <= |rows|
    ensures forall r :: r in Without(rows, ids) <==> r in rows && r.id !in ids
  {
    if rows != [] {
      var front, last := rows[..|rows| - 1], rows[|rows| - 1];
      WithoutRows(front, ids);
      assert forall r :: r in rows <==> r in front || r == last;
      assert forall r :: r in front ==> r.id < last.id;
    }
  }

  /** A trim names the oldest rows, so it names none after a row that it keeps. */
  lemma ToTrimOldest(view: seq<Stored>, own: Stored)
    requires Sorted(view) && own in view
    ensures own.id in ToTrim(view) || forall d :: d in ToTrim(view) ==> d < own.id
  {
    var k :| 0 <= k < |view| && view[k] == own;
    var e := Excess(|view|);
    if k < e {
      assert own in view[..e];
    } else {
      forall d | d in ToTrim(view) ensures d < own.id {
        var r :| r in view[..e] && r.id == d;
        var i :| 0 <= i < e && view[..e][i] == r;
        assert view[i].id < view[k].id;
      }
    }
  }

  lemma OldestIds(view: seq<Stored>, e: nat, i: nat)
    requires Sorted(view) && e <= |view| && i < |view|
    ensures view[i].id in Ids(view[..e]) <==> i < e
  {
    if i < e {
      assert view[..e][i] in view[..e];
    } else {
      assert forall r :: r in view[..e] ==> r.id < view[i].id;
    }
  }

  /** With its row the newest, a trim names what it should. */
  lemma ToTrimFresh(rows: seq<Stored>, own: Stored)
    requires Sorted(rows) && Newest(rows, own)
    ensures Fresh(rows, own, ToTrim(InsertById(rows, own)))
  {
    var view := rows + [own];
    assert Sorted(view);
    OldestIds(view, Excess(|view|), |rows|);
    forall i | 0 <= i < |rows| ensures rows[i].id in ToTrim(view) <==> i < Excess(|view|) {
      OldestIds(view, Excess(|view|), i);
      assert view[i] == rows[i];
    }
  }

  // ---------------------------------------------------------------- every step keeps it

  /** A step that leaves rows and passwords alone takes nothing from what a caller knows. */
  lemma Unchanged(s: State, s': State, p: Phase)
    requires PhaseOk(s, p) && s'.rows == s.rows && s'.had == s.had && s'.nextId >= s.nextId
    ensures PhaseOk(s', p)
  {
  }

  /** A new password leaves a caller only what holds at any later time. */
  lemma Overtaken(s: State, s': State, p: Phase, x: string)
    requires PhaseOk(s, p) && s'.had == s.had + [x] && s'.nextId == s.nextId
    requires OwnId(p).Some? ==> OwnId(p).value !in Ids(s'.rows)
    ensures PhaseOk(s', p)
  {
  }

  lemma OwnIdsStep(s: State, w: nat, p: Phase)
    requires OwnIdsApart(s) && w < |s.callers|
    requires OwnId(p).Some? ==> OwnId(p) == OwnId(s.callers[w])
    ensures OwnIdsApart(SetPhase(s, w, p))
  {
  }

  /** Steps that only change what their caller knows. */
  lemma PhaseStep(s: State, w: nat, p: Phase)
    requires Inv(s) && w < |s.callers| && PhaseOk(s, p)
    requires OwnId(p).Some? ==> OwnId(p) == OwnId(s.callers[w])
    ensures Inv(SetPhase(s, w, p))
  {
    OwnIdsStep(s, w, p);
    forall v | 0 <= v < |s.callers| ensures PhaseOk(SetPhase(s, w, p), SetPhase(s, w, p).callers[v]) {
      Unchanged(s, SetPhase(s, w, p), SetPhase(s, w, p).callers[v]);
    }
  }

  lemma RehashInv(s: State, w: nat)
    requires Inv(s) && Enabled(s, WriteRehash(w))
    ensures Inv(Apply(s, WriteRehash(w)))
  {
    var s' := Apply(s, WriteRehash(w));
    assert PhaseOk(s, s.callers[w]);
    OwnIdsStep(s, w, Idle);
    forall v | 0 <= v < |s'.callers| ensures PhaseOk(s', s'.callers[v]) {
      if v != w {
        assert PhaseOk(s, s.callers[v]);
        if IsCurrent(s, s.callers[w].plain) {
          Unchanged(s, s', s.callers[v]);
        } else {
          forall id | OwnId(s.callers[v]) == Some(id) ensures id !in Ids(s'.rows) {
          }
          Overtaken(s, s', s.callers[v], s.callers[w].plain);
        }
      }
    }
  }

  lemma InsertInv(s: State, w: nat)
    requires Inv(s) && Enabled(s, Insert(w))
    ensures Inv(Apply(s, Insert(w)))
  {
    var s' := Apply(s, Insert(w));
    assert PhaseOk(s, s.callers[w]);
    assert s.nextId !in Ids(s.rows);
    assert s.rows != [] ==> s.rows[|s.rows| - 1] in s.rows;
    forall v | 0 <= v < |s.callers| && v != w
      ensures OwnId(s'.callers[v]) != Some(s.nextId) && PhaseOk(s', s'.callers[v]) {
      assert PhaseOk(s, s.callers[v]);
      Unchanged(s, s', s.callers[v]);
    }
  }

  lemma TrimInv(s: State, w: nat)
    requires Inv(s) && Enabled(s, Trim(w))
    ensures Inv(Apply(s, Trim(w)))
  {
    var c := s.callers[w].c;
    var own := c.own.value;
    var view := InsertById(s.rows, own);
    assert PhaseOk(s, s.callers[w]);
    InsertedRows(s.rows, own);
    ToTrimOldest(view, own);
    if c.readAt == |s.had| {
      ToTrimFresh(s.rows, own);
    }
    PhaseStep(s, w, DeleteDue(c.(dropped := ToTrim(view))));
  }

  lemma CommitRowsOk(s: State, c: Change)
    requires Inv(s) && OwnOk(s, c)
    ensures var rows := CommittedRows(s.rows, c);
            && Sorted(rows)
            && (forall r :: r in rows ==> r.id < s.nextId)
            && Ids(rows) <= Ids(s.rows) + (if c.own.Some? then {c.own.value.id} else {})
  {
    if c.own.Some? {
      InsertedRows(s.rows, c.own.value);
      WithoutRows(InsertById(s.rows, c.own.value), c.dropped);
    }
  }

  lemma CommitInv(s: State, w: nat)
    requires Inv(s) && Enabled(s, Commit(w))
    ensures Inv(Apply(s, Commit(w)))
  {
    var s', c := Apply(s, Commit(w)), s.callers[w].c;
    assert PhaseOk(s, s.callers[w]);
    CommitRowsOk(s, c);
    OwnIdsStep(s, w, Idle);
    forall v | 0 <= v < |s'.callers| ensures PhaseOk(s', s'.callers[v]) {
      if v != w {
        assert PhaseOk(s, s.callers[v]);
        assert OwnId(s.callers[v]).Some? ==> OwnId(s.callers[v]) != OwnId(s.callers[w]);
        Overtaken(s, s', s.callers[v], c.plain);
      }
    }
  }

  lemma InvStep(s: State, a: Action)
    requires Inv(s) && Enabled(s, a)
    ensures Inv(Apply(s, a))
  {
    assert PhaseOk(s, s.callers[a.w]);
    match a
    case WriteRehash(w) => RehashInv(s, w);
    case Insert(w) => InsertInv(s, w);
    case Trim(w) => TrimInv(s, w);
    case Commit(w) => CommitInv(s, w);
    case _ => PhaseStep(s, a.w, Apply(s, a).callers[a.w]);
  }

  lemma InvInitial(s: State)
    requires Initial(s)
    ensures Inv(s)
  {
  }

  // ---------------------------------------------------------------- what a commit leaves

  lemma {:induction false} WithoutOldest(rows: seq<Stored>, ids: set<nat>, k: nat)
    requires k <= |rows| && forall i :: 0 <= i < |rows| ==> (rows[i].id in ids <==> i < k)
    ensures Without(rows, ids) == rows[k..]
  {
    if rows != [] {
      var front := rows[..|rows| - 1];
      if k == |rows| {
        WithoutOldest(front, ids, k - 1);
      } else {
        WithoutOldest(front, ids, k);
        assert rows[k..] == front[k..] + [rows[|rows| - 1]];
      }
    }
  }

  lemma WithoutSnoc(rows: seq<Stored>, own: Stored, ids: set<nat>)
    ensures Without(rows + [own], ids) == if own.id in ids then Without(rows, ids) else Without(rows, ids) + [own]
  {
    assert (rows + [own])[..|rows|] == rows;
  }

  /** The newest LIMIT earlier passwords once cur is an earlier one too. */
  lemma NextEarlier(front: seq<string>, cur: string)
    ensures var recent := LastN(front, PASSWORD_HISTORY_LIMIT);
            LastN(front + [cur], PASSWORD_HISTORY_LIMIT) == recent[Excess(|recent| + 1)..] + [cur]
  {
    LastNSnoc(front, cur, PASSWORD_HISTORY_LIMIT - 1);
  }

  lemma FreshRows(rows: seq<Stored>, own: Stored, dropped: set<nat>)
    requires Fresh(rows, own, dropped)
    ensures Without(InsertById(rows, own), dropped) == rows[Excess(|rows| + 1)..] + [own]
  {
    WithoutSnoc(rows, own, dropped);
    WithoutOldest(rows, dropped, Excess(|rows| + 1));
  }

  ghost predicate AllDistinct(ps: seq<string>) {
    forall i, j :: 0 <= i < j < |ps| ==> ps[i] != ps[j]
  }

  lemma PlainIn(rows: seq<Stored>, r: Stored)
    ensures r in rows ==> r.hash.plain in PlainsOf(rows)
  {
    forall i | 0 <= i < |rows| ensures rows[i].hash.plain in PlainsOf(rows) {
      assert PlainsOf(rows)[i] == rows[i].hash.plain;
    }
  }

  lemma OnePlain(rows: seq<Stored>, r: Stored, q: Stored)
    requires AllDistinct(PlainsOf(rows)) && r in rows && q in rows && r.hash.plain == q.hash.plain
    ensures r == q
  {
    var i :| 0 <= i < |rows| && rows[i] == r;
    var j :| 0 <= j < |rows| && rows[j] == q;
    assert PlainsOf(rows)[i] == PlainsOf(rows)[j];
  }

  /** Rows with distinct passwords: a row is left exactly when its password is. */
  lemma LeftByPlain(rows: seq<Stored>, dropped: set<nat>, r: Stored)
    requires Sorted(rows) && AllDistinct(PlainsOf(rows)) && r in rows
    ensures r.hash.plain in PlainsOf(Without(rows, dropped)) <==> r.id !in dropped
  {
    var left := Without(rows, dropped);
    WithoutRows(rows, dropped);
    PlainIn(left, r);
    if r.hash.plain in PlainsOf(left) {
      var i :| 0 <= i < |left| && PlainsOf(left)[i] == r.hash.plain;
      assert left[i] in left;
      OnePlain(rows, left[i], r);
    }
  }

  lemma TailHas(ps: seq<string>, k: nat, i: nat)
    requires AllDistinct(ps) && k <= |ps| && i < |ps|
    ensures ps[i] in ps[k..] <==> i >= k
  {
    if i >= k {
      assert ps[k..][i - k] == ps[i];
    } else {
      forall j | 0 <= j < |ps[k..]| ensures ps[k..][j] != ps[i] {
        assert ps[k..][j] == ps[k + j];
      }
    }
  }

  /** So what is left tells what was deleted. */
  lemma LeftTellsDeleted(rows: seq<Stored>, dropped: set<nat>, k: nat)
    requires Sorted(rows) && AllDistinct(PlainsOf(rows)) && k <= |rows|
    requires PlainsOf(Without(rows, dropped)) == PlainsOf(rows)[k..]
    ensures forall i :: 0 <= i < |rows| ==> (rows[i].id in dropped <==> i < k)
  {
    forall i | 0 <= i < |rows| ensures rows[i].id in dropped <==> i < k {
      LeftByPlain(rows, dropped, rows[i]);
      TailHas(PlainsOf(rows), k, i);
    }
  }

  lemma LastIsNewest(left: seq<Stored>, r: Stored)
    requires Sorted(left) && left != []
    ensures r in left ==> r.id <= left[|left| - 1].id
  {
    forall i | 0 <= i < |left| ensures left[i].id <= left[|left| - 1].id {
    }
  }

  /** The last row left carries a password that no earlier row does, so it is the new one, and after all others. */
  lemma LastIsOwn(rows: seq<Stored>, own: Stored, dropped: set<nat>, cur: string)
    requires Sorted(rows) && own.id !in Ids(rows)
    requires own.id in dropped || forall d :: d in dropped ==> d < own.id
    requires cur !in PlainsOf(rows)
    requires var left := Without(InsertById(rows, own), dropped); left != [] && left[|left| - 1].hash.plain == cur
    ensures own.hash.plain == cur && own.id !in dropped && Newest(rows, own)
  {
    var view := InsertById(rows, own);
    var left := Without(view, dropped);
    InsertedRows(rows, own);
    WithoutRows(view, dropped);
    assert left[|left| - 1] in left;
    PlainIn(rows, left[|left| - 1]);
    if rows != [] {
      var r := rows[|rows| - 1];
      assert r.id in Ids(rows);
      LastIsNewest(left, r);
    }
  }

  /** Fresh rows aside, the committed rows end otherwise or are others. */
  lemma LeftIsFresh(rows: seq<Stored>, own: Stored, dropped: set<nat>, cur: string, k: nat)
    requires Sorted(rows) && own.id !in Ids(rows) && k <= |rows|
    requires own.id in dropped || forall d :: d in dropped ==> d < own.id
    requires AllDistinct(PlainsOf(rows)) && cur !in PlainsOf(rows)
    requires PlainsOf(Without(InsertById(rows, own), dropped)) == PlainsOf(rows)[k..] + [cur]
    ensures own.hash.plain == cur && own.id !in dropped && Newest(rows, own)
    ensures forall i :: 0 <= i < |rows| ==> (rows[i].id in dropped <==> i < k)
  {
    var left := Without(InsertById(rows, own), dropped);
    assert PlainsOf(left)[|left| - 1] == cur;
    LastIsOwn(rows, own, dropped, cur);
    WithoutSnoc(rows, own, dropped);
    assert PlainsOf(Without(rows, dropped)) == PlainsOf(left)[..|left| - 1] == PlainsOf(rows)[k..];
    LeftTellsDeleted(rows, dropped, k);
  }

  /** Committed rows are the most recent earlier passwords exactly when the change read cur and is fresh. */
  lemma CommitKeepsIff(rows: seq<Stored>, own: Stored, dropped: set<nat>, front: seq<string>, cur: string)
    requires Sorted(rows) && own.id !in Ids(rows)
    requires own.id in dropped || forall d :: d in dropped ==> d < own.id
    requires PlainsOf(rows) == LastN(front, PASSWORD_HISTORY_LIMIT)
    requires AllDistinct(PlainsOf(rows)) && cur !in PlainsOf(rows)
    ensures PlainsOf(Without(InsertById(rows, own), dropped)) == LastN(front + [cur], PASSWORD_HISTORY_LIMIT)
       <==> own.hash.plain == cur && Fresh(rows, own, dropped)
  {
    var k := Excess(|rows| + 1);
    NextEarlier(front, cur);
    if PlainsOf(Without(InsertById(rows, own), dropped)) == PlainsOf(rows)[k..] + [cur] {
      LeftIsFresh(rows, own, dropped, cur, k);
    } else if Fresh(rows, own, dropped) {
      FreshPlains(rows, own, dropped);
    }
  }

  lemma FreshPlains(rows: seq<Stored>, own: Stored, dropped: set<nat>)
    requires Fresh(rows, own, dropped)
    ensures PlainsOf(Without(InsertById(rows, own), dropped)) == PlainsOf(rows)[Excess(|rows| + 1)..] + [own.hash.plain]
  {
    FreshRows(rows, own, dropped);
  }

  // ---------------------------------------------------------------- the exact condition

  lemma RecentParts(had: seq<string>)
    requires RecentlyDistinct(had) && had != []
    ensures var recent := LastN(Earlier(had), PASSWORD_HISTORY_LIMIT);
            AllDistinct(recent) && had[|had| - 1] !in recent
  {
    var front := Earlier(had);
    var recent := LastN(front, PASSWORD_HISTORY_LIMIT);
    var d := |front| - |recent|;
    assert forall i :: 0 <= i < |recent| ==> recent[i] == had[d + i];
    forall i, j | 0 <= i < j < |recent| ensures recent[i] != recent[j] {
      assert had[d + i] != had[d + j];
    }
    forall i | 0 <= i < |recent| ensures recent[i] != had[|had| - 1] {
      assert had[d + i] != had[|had| - 1];
    }
  }

  lemma DistinctNext(had: seq<string>, x: string)
    requires RecentlyDistinct(had)
    ensures RecentlyDistinct(had + [x]) <==> x !in LastN(had, PASSWORD_HISTORY_LIMIT + 1)
  {
    var recent, longer := LastN(had, PASSWORD_HISTORY_LIMIT + 1), had + [x];
    var d := |had| - |recent|;
    if x in recent {
      var i :| 0 <= i < |recent| && recent[i] == x;
      assert longer[d + i] == longer[|had|];
    } else {
      forall i, j | 0 <= i < j < |longer| && j - i <= PASSWORD_HISTORY_LIMIT + 1 ensures longer[i] != longer[j] {
        if j == |had| {
          assert recent[i - d] == had[i];
        } else {
          assert had[i] != had[j];
        }
      }
    }
  }

  /** What a check has found out, once its first statement has run. */
  function CheckOf(p: Phase): Option<(string, nat)> {
    match p
    case HistoryClear(plain, since) => Some((plain, since))
    case Admitted(plain, since) => Some((plain, since))
    case InsertDue(plain, since, _, _) => Some((plain, since))
    case TrimDue(c) => Some((c.plain, c.since))
    case DeleteDue(c) => Some((c.plain, c.since))
    case UpdateDue(c) => Some((c.plain, c.since))
    case CommitDue(c) => Some((c.plain, c.since))
    case _ => None
  }

  /** The password was none of the most recent earlier ones when its check fetched the history. */
  ghost predicate CheckedOk(s: State, p: Phase) {
    CheckOf(p).Some? ==>
      var (plain, since) := CheckOf(p).value;
      since <= |s.had| && plain !in LastN(Earlier(s.had[..since]), PASSWORD_HISTORY_LIMIT)
  }

  ghost predicate GoodInv(s: State) {
    Inv(s) && Good(s) && forall w :: 0 <= w < |s.callers| ==> CheckedOk(s, s.callers[w])
  }

  lemma Fetched(had: seq<string>, since: nat, at: nat)
    requires 0 < since <= |had| && |had| <= at + PASSWORD_HISTORY_LIMIT + 1 && at + 1 < since
    ensures had[at] in LastN(Earlier(had[..since]), PASSWORD_HISTORY_LIMIT)
  {
    var front := Earlier(had[..since]);
    var fetched := LastN(front, PASSWORD_HISTORY_LIMIT);
    assert front[at] == had[at];
    assert fetched[at - (|front| - |fetched|)] == had[at];
  }

  /** Of the latest passwords, a check can only have missed those that were current since it began. */
  lemma MissedIff(had: seq<string>, plain: string, since: nat)
    requires since <= |had| && plain !in LastN(Earlier(had[..since]), PASSWORD_HISTORY_LIMIT)
    ensures var n := PASSWORD_HISTORY_LIMIT + 1; plain in LastN(had, n) <==> plain in LastN(CurrentSince(had, since), n)
  {
    var n := PASSWORD_HISTORY_LIMIT + 1;
    var all, part := LastN(had, n), LastN(CurrentSince(had, since), n);
    var d := |all| - |part|;
    assert all[d..] == part;
    forall i | 0 <= i < d ensures all[i] != plain {
      Fetched(had, since, |had| - |all| + i);
    }
    assert plain !in all[..d];
    assert all == all[..d] + all[d..];
  }

  lemma LastOfRecent(front: seq<string>, cur: string, ps: seq<string>)
    requires cur !in ps
    ensures ps != LastN(front + [cur], PASSWORD_HISTORY_LIMIT)
  {
    NextEarlier(front, cur);
    var expected := LastN(front + [cur], PASSWORD_HISTORY_LIMIT);
    assert expected[|expected| - 1] == cur;
  }

  /** The rows after a commit are the most recent earlier passwords exactly when its reads stand. */
  lemma CommittedRowsIff(s: State, c: Change)
    requires Inv(s) && Good(s) && TrimmedOk(s, c)
    ensures PlainsOf(CommittedRows(s.rows, c)) == LastN(s.had, PASSWORD_HISTORY_LIMIT) <==> ReadsStand(s, c)
  {
    if s.had != [] {
      var front, cur := Earlier(s.had), s.had[|s.had| - 1];
      assert s.had == front + [cur];
      RecentParts(s.had);
      if c.own.Some? {
        CommitKeepsIff(s.rows, c.own.value, c.dropped, front, cur);
      } else {
        LastOfRecent(front, cur, PlainsOf(s.rows));
      }
    }
  }

  lemma CommitIff(s: State, w: nat)
    requires GoodInv(s) && Enabled(s, Commit(w))
    ensures Good(Apply(s, Commit(w))) <==> Timely(s, Commit(w))
  {
    var c := s.callers[w].c;
    assert PhaseOk(s, s.callers[w]) && CheckedOk(s, s.callers[w]);
    MissedIff(s.had, c.plain, c.since);
    DistinctNext(s.had, c.plain);
    CommittedRowsIff(s, c);
    assert Earlier(s.had + [c.plain]) == s.had;
  }

  lemma RehashIff(s: State, w: nat)
    requires GoodInv(s) && Enabled(s, WriteRehash(w))
    ensures Good(Apply(s, WriteRehash(w))) <==> Timely(s, WriteRehash(w))
  {
    var s' := Apply(s, WriteRehash(w));
    assert PhaseOk(s, s.callers[w]);
    if !IsCurrent(s, s.callers[w].plain) {
      var front, cur := Earlier(s.had), s.had[|s.had| - 1];
      assert s.had == front + [cur] && Earlier(s'.had) == s.had;
      RecentParts(s.had);
      LastOfRecent(front, cur, PlainsOf(s.rows));
    }
  }

  /** From a good state, a step leads to a good state exactly when it comes in time. */
  lemma StepIff(s: State, a: Action)
    requires GoodInv(s) && Enabled(s, a)
    ensures Good(Apply(s, a)) <==> Timely(s, a)
  {
    match a
    case WriteRehash(w) => RehashIff(s, w);
    case Commit(w) => CommitIff(s, w);
    case _ =>
  }

  lemma CheckedStep(s: State, a: Action)
    requires GoodInv(s) && Enabled(s, a)
    ensures forall w :: 0 <= w < |s.callers| ==> CheckedOk(Apply(s, a), Apply(s, a).callers[w])
  {
    forall w | 0 <= w < |s.callers| ensures CheckedOk(Apply(s, a), Apply(s, a).callers[w]) {
      if a.CheckHistory? && w == a.w && !InHistory(s, a.plain) {
        NotStored(s, a.plain);
        assert s.had[..|s.had|] == s.had;
      } else {
        CheckedKept(s, a, w);
      }
    }
  }

  lemma CheckedKept(s: State, a: Action, w: nat)
    requires GoodInv(s) && Enabled(s, a) && w < |s.callers|
    requires !(a.CheckHistory? && w == a.w && !InHistory(s, a.plain))
    ensures CheckedOk(Apply(s, a), Apply(s, a).callers[w])
  {
    var s' := Apply(s, a);
    assert s.had <= s'.had;
    assert CheckedOk(s, s.callers[w]);
    if CheckOf(s'.callers[w]).Some? {
      assert CheckOf(s'.callers[w]) == CheckOf(s.callers[w]);
      var since := CheckOf(s.callers[w]).value.1;
      assert s'.had[..since] == s.had[..since];
    }
  }

  /** With good rows the fetch compares with the most recent earlier passwords. */
  lemma NotStored(s: State, plain: string)
    requires HistoryRecent(s)
    ensures InHistory(s, plain) <==> plain in LastN(Earlier(s.had), PASSWORD_HISTORY_LIMIT)
  {
    assert LastN(s.rows, PASSWORD_HISTORY_LIMIT) == s.rows by {
      assert |s.rows| == |PlainsOf(s.rows)|;
    }
    if plain in PlainsOf(s.rows) {
      var i :| 0 <= i < |s.rows| && PlainsOf(s.rows)[i] == plain;
      assert s.rows[i] in s.rows;
    }
    if InHistory(s, plain) {
      var r :| r in s.rows && VerifyPassword(plain, r.hash);
      var i :| 0 <= i < |s.rows| && s.rows[i] == r;
      assert PlainsOf(s.rows)[i] == plain;
    }
  }

  lemma GoodInvStep(s: State, a: Action)
    requires GoodInv(s) && Enabled(s, a) && Good(Apply(s, a))
    ensures GoodInv(Apply(s, a))
  {
    InvStep(s, a);
    CheckedStep(s, a);
  }

  lemma InitialGood(s: State)
    requires Initial(s)
    ensures GoodInv(s)
  {
    InvInitial(s);
  }

  /** The first n + 1 states are good. */
  ghost predicate GoodUpTo(states: seq<State>, n: nat)
    requires n < |states|
  {
    Good(states[n]) && (n > 0 ==> GoodUpTo(states, n - 1))
  }

  /** The first n steps come in time. */
  ghost predicate TimelyUpTo(states: seq<State>, acts: seq<Action>, n: nat)
    requires IsRun(states, acts) && n <= |acts|
  {
    n > 0 ==> Timely(states[n - 1], acts[n - 1]) && TimelyUpTo(states, acts, n - 1)
  }

  /**
   In every run of any callers: the history is exactly the most recent earlier passwords, and any
   LIMIT + 2 passwords in a row are distinct, all along, exactly when every write comes in time.
   */
  lemma {:induction false} RunIff(states: seq<State>, acts: seq<Action>, n: nat)
    requires IsRun(states, acts) && n <= |acts|
    ensures GoodUpTo(states, n) <==> TimelyUpTo(states, acts, n)
    ensures GoodUpTo(states, n) ==> GoodInv(states[n])
  {
    if n == 0 {
      InitialGood(states[0]);
    } else {
      RunIff(states, acts, n - 1);
      var s, a := states[n - 1], acts[n - 1];
      assert Enabled(s, a) && states[n] == Apply(s, a);
      if GoodUpTo(states, n - 1) {
        StepIff(s, a);
        if Good(states[n]) {
          GoodInvStep(s, a);
        }
      }
    }
  }

  // ---------------------------------------------------------------- schedules that come in time

  /** A change during whose check, reads and writes no other password is written comes in time. */
  lemma QuietChangeTimely(s: State, w: nat)
    requires Inv(s) && Enabled(s, Commit(w)) && s.callers[w].c.since == |s.had|
    ensures Timely(s, Commit(w))
  {
    assert PhaseOk(s, s.callers[w]);
  }

  lemma QuietRehashTimely(s: State, w: nat)
    requires Inv(s) && Enabled(s, WriteRehash(w)) && s.callers[w].readAt == |s.had|
    ensures Timely(s, WriteRehash(w))
  {
    assert PhaseOk(s, s.callers[w]);
  }

  /**
   With at most LIMIT + 1 passwords written since its read, the reads of a change stand exactly
   when none was; with more, an old password may be current again.
   */
  lemma ReadsStandIff(s: State, w: nat)
    requires GoodInv(s) && Enabled(s, Commit(w)) && |s.had| <= s.callers[w].c.readAt + PASSWORD_HISTORY_LIMIT + 1
    ensures ReadsStand(s, s.callers[w].c) <==> s.callers[w].c.readAt == |s.had|
  {
    var c := s.callers[w].c;
    assert PhaseOk(s, s.callers[w]);
    if c.own.Some? && c.readAt < |s.had| {
      assert s.had[c.readAt - 1] != s.had[|s.had| - 1];
    }
  }

  lemma RehashStandsIff(s: State, w: nat)
    requires GoodInv(s) && Enabled(s, WriteRehash(w)) && |s.had| <= s.callers[w].readAt + PASSWORD_HISTORY_LIMIT + 1
    ensures Timely(s, WriteRehash(w)) <==> s.callers[w].readAt == |s.had|
  {
    assert PhaseOk(s, s.callers[w]);
    if s.callers[w].readAt < |s.had| {
      assert s.had[s.callers[w].readAt - 1] != s.had[|s.had| - 1];
    }
  }

  /** No password is written between the first read behind this write and the write itself. */
  predicate Quiet(s: State, a: Action)
    requires Enabled(s, a)
  {
    match a
    case WriteRehash(w) => s.callers[w].readAt == |s.had|
    case Commit(w) => s.callers[w].c.since == |s.had|
    case _ => true
  }

  lemma {:induction false} InvRun(states: seq<State>, acts: seq<Action>, i: nat)
    requires IsRun(states, acts) && i < |states|
    ensures Inv(states[i])
  {
    if i == 0 {
      InvInitial(states[0]);
    } else {
      InvRun(states, acts, i - 1);
      InvStep(states[i - 1], acts[i - 1]);
    }
  }

  lemma QuietTimely(s: State, a: Action)
    requires Inv(s) && Enabled(s, a) && Quiet(s, a)
    ensures Timely(s, a)
  {
    match a
    case WriteRehash(w) => QuietRehashTimely(s, w);
    case Commit(w) => QuietChangeTimely(s, w);
    case _ =>
  }

  lemma {:induction false} QuietRunTimely(states: seq<State>, acts: seq<Action>, n: nat)
    requires IsRun(states, acts) && n <= |acts|
    requires forall i :: 0 <= i < n ==> Quiet(states[i], acts[i])
    ensures TimelyUpTo(states, acts, n)
  {
    if n > 0 {
      QuietRunTimely(states, acts, n - 1);
      InvRun(states, acts, n - 1);
      QuietTimely(states[n - 1], acts[n - 1]);
    }
  }

  /** In particular: logins and changes that do not overlap a password write keep history and distinctness. */
  lemma QuietRunGood(states: seq<State>, acts: seq<Action>, n: nat)
    requires IsRun(states, acts) && n <= |acts|
    requires forall i :: 0 <= i < n ==> Quiet(states[i], acts[i])
    ensures HistoryRecent(states[n]) && RecentlyDistinct(states[n].had)
  {
    QuietRunTimely(states, acts, n);
    RunIff(states, acts, n);
  }

  /** A check that nothing comes between turns a password away exactly when it is among the last LIMIT + 1. */
  lemma ReusedIff(s: State, plain: string)
    requires Inv(s) && Good(s)
    ensures InHistory(s, plain) || IsCurrent(s, plain) <==> plain in LastN(s.had, PASSWORD_HISTORY_LIMIT + 1)
  {
    NotStored(s, plain);
    if s.had != [] {
      var front, cur := Earlier(s.had), s.had[|s.had| - 1];
      assert s.had == front + [cur];
      LastNSnoc(front, cur, PASSWORD_HISTORY_LIMIT);
    }
  }
}
