/**
 Schedules of backend/auth.py that write too late, and the schedule without overlap.

 Each schedule is put together from stretches of one caller: a check, the reads and the trim of a
 change, its delete, update and commit.  A stretch that nothing comes between takes a state to a
 state given by a function.  A whole change or login without anything in between has the effect
 that the methods on the tables have; the four others leave a history that is not exact, or a
 password that is used again too soon.
 */
module PasswordRaces {
  import opened Wrappers
  import opened PasswordHistory
  import opened PasswordRuns

  ghost predicate Executes(s: State, acts: seq<Action>, s': State)
    decreases |acts|
  {
    if acts == [] then s == s' else Enabled(s, acts[0]) && Executes(Apply(s, acts[0]), acts[1..], s')
  }

  lemma {:induction false} ExecutesAppend(s: State, a: seq<Action>, m: State, b: seq<Action>, s': State)
    requires Executes(s, a, m) && Executes(m, b, s')
    ensures Executes(s, a + b, s')
    decreases |a|
  {
    if a == [] {
      assert a + b == b;
    } else {
      ExecutesAppend(Apply(s, a[0]), a[1..], m, b, s');
      ExecutesCons(s, a[0], a[1..] + b, s');
      assert a + b == [a[0]] + (a[1..] + b);
    }
  }

  lemma ExecutesCons(s: State, a: Action, rest: seq<Action>, s': State)
    requires Enabled(s, a) && Executes(Apply(s, a), rest, s')
    ensures Executes(s, [a] + rest, s')
  {
    assert ([a] + rest)[1..] == rest;
  }

  lemma ExecutesOne(s: State, a: Action)
    requires Enabled(s, a)
    ensures Executes(s, [a], Apply(s, a))
  {
    assert [a][1..] == [];
  }

  /** What executes from an initial state is a run. */
  lemma {:induction false} ExecutesIsRun(s: State, acts: seq<Action>, s': State) returns (states: seq<State>)
    requires Executes(s, acts, s')
    ensures |states| == |acts| + 1 && states[0] == s && states[|acts|] == s'
    ensures Initial(s) ==> IsRun(states, acts)
    ensures forall i :: 0 <= i < |acts| ==> Enabled(states[i], acts[i]) && states[i + 1] == Apply(states[i], acts[i])
    decreases |acts|
  {
    if acts == [] {
      states := [s];
    } else {
      var rest := ExecutesIsRun(Apply(s, acts[0]), acts[1..], s');
      states := [s] + rest;
      forall i | 0 <= i < |acts| ensures Enabled(states[i], acts[i]) && states[i + 1] == Apply(states[i], acts[i]) {
        if i > 0 {
          assert states[i] == rest[i - 1] && acts[i] == acts[1..][i - 1];
        }
      }
    }
  }

  lemma RunOf(s: State, acts: seq<Action>, s': State) returns (states: seq<State>)
    requires Initial(s) && Executes(s, acts, s')
    ensures IsRun(states, acts) && states[|acts|] == s'
  {
    states := ExecutesIsRun(s, acts, s');
  }

  // ---------------------------------------------------------------- stretches of one caller

  function AfterCheck(s: State, w: nat, plain: string): State
    requires w < |s.callers|
  {
    SetPhase(s, w, Admitted(plain, |s.had|))
  }

  lemma Checks(s: State, w: nat, plain: string)
    requires w < |s.callers| && s.callers[w].Idle? && !InHistory(s, plain) && !IsCurrent(s, plain)
    ensures Executes(s, [CheckHistory(w, plain)] + [CheckCurrent(w)], AfterCheck(s, w, plain))
  {
    var m := Apply(s, CheckHistory(w, plain));
    ExecutesOne(s, CheckHistory(w, plain));
    ExecutesOne(m, CheckCurrent(w));
    assert Apply(m, CheckCurrent(w)) == AfterCheck(s, w, plain);
    ExecutesAppend(s, [CheckHistory(w, plain)], m, [CheckCurrent(w)], AfterCheck(s, w, plain));
  }

  /** The change of an admitted caller once it has read, inserted and trimmed. */
  function Trimmed(s: State, w: nat): Change
    requires w < |s.callers| && s.callers[w].Admitted? && s.current.Some?
  {
    var own := Stored(s.nextId, s.current.value);
    Change.Change(s.callers[w].plain, s.callers[w].since, |s.had|, Some(own), ToTrim(InsertById(s.rows, own)))
  }

  function AfterTrim(s: State, w: nat): State
    requires w < |s.callers| && s.callers[w].Admitted? && s.current.Some?
  {
    SetPhase(s, w, DeleteDue(Trimmed(s, w))).(nextId := s.nextId + 1)
  }

  lemma Trims(s: State, w: nat)
    requires w < |s.callers| && s.callers[w].Admitted? && s.current.Some?
    ensures Executes(s, [ReadOld(w)] + [Insert(w)] + [Trim(w)], AfterTrim(s, w))
  {
    var s1 := Apply(s, ReadOld(w));
    var s2 := Apply(s1, Insert(w));
    ExecutesOne(s, ReadOld(w));
    ExecutesOne(s1, Insert(w));
    ExecutesOne(s2, Trim(w));
    assert Apply(s2, Trim(w)) == AfterTrim(s, w);
    ExecutesAppend(s, [ReadOld(w)], s1, [Insert(w)], s2);
    ExecutesAppend(s, [ReadOld(w)] + [Insert(w)], s2, [Trim(w)], AfterTrim(s, w));
  }

  function AfterCommit(s: State, w: nat): State
    requires w < |s.callers| && s.callers[w].DeleteDue?
  {
    var c := s.callers[w].c;
    SetPhase(s, w, Idle).(current := Some(HashPassword(c.plain)), rows := CommittedRows(s.rows, c),
                                had := s.had + [c.plain])
  }

  lemma Commits(s: State, w: nat)
    requires w < |s.callers| && s.callers[w].DeleteDue? && RowFree(s) && DeletesFree(s, s.callers[w].c.dropped)
    ensures Executes(s, [Delete(w)] + [Update(w)] + [Commit(w)], AfterCommit(s, w))
  {
    var s1 := Apply(s, Delete(w));
    var s2 := Apply(s1, Update(w));
    ExecutesOne(s, Delete(w));
    ExecutesOne(s1, Update(w));
    ExecutesOne(s2, Commit(w));
    assert Apply(s2, Commit(w)) == AfterCommit(s, w);
    ExecutesAppend(s, [Delete(w)], s1, [Update(w)], s2);
    ExecutesAppend(s, [Delete(w)] + [Update(w)], s2, [Commit(w)], AfterCommit(s, w));
  }

  /** No other transaction has come as far as its delete. */
  ghost predicate NoneBeyond(s: State) {
    forall v :: 0 <= v < |s.callers| ==> !s.callers[v].UpdateDue? && !s.callers[v].CommitDue?
  }

  function AfterWrites(s: State, w: nat): State
    requires w < |s.callers| && s.callers[w].Admitted? && s.current.Some?
  {
    AfterCommit(AfterTrim(s, w), w)
  }

  /** An admitted change that runs to its end at once. */
  lemma Writes(s: State, w: nat) returns (acts: seq<Action>)
    requires w < |s.callers| && s.callers[w].Admitted? && s.current.Some? && NoneBeyond(s)
    ensures Executes(s, acts, AfterWrites(s, w))
  {
    Trims(s, w);
    Commits(AfterTrim(s, w), w);
    acts := [ReadOld(w)] + [Insert(w)] + [Trim(w)] + ([Delete(w)] + [Update(w)] + [Commit(w)]);
    ExecutesAppend(s, [ReadOld(w)] + [Insert(w)] + [Trim(w)], AfterTrim(s, w),
                   [Delete(w)] + [Update(w)] + [Commit(w)], AfterWrites(s, w));
  }

  function AfterChange(s: State, w: nat, plain: string): State
    requires w < |s.callers| && s.current.Some?
  {
    AfterWrites(AfterCheck(s, w, plain), w)
  }

  /** A whole change, check included, without anything in between. */
  lemma Changes(s: State, w: nat, plain: string) returns (acts: seq<Action>)
    requires w < |s.callers| && s.callers[w].Idle? && s.current.Some? && NoneBeyond(s)
    requires !InHistory(s, plain) && !IsCurrent(s, plain)
    ensures Executes(s, acts, AfterChange(s, w, plain))
  {
    Checks(s, w, plain);
    var rest := Writes(AfterCheck(s, w, plain), w);
    acts := [CheckHistory(w, plain)] + [CheckCurrent(w)] + rest;
    ExecutesAppend(s, [CheckHistory(w, plain)] + [CheckCurrent(w)], AfterCheck(s, w, plain),
                   rest, AfterChange(s, w, plain));
  }

  // ---------------------------------------------------------------- without overlap

  function HashesIn(rows: seq<Stored>): (r: seq<Hash>)
    ensures |r| == |rows| && forall i :: 0 <= i < |rows| ==> r[i] == rows[i].hash
  {
    seq(|rows|, i requires 0 <= i < |rows| => rows[i].hash)
  }

  /** What the interleaving model keeps of the tables. */
  ghost predicate Shows(s: State, t: Tables, user: string) {
    user in t.passwords && s.current == Current(t, user) && HashesIn(s.rows) == HashesOf(t.history, user)
  }

  /** A change that nothing comes between leaves the newest rows, its own last. */
  lemma WrittenRows(s: State, w: nat)
    requires w < |s.callers| && s.callers[w].Admitted? && s.current.Some? && RowsOk(s)
    ensures AfterWrites(s, w).rows == s.rows[Excess(|s.rows| + 1)..] + [Stored(s.nextId, s.current.value)]
  {
    var own := Stored(s.nextId, s.current.value);
    assert s.rows != [] ==> s.rows[|s.rows| - 1] in s.rows;
    ToTrimFresh(s.rows, own);
    FreshRows(s.rows, own, ToTrim(InsertById(s.rows, own)));
  }

  lemma NewestHashes(rows: seq<Stored>, own: Stored)
    ensures HashesIn(rows[Excess(|rows| + 1)..] + [own]) == LastN(HashesIn(rows) + [own.hash], PASSWORD_HISTORY_LIMIT)
  {
  }

  /** An admitted change that nothing comes between is a run of one caller, with the effect of ChangePassword. */
  lemma ChangeIsSerialRun(s: State, w: nat, t: Tables, user: string, plain: string) returns (acts: seq<Action>)
    requires Shows(s, t, user) && RowsOk(s) && w < |s.callers| && s.callers[w].Idle? && NoneBeyond(s)
    requires s.current.Some? && !Reused(t, user, plain)
    ensures Executes(s, acts, AfterChange(s, w, plain))
    ensures Shows(AfterChange(s, w, plain), Changed(t, user, HashPassword(plain)), user)
  {
    forall r | r in LastN(s.rows, PASSWORD_HISTORY_LIMIT) ensures !VerifyPassword(plain, r.hash) {
      ShownHash(s.rows, r);
      assert r.hash in LastN(HashesOf(t.history, user), PASSWORD_HISTORY_LIMIT);
    }
    acts := Changes(s, w, plain);
    WrittenRows(AfterCheck(s, w, plain), w);
    NewestHashes(s.rows, Stored(s.nextId, s.current.value));
    RecordedHashes(t.history, user, s.current.value);
  }

  lemma ShownHash(rows: seq<Stored>, r: Stored)
    requires r in LastN(rows, PASSWORD_HISTORY_LIMIT)
    ensures r.hash in LastN(HashesIn(rows), PASSWORD_HISTORY_LIMIT)
  {
    var recent := LastN(rows, PASSWORD_HISTORY_LIMIT);
    var i :| 0 <= i < |recent| && recent[i] == r;
    assert LastN(HashesIn(rows), PASSWORD_HISTORY_LIMIT)[i] == r.hash;
  }

  /** So is a login, with the effect of RehashOnLogin on the hash it read. */
  lemma LoginIsSerialRun(s: State, w: nat, t: Tables, user: string, plain: string)
    returns (acts: seq<Action>, s': State)
    requires Shows(s, t, user) && w < |s.callers| && s.callers[w].Idle? && RowFree(s)
    ensures Executes(s, acts, s')
    ensures Shows(s', Rehashed(t, user, plain, Current(t, user)), user)
  {
    var m := Apply(s, ReadLogin(w, plain));
    ExecutesOne(s, ReadLogin(w, plain));
    if m.callers[w].RehashDue? {
      s' := Apply(m, WriteRehash(w));
      ExecutesOne(m, WriteRehash(w));
      ExecutesAppend(s, [ReadLogin(w, plain)], m, [WriteRehash(w)], s');
      acts := [ReadLogin(w, plain)] + [WriteRehash(w)];
    } else {
      acts, s' := [ReadLogin(w, plain)], m;
    }
  }

  // ---------------------------------------------------------------- too late

  /** A user with password a under an outdated hash, and two callers. */
  function Start(a: string): State {
    State(Some(Hash(a, true)), [], 0, [Idle, Idle], [a])
  }

  lemma ExecutesThree(s: State, a: seq<Action>, m: State, b: seq<Action>, n: State, c: seq<Action>, s': State)
    requires Executes(s, a, m) && Executes(m, b, n) && Executes(n, c, s')
    ensures Executes(s, a + (b + c), s')
  {
    ExecutesAppend(m, b, n, c, s');
    ExecutesAppend(s, a, m, b + c, s');
  }

  /** The first change of the user at Start, whatever the second caller is about. */
  lemma FirstChange(s: State, b: string) returns (acts: seq<Action>, s': State)
    requires s.current.Some? && s.current.value.plain != b && s.rows == [] && |s.callers| == 2
    requires s.callers[0].Idle? && NoneBeyond(s)
    ensures Executes(s, acts, s')
    ensures s' == State(Some(HashPassword(b)), [Stored(s.nextId, s.current.value)], s.nextId + 1,
                        [Idle, s.callers[1]], s.had + [b])
  {
    acts, s' := ChangesBeside(s, b);
  }

  lemma SecondWrites(s: State) returns (acts: seq<Action>, s': State)
    requires |s.callers| == 2 && s.callers[1].Admitted? && s.current.Some? && NoneBeyond(s)
    ensures Executes(s, acts, s') && s'.had == s.had + [s.callers[1].plain]
  {
    acts := Writes(s, 1);
    s' := AfterWrites(s, 1);
  }

  lemma LateRehashSteps(a: string, b: string) returns (acts: seq<Action>, s': State)
    requires a != b
    ensures Executes(Start(a), acts, s')
    ensures s'.had == [a, b, a] && s'.current == Some(HashPassword(a))
    ensures PlainsOf(s'.rows) == [a]
    ensures !HistoryRecent(s') && !RecentlyDistinct(s'.had)
  {
    var s1 := Apply(Start(a), ReadLogin(1, a));
    ExecutesOne(Start(a), ReadLogin(1, a));
    var change, s2 := FirstChange(s1, b);
    s' := Apply(s2, WriteRehash(1));
    ExecutesOne(s2, WriteRehash(1));
    ExecutesThree(Start(a), [ReadLogin(1, a)], s1, change, s2, [WriteRehash(1)], s');
    acts := [ReadLogin(1, a)] + (change + [WriteRehash(1)]);
    assert s'.had[0] == s'.had[2] && Earlier(s'.had) == [a, b];
  }

  /** A login that read the hash before a change commits takes the change back when it writes. */
  lemma LateRehash(a: string, b: string) returns (states: seq<State>, acts: seq<Action>)
    requires a != b
    ensures IsRun(states, acts)
    ensures states[|acts|].had == [a, b, a] && states[|acts|].current == Some(HashPassword(a))
    ensures PlainsOf(states[|acts|].rows) == [a]
    ensures !HistoryRecent(states[|acts|]) && !RecentlyDistinct(states[|acts|].had)
  {
    var s';
    acts, s' := LateRehashSteps(a, b);
    states := RunOf(Start(a), acts, s');
  }

  lemma SubmittedTwiceSteps(a: string, b: string) returns (acts: seq<Action>, s': State)
    requires a != b
    ensures Executes(Start(a), acts, s')
    ensures s'.had == [a, b, b] && !RecentlyDistinct(s'.had)
  {
    var s1 := AfterCheck(Start(a), 1, b);
    Checks(Start(a), 1, b);
    var change, s2 := FirstChange(s1, b);
    var rest;
    rest, s' := SecondWrites(s2);
    ExecutesThree(Start(a), [CheckHistory(1, b)] + [CheckCurrent(1)], s1, change, s2, rest, s');
    acts := [CheckHistory(1, b)] + [CheckCurrent(1)] + (change + rest);
    assert s'.had[1] == s'.had[2];
  }

  /** Two submissions of one new password, both checked before either is written. */
  lemma SubmittedTwice(a: string, b: string) returns (states: seq<State>, acts: seq<Action>)
    requires a != b
    ensures IsRun(states, acts)
    ensures states[|acts|].had == [a, b, b] && !RecentlyDistinct(states[|acts|].had)
  {
    var s';
    acts, s' := SubmittedTwiceSteps(a, b);
    states := RunOf(Start(a), acts, s');
  }

  lemma SplitCheckSteps(a: string, b: string) returns (acts: seq<Action>, s': State)
    requires a != b
    ensures Executes(Start(a), acts, s')
    ensures s'.had == [a, b, a] && !RecentlyDistinct(s'.had)
  {
    var s1 := Apply(Start(a), CheckHistory(1, a));
    ExecutesOne(Start(a), CheckHistory(1, a));
    var change, s2 := FirstChange(s1, b);
    var s3 := Apply(s2, CheckCurrent(1));
    ExecutesOne(s2, CheckCurrent(1));
    var rest;
    rest, s' := SecondWrites(s3);
    ExecutesAppend(s2, [CheckCurrent(1)], s3, rest, s');
    ExecutesThree(Start(a), [CheckHistory(1, a)], s1, change, s2, [CheckCurrent(1)] + rest, s');
    acts := [CheckHistory(1, a)] + (change + ([CheckCurrent(1)] + rest));
    assert s'.had[0] == s'.had[2];
  }

  /** A change that commits between the two statements of a check hides the password it replaces. */
  lemma SplitCheck(a: string, b: string) returns (states: seq<State>, acts: seq<Action>)
    requires a != b
    ensures IsRun(states, acts)
    ensures states[|acts|].had == [a, b, a] && !RecentlyDistinct(states[|acts|].had)
  {
    var s';
    acts, s' := SplitCheckSteps(a, b);
    states := RunOf(Start(a), acts, s');
  }

  // ---------------------------------------------------------------- two trims side by side

  lemma {:induction false} WithoutNone(rows: seq<Stored>, ids: set<nat>)
    requires forall r :: r in rows ==> r.id !in ids
    ensures Without(rows, ids) == rows
  {
    if rows != [] {
      WithoutNone(rows[..|rows| - 1], ids);
    }
  }

  /** The second of two changes commits what it inserted and trimmed before the first committed. */
  lemma BesideRows(rows: seq<Stored>, own: Stored, other: Stored)
    requires Sorted(rows) && (forall r :: r in rows ==> r.id < own.id) && own.id < other.id
    ensures var e := Excess(|rows| + 1);
            Without(InsertById(rows[e..] + [other], own), ToTrim(InsertById(rows, own))) == rows[e..] + [own] + [other]
  {
    var e, view := Excess(|rows| + 1), rows + [own];
    assert rows != [] ==> rows[|rows| - 1] in rows;
    assert InsertById(rows, own) == view && view[..e] == rows[..e];
    var kept := rows[e..] + [own] + [other];
    var after := rows[e..] + [other];
    assert after[..|after| - 1] == rows[e..];
    assert InsertById(rows[e..], own) == rows[e..] + [own] by {
      assert rows[e..] != [] ==> rows[e..][|rows| - e - 1] in rows;
    }
    assert InsertById(after, own) == kept;
    forall r | r in kept ensures r.id !in ToTrim(view) {
      if r in rows[e..] {
        var i :| 0 <= i < |rows| - e && rows[e..][i] == r;
        OldestIds(rows, e, e + i);
      }
    }
    WithoutNone(kept, ToTrim(view));
  }

  lemma SecondTrims(s: State, p: string) returns (acts: seq<Action>, s': State)
    requires s.current.Some? && s.callers == [Idle, Idle] && !InHistory(s, p) && !IsCurrent(s, p)
    ensures var own := Stored(s.nextId, s.current.value);
            s' == s.(callers := [Idle, DeleteDue(Change.Change(p, |s.had|, |s.had|, Some(own),
                                                         ToTrim(InsertById(s.rows, own))))],
                     nextId := s.nextId + 1)
    ensures Executes(s, acts, s')
  {
    var m := AfterCheck(s, 1, p);
    Checks(s, 1, p);
    Trims(m, 1);
    s' := AfterTrim(m, 1);
    acts := [CheckHistory(1, p)] + [CheckCurrent(1)] + ([ReadOld(1)] + [Insert(1)] + [Trim(1)]);
    ExecutesAppend(s, [CheckHistory(1, p)] + [CheckCurrent(1)], m, [ReadOld(1)] + [Insert(1)] + [Trim(1)], s');
  }

  lemma ChangesBeside(s: State, q: string) returns (acts: seq<Action>, s': State)
    requires RowsOk(s) && s.current.Some? && |s.callers| == 2 && s.callers[0].Idle? && NoneBeyond(s)
    requires !InHistory(s, q) && !IsCurrent(s, q)
    ensures Executes(s, acts, s')
    ensures s' == State(Some(HashPassword(q)), s.rows[Excess(|s.rows| + 1)..] + [Stored(s.nextId, s.current.value)],
                        s.nextId + 1, [Idle, s.callers[1]], s.had + [q])
  {
    acts := Changes(s, 0, q);
    ChangedBeside(s, q);
    s' := AfterChange(s, 0, q);
  }

  lemma ChangedBeside(s: State, q: string)
    requires RowsOk(s) && s.current.Some? && |s.callers| == 2 && s.callers[0].Idle?
    ensures AfterChange(s, 0, q)
         == State(Some(HashPassword(q)), s.rows[Excess(|s.rows| + 1)..] + [Stored(s.nextId, s.current.value)],
                  s.nextId + 1, [Idle, s.callers[1]], s.had + [q])
  {
    var m := AfterCheck(s, 0, q);
    assert m.rows == s.rows && m.nextId == s.nextId && m.current == s.current;
    WrittenRows(m, 0);
    assert AfterChange(s, 0, q).callers == [Idle, s.callers[1]];
  }

  lemma SecondCommits(s: State, c: Change) returns (acts: seq<Action>, s': State)
    requires s.callers == [Idle, DeleteDue(c)]
    ensures Executes(s, acts, s') && s'.rows == CommittedRows(s.rows, c)
  {
    Commits(s, 1);
    acts, s' := [Delete(1)] + [Update(1)] + [Commit(1)], AfterCommit(s, 1);
  }

  lemma TooMany(s: State)
    requires |s.rows| > PASSWORD_HISTORY_LIMIT
    ensures !HistoryRecent(s)
  {
    assert |LastN(Earlier(s.had), PASSWORD_HISTORY_LIMIT)| <= PASSWORD_HISTORY_LIMIT;
  }

  lemma RunsBeside(s: State, p: string, q: string) returns (acts: seq<Action>, s': State)
    requires RowsOk(s) && s.current.Some? && s.callers == [Idle, Idle]
    requires !InHistory(s, p) && !IsCurrent(s, p) && !InHistory(s, q) && !IsCurrent(s, q)
    ensures Executes(s, acts, s')
    ensures var own, other := Stored(s.nextId, s.current.value), Stored(s.nextId + 1, s.current.value);
            s'.rows == Without(InsertById(s.rows[Excess(|s.rows| + 1)..] + [other], own),
                              ToTrim(InsertById(s.rows, own)))
  {
    var first, s1 := SecondTrims(s, p);
    var change, s2 := ChangesBeside(s1, q);
    var last;
    last, s' := SecondCommits(s2, s1.callers[1].c);
    ExecutesThree(s, first, s1, change, s2, last, s');
    acts := first + (change + last);
  }

  /** Both changes insert and trim before either commits: with no room for two more rows, LIMIT + 1 are left. */
  lemma TrimsBeside(s: State, p: string, q: string) returns (acts: seq<Action>, s': State)
    requires RowsOk(s) && s.current.Some? && s.callers == [Idle, Idle]
    requires PASSWORD_HISTORY_LIMIT < |s.rows| + 2 && |s.rows| <= PASSWORD_HISTORY_LIMIT
    requires !InHistory(s, p) && !IsCurrent(s, p) && !InHistory(s, q) && !IsCurrent(s, q)
    ensures Executes(s, acts, s') && |s'.rows| == PASSWORD_HISTORY_LIMIT + 1 && !HistoryRecent(s')
  {
    acts, s' := RunsBeside(s, p, q);
    BesideRows(s.rows, Stored(s.nextId, s.current.value), Stored(s.nextId + 1, s.current.value));
    TooMany(s');
  }

  /** Between changes: the rows in order, the history exact, nobody at work. */
  ghost predicate Settled(s: State, ps: seq<string>) {
    && ps != [] && s.had == ps && IsCurrent(s, ps[|ps| - 1])
    && RowsOk(s) && HistoryRecent(s) && s.callers == [Idle, Idle]
  }

  lemma FreshRowsOk(s: State, h: Hash)
    requires RowsOk(s)
    ensures var rows := s.rows[Excess(|s.rows| + 1)..] + [Stored(s.nextId, h)];
            && Sorted(rows) && (forall r :: r in rows ==> r.id < s.nextId + 1)
            && PlainsOf(rows) == PlainsOf(s.rows)[Excess(|s.rows| + 1)..] + [h.plain]
  {
    var e := Excess(|s.rows| + 1);
    assert forall r :: r in s.rows[e..] ==> r in s.rows;
  }

  /** A settled user changes to a password that is new. */
  lemma SettledChange(s: State, ps: seq<string>, p: string) returns (acts: seq<Action>, s': State)
    requires Settled(s, ps) && p !in ps
    ensures Executes(s, acts, s') && Settled(s', ps + [p])
  {
    var front, cur := Earlier(ps), ps[|ps| - 1];
    assert ps == front + [cur];
    NotStored(s, p);
    acts, s' := ChangesBeside(s, p);
    FreshRowsOk(s, s.current.value);
    NextEarlier(front, cur);
    assert Earlier(ps + [p]) == ps;
  }

  /** Any distinct passwords can be had one after the other. */
  lemma {:induction false} SettledRun(ps: seq<string>) returns (acts: seq<Action>, s': State)
    requires ps != [] && AllDistinct(ps)
    ensures Executes(Start(ps[0]), acts, s') && Settled(s', ps)
    decreases |ps|
  {
    if |ps| == 1 {
      acts, s' := [], Start(ps[0]);
      assert ps == [ps[0]] && Earlier(ps) == [];
    } else {
      var front, last := ps[..|ps| - 1], ps[|ps| - 1];
      var before, m := SettledRun(front);
      assert ps == front + [last];
      var change;
      change, s' := SettledChange(m, front, last);
      ExecutesAppend(Start(ps[0]), before, m, change, s');
      acts := before + change;
    }
  }

  /**
   So LIMIT + 1 rows are left in some run: LIMIT + 1 distinct passwords one after the other, then
   any two new ones submitted side by side.
   */
  lemma TrimsBesideRun(ps: seq<string>, p: string, q: string) returns (states: seq<State>, acts: seq<Action>)
    requires |ps| == PASSWORD_HISTORY_LIMIT + 1 && AllDistinct(ps) && p !in ps && q !in ps
    ensures IsRun(states, acts)
    ensures |states[|acts|].rows| == PASSWORD_HISTORY_LIMIT + 1 && !HistoryRecent(states[|acts|])
  {
    var before, s := SettledRun(ps);
    assert ps == Earlier(ps) + [ps[|ps| - 1]];
    assert |s.rows| == |PlainsOf(s.rows)|;
    NotStored(s, p);
    NotStored(s, q);
    var rest, s' := TrimsBeside(s, p, q);
    ExecutesAppend(Start(ps[0]), before, s, rest, s');
    acts := before + rest;
    states := RunOf(Start(ps[0]), acts, s');
  }
}
