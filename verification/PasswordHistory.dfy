/** Password changes, reuse prevention and login rehashes of backend/auth.py. */
module PasswordHistory {
  import opened Wrappers

  // A stored hash verifies exactly the password it was made from; legacy marks a hash that login
  // replaces.  The two tables are fields updated in place, history rows in id order.

  const PASSWORD_HISTORY_LIMIT := 5

  datatype Hash = Hash(plain: string, legacy: bool)

  datatype Row = Row(user: string, hash: Hash)

  /** users.password_hash (None is the empty string) and password_history. */
  datatype Tables = Tables(passwords: map<string, Option<Hash>>, history: seq<Row>)

  predicate VerifyPassword(plain: string, h: Hash) {
    h.plain == plain
  }

  function HashPassword(plain: string): Hash {
    Hash(plain, false)
  }

  // ---------------------------------------------------------------- the statements

  function Current(t: Tables, user: string): Option<Hash> {
    if user in t.passwords then t.passwords[user] else None
  }

  /** The hashes of one user, oldest first. */
  function HashesOf(rows: seq<Row>, user: string): seq<Hash> {
    if rows == [] then []
    else
      var front, last := HashesOf(rows[..|rows| - 1], user), rows[|rows| - 1];
      if last.user == user then front + [last.hash] else front
  }

  /** DELETE of the user's rows that are not among the newest n. */
  function Trim(rows: seq<Row>, user: string, n: nat): seq<Row> {
    if rows == [] then []
    else
      var front, last := rows[..|rows| - 1], rows[|rows| - 1];
      if last.user != user then Trim(front, user, n) + [last]
      else if n > 0 then Trim(front, user, n - 1) + [last]
      else Trim(front, user, 0)
  }

  function LastN<T>(s: seq<T>, n: nat): (r: seq<T>) {
    if |s| <= n then s else s[|s| - n..]
  }

  function Recorded(rows: seq<Row>, user: string, h: Hash): seq<Row> {
    Trim(rows + [Row(user, h)], user, PASSWORD_HISTORY_LIMIT)
  }

  /** The writes of a change that read the hash seen. */
  function Written(t: Tables, user: string, seen: Option<Hash>, h: Hash): Tables {
    Tables(if user in t.passwords then t.passwords[user := Some(h)] else t.passwords,
           if seen.Some? then Recorded(t.history, user, seen.value) else t.history)
  }

  function Changed(t: Tables, user: string, h: Hash): Tables {
    Written(t, user, Current(t, user), h)
  }

  /** What authenticate_password writes once plain has been verified against seen, whatever the hash is by then. */
  function Rehashed(t: Tables, user: string, plain: string, seen: Option<Hash>): Tables {
    if user in t.passwords && seen.Some? && VerifyPassword(plain, seen.value) && seen.value.legacy
    then t.(passwords := t.passwords[user := Some(HashPassword(plain))])
    else t
  }

  predicate Reused(t: Tables, user: string, plain: string) {
    || (exists h :: h in LastN(HashesOf(t.history, user), PASSWORD_HISTORY_LIMIT) && VerifyPassword(plain, h))
    || (Current(t, user).Some? && VerifyPassword(plain, Current(t, user).value))
  }

  class Accounts {
    var passwords: map<string, Option<Hash>>
    var history: seq<Row>

    function Contents(): Tables
      reads this
    {
      Tables(passwords, history)
    }

    method CheckPasswordHistory(user: string, plain: string) returns (reused: bool)
      ensures reused == Reused(Contents(), user, plain)
      ensures reused <==> plain in LastN(Plains(HashesOf(history, user)), PASSWORD_HISTORY_LIMIT)
                          || (user in passwords && passwords[user].Some? && passwords[user].value.plain == plain)
    {
      ReusedPlains(HashesOf(history, user), plain);
      var rows := LastN(HashesOf(history, user), PASSWORD_HISTORY_LIMIT);
      for i := |rows| downto 0
        invariant forall k :: i <= k < |rows| ==> !VerifyPassword(plain, rows[k])
      {
        if VerifyPassword(plain, rows[i]) {
          return true;
        }
      }
      var r := Current(Contents(), user);
      return r.Some? && VerifyPassword(plain, r.value);
    }

    method RecordPasswordHistory(user: string, h: Hash)
      modifies this`history
      ensures history == Recorded(old(history), user, h)
      ensures HashesOf(history, user) == LastN(HashesOf(old(history), user) + [h], PASSWORD_HISTORY_LIMIT)
      ensures forall other :: other != user ==> HashesOf(history, other) == HashesOf(old(history), other)
    {
      RecordedHashes(history, user, h);
      history := history + [Row(user, h)];
      history := Trim(history, user, PASSWORD_HISTORY_LIMIT);
    }

    method ChangePassword(user: string, newPassword: string)
      modifies this
      ensures Contents() == Changed(old(Contents()), user, HashPassword(newPassword))
      ensures passwords == if user in old(passwords) then old(passwords)[user := Some(Hash(newPassword, false))]
                           else old(passwords)
      ensures HashesOf(history, user) ==
              if user in old(passwords) && old(passwords)[user].Some?
              then LastN(HashesOf(old(history), user) + [old(passwords)[user].value], PASSWORD_HISTORY_LIMIT)
              else HashesOf(old(history), user)
      ensures forall other :: other != user ==> HashesOf(history, other) == HashesOf(old(history), other)
    {
      var r := Current(Contents(), user);
      if r.Some? {
        RecordPasswordHistory(user, r.value);
      }
      var h := HashPassword(newPassword);
      if user in passwords {
        passwords := passwords[user := Some(h)];
      }
    }

    /** seen is the hash that the login read; nothing of the row is looked at again. */
    method RehashOnLogin(user: string, password: string, seen: Option<Hash>)
      modifies this`passwords
      ensures Contents() == Rehashed(old(Contents()), user, password, seen)
      ensures passwords == if user in old(passwords) && seen.Some? && seen.value.plain == password && seen.value.legacy
                           then old(passwords)[user := Some(Hash(password, false))] else old(passwords)
    {
      if seen.Some? && VerifyPassword(password, seen.value) && seen.value.legacy {
        if user in passwords {
          passwords := passwords[user := Some(HashPassword(password))];
        }
      }
    }
  }

  lemma LastNSnoc<T>(s: seq<T>, x: T, n: nat)
    ensures LastN(s + [x], n + 1) == LastN(s, n) + [x]
  {
    var m := n + 1;
    if |s| > n {
      assert (s + [x])[|s| + 1 - m..] == s[|s| - n..] + [x];
    }
  }

  lemma {:induction false} TrimHashes(rows: seq<Row>, user: string, n: nat, u: string)
    ensures HashesOf(Trim(rows, user, n), u) ==
            if u == user then LastN(HashesOf(rows, u), n) else HashesOf(rows, u)
  {
    if rows != [] {
      var front, last := rows[..|rows| - 1], rows[|rows| - 1];
      var m := if last.user == user && n > 0 then n - 1 else n;
      TrimHashes(front, user, m, u);
      assert (Trim(front, user, m) + [last])[..|Trim(front, user, m)|] == Trim(front, user, m);
      if last.user == user && n > 0 {
        LastNSnoc(HashesOf(front, user), last.hash, n - 1);
      }
    }
  }

  lemma RecordedHashes(rows: seq<Row>, user: string, h: Hash)
    ensures HashesOf(Recorded(rows, user, h), user) == LastN(HashesOf(rows, user) + [h], PASSWORD_HISTORY_LIMIT)
    ensures forall other :: other != user ==> HashesOf(Recorded(rows, user, h), other) == HashesOf(rows, other)
  {
    var all := rows + [Row(user, h)];
    assert all[..|rows|] == rows;
    forall u ensures HashesOf(Recorded(rows, user, h), u) ==
        if u == user then LastN(HashesOf(rows, user) + [h], PASSWORD_HISTORY_LIMIT) else HashesOf(rows, u)
    {
      TrimHashes(all, user, PASSWORD_HISTORY_LIMIT, u);
    }
  }

  function Plains(hs: seq<Hash>): (r: seq<string>)
    ensures |r| == |hs|
  {
    if hs == [] then [] else Plains(hs[..|hs| - 1]) + [hs[|hs| - 1].plain]
  }

  lemma {:induction false} PlainsAt(hs: seq<Hash>, k: nat)
    requires k < |hs|
    ensures Plains(hs)[k] == hs[k].plain
  {
    if k < |hs| - 1 {
      PlainsAt(hs[..|hs| - 1], k);
    }
  }

  lemma ReusedPlains(hs: seq<Hash>, plain: string)
    ensures (exists h :: h in LastN(hs, PASSWORD_HISTORY_LIMIT) && VerifyPassword(plain, h))
       <==> plain in LastN(Plains(hs), PASSWORD_HISTORY_LIMIT)
  {
    var recent := LastN(hs, PASSWORD_HISTORY_LIMIT);
    PlainsLastN(hs, PASSWORD_HISTORY_LIMIT);
    forall k | 0 <= k < |recent| ensures Plains(recent)[k] == recent[k].plain {
      PlainsAt(recent, k);
    }
    if plain in Plains(recent) {
      var k :| 0 <= k < |recent| && Plains(recent)[k] == plain;
      assert recent[k] in recent && VerifyPassword(plain, recent[k]);
    }
    if h :| h in recent && VerifyPassword(plain, h) {
      var k :| 0 <= k < |recent| && recent[k] == h;
      assert Plains(recent)[k] == plain;
    }
  }

  lemma PlainsLastN(hs: seq<Hash>, n: nat)
    ensures Plains(LastN(hs, n)) == LastN(Plains(hs), n)
  {
    forall k | 0 <= k < |LastN(hs, n)| ensures Plains(LastN(hs, n))[k] == LastN(Plains(hs), n)[k] {
      PlainsAt(LastN(hs, n), k);
      PlainsAt(hs, k + |hs| - |LastN(hs, n)|);
    }
  }

  lemma PlainsSnoc(hs: seq<Hash>, h: Hash)
    ensures Plains(hs + [h]) == Plains(hs) + [h.plain]
  {
    assert (hs + [h])[..|hs|] == hs;
  }

  // ---------------------------------------------------------------- overlapping changes

  /** A trim that sees only its own new row keeps the newest LIMIT - 1 rows there were. */
  lemma TrimOwn(rows: seq<Row>, user: string, h: Hash)
    ensures Recorded(rows, user, h) == Trim(rows, user, PASSWORD_HISTORY_LIMIT - 1) + [Row(user, h)]
  {
    var all := rows + [Row(user, h)];
    assert all[..|rows|] == rows;
  }

  /**
   The history after two changes that both read the hash seen and both insert and trim before
   either commits.  Each trim sees its own new row only, so by TrimOwn both keep the same rows of
   those there were: what the first leaves, the second adds its row to and takes nothing from.
   */
  function RecordedBeside(rows: seq<Row>, user: string, seen: Hash): seq<Row> {
    Recorded(rows, user, seen) + [Row(user, seen)]
  }

  lemma HashesOfSnoc(rows: seq<Row>, user: string, h: Hash)
    ensures HashesOf(rows + [Row(user, h)], user) == HashesOf(rows, user) + [h]
  {
    assert (rows + [Row(user, h)])[..|rows|] == rows;
  }

  lemma TwoMore(ps: seq<string>, x: string, y: string, n: nat)
    ensures LastN(LastN(ps + [x], n + 2) + [y], n + 2) == LastN(ps, n) + [x, y]
  {
    LastNSnoc(ps, x, n + 1);
    LastNSnoc(LastN(ps, n + 1) + [x], y, n + 1);
    LastNSnoc(LastN(ps, n + 1), x, n);
    assert LastN(LastN(ps, n + 1), n) == LastN(ps, n);
  }

  lemma RecordedPlains(rows: seq<Row>, user: string, h: Hash)
    ensures Plains(HashesOf(Recorded(rows, user, h), user))
         == LastN(Plains(HashesOf(rows, user)) + [h.plain], PASSWORD_HISTORY_LIMIT)
  {
    RecordedHashes(rows, user, h);
    PlainsLastN(HashesOf(rows, user) + [h], PASSWORD_HISTORY_LIMIT);
    PlainsSnoc(HashesOf(rows, user), h);
  }

  lemma RecordedTwice(rows: seq<Row>, user: string, h: Hash, g: Hash)
    ensures Plains(HashesOf(Recorded(Recorded(rows, user, h), user, g), user))
         == LastN(Plains(HashesOf(rows, user)), PASSWORD_HISTORY_LIMIT - 2) + [h.plain, g.plain]
  {
    RecordedPlains(rows, user, h);
    RecordedPlains(Recorded(rows, user, h), user, g);
    TwoMore(Plains(HashesOf(rows, user)), h.plain, g.plain, PASSWORD_HISTORY_LIMIT - 2);
  }

  lemma BesidePlains(rows: seq<Row>, user: string, h: Hash)
    ensures Plains(HashesOf(RecordedBeside(rows, user, h), user))
         == LastN(Plains(HashesOf(rows, user)), PASSWORD_HISTORY_LIMIT - 1) + [h.plain, h.plain]
  {
    var n := PASSWORD_HISTORY_LIMIT;
    var kept, hs := Trim(rows, user, n - 1), LastN(HashesOf(rows, user), n - 1);
    TrimOwn(rows, user, h);
    TrimHashes(rows, user, n - 1, user);
    HashesOfSnoc(kept, user, h);
    HashesOfSnoc(kept + [Row(user, h)], user, h);
    PlainsSnoc(hs, h);
    PlainsSnoc(hs + [h], h);
    PlainsLastN(HashesOf(rows, user), n - 1);
  }

  lemma EndsDiffer(p: seq<string>, q: seq<string>, x: string, a: string)
    ensures p + [x, x] == q + [x, a] <==> |p| == |q| && p == q && x == a
  {
    if p + [x, x] == q + [x, a] {
      assert (p + [x, x])[..|p|] == p && (q + [x, a])[..|q|] == q;
      assert (p + [x, x])[|p| + 1] == x && (q + [x, a])[|q| + 1] == a;
    }
  }

  /**
   Two changes that both read the current hash before either commits.  If the second inserts and
   trims after the first has committed, the stored rows are the serial ones exactly when the first
   new password is the old one.  If both insert and trim before that, the history must also have
   room for two more rows, or LIMIT + 1 of them are left; the newest LIMIT are then the serial ones
   exactly when the first new password is the old one.
   */
  lemma OverlapIff(t: Tables, user: string, a: string, b: string)
    requires Current(t, user).Some?
    ensures var seen, first, second, n := Current(t, user), HashPassword(a), HashPassword(b), PASSWORD_HISTORY_LIMIT;
            var serial := Plains(HashesOf(Changed(Changed(t, user, first), user, second).history, user));
            var after := Plains(HashesOf(Written(Written(t, user, seen, first), user, seen, second).history, user));
            var beside := Plains(HashesOf(RecordedBeside(t.history, user, seen.value), user));
            && Written(Written(t, user, seen, first), user, seen, second).passwords
               == Changed(Changed(t, user, first), user, second).passwords
            && (after == serial <==> a == seen.value.plain)
            && (beside == serial <==> a == seen.value.plain && |HashesOf(t.history, user)| + 2 <= n)
            && (LastN(beside, n) == serial <==> a == seen.value.plain)
            && (|HashesOf(t.history, user)| + 2 > n ==> |beside| == n + 1)
  {
    var x, n := Current(t, user).value.plain, PASSWORD_HISTORY_LIMIT;
    var ps := Plains(HashesOf(t.history, user));
    RecordedTwice(t.history, user, Current(t, user).value, HashPassword(a));
    RecordedTwice(t.history, user, Current(t, user).value, Current(t, user).value);
    BesidePlains(t.history, user, Current(t, user).value);
    EndsDiffer(LastN(ps, n - 2), LastN(ps, n - 2), x, a);
    EndsDiffer(LastN(ps, n - 1), LastN(ps, n - 2), x, a);
    LastNSnoc(LastN(ps, n - 1) + [x], x, n - 1);
    LastNSnoc(LastN(ps, n - 1), x, n - 2);
    assert LastN(ps, n - 1) + [x] + [x] == LastN(ps, n - 1) + [x, x];
    assert LastN(LastN(ps, n - 1), n - 2) == LastN(ps, n - 2);
  }
}
