/** The hash chain of backend/audit.py and the verifier that re-walks it. */
module AuditChain {
  import opened Wrappers
  import opened Json
  import opened CanonicalJson

  // The digest, the timestamp text and json.loads are parameters.  Nothing assumes that the
  // digest is injective: every security statement is "equal, or here are two distinct hash
  // inputs of these very rows with one digest".

  /** hash: sha256 hexdigest.  stamp: str(round(ts, 6)).  loads: json.loads, None when it raises. */
  datatype Env = Env(hash: string -> string, stamp: real -> string, loads: string -> Option<Json>)

  predicate HexChar(c: char) {
    '0' <= c <= '9' || 'a' <= c <= 'f'
  }

  ghost predicate Digest(d: string) {
    |d| == 64 && forall i :: 0 <= i < |d| ==> HexChar(d[i])
  }

  /** What the parameters are known to do. */
  ghost predicate Sound(env: Env) {
    && (forall x :: Digest(env.hash(x)))
    && (forall v :: Valid(v) ==> env.loads(Text(v, Spaced)) == Some(v))
    && (forall t :: env.loads(t).Some? ==> Valid(env.loads(t).value))
  }

  /** A left inverse of the stored text, the way json.loads inverts json.dumps. */
  ghost function LoadsOf(t: string): Option<Json> {
    if v: Json :| Valid(v) && Text(v, Spaced) == t then Some(v) else None
  }

  /** The assumptions can be met: json.dumps is injective, so an inverse for it exists. */
  lemma SoundIsMet(digest: string, stamp: real -> string)
    requires Digest(digest)
    ensures Sound(Env(_ => digest, stamp, t => LoadsOf(t)))
  {
    forall v | Valid(v) ensures LoadsOf(Text(v, Spaced)) == Some(v) {
      forall w | Valid(w) && Text(w, Spaced) == Text(v, Spaced) ensures w == v {
        DumpsInjective(v, w, Spaced);
      }
    }
  }

  datatype Row = Row(
    id: nat,
    tenant: string,
    ts: real,
    actor: string,
    action: string,
    entityKind: string,
    entityId: Option<string>,
    beforeJson: string,
    afterJson: string,
    prevHash: string,
    currHash: string,
    sessionId: Option<string>,
    guildId: Option<string>)

  function OrEmpty(s: Option<string>): string {
    if s.Some? then s.value else ""
  }

  function StoredJson(t: string): string {
    if t == "" then "{}" else t
  }

  function Payload(action: string, entityKind: string, entityId: string,
                   before: Json, after: Json, actor: string): Json {
    Obj(Cons(Field("action", Str(action)),
        Cons(Field("entity_kind", Str(entityKind)),
        Cons(Field("entity_id", Str(entityId)),
        Cons(Field("before", before),
        Cons(Field("after", after),
        Cons(Field("actor", Str(actor)), Nil)))))))
  }

  /** The part of a hash input that comes from the row itself. */
  function RowText(env: Env, r: Row): Option<string> {
    var before, after := env.loads(StoredJson(r.beforeJson)), env.loads(StoredJson(r.afterJson));
    if before.None? || after.None? then None
    else Some(Canonical(Payload(r.action, r.entityKind, OrEmpty(r.entityId), before.value, after.value, r.actor))
              + env.stamp(r.ts))
  }

  /** What the digest of a row commits to; before and after up to the order of their keys. */
  datatype Hashed = Hashed(action: string, entityKind: string, entityId: string,
                           before: Json, after: Json, actor: string, stamp: string)

  function HashedOf(env: Env, r: Row): Option<Hashed> {
    var before, after := env.loads(StoredJson(r.beforeJson)), env.loads(StoredJson(r.afterJson));
    if before.None? || after.None? then None
    else Some(Hashed(r.action, r.entityKind, OrEmpty(r.entityId),
                     Sort(before.value), Sort(after.value), r.actor, env.stamp(r.ts)))
  }

  function Preimage(env: Env, r: Row): string {
    r.prevHash + OrEmpty(RowText(env, r))
  }

  ghost predicate Collision(env: Env, x: string, y: string) {
    x != y && env.hash(x) == env.hash(y)
  }

  // ---------------------------------------------------------------- the framing is unambiguous

  lemma LookupLast(f: Field, key: string)
    requires f.key != key
    ensures Lookup(Cons(f, Nil), key).None?
  {
  }

  lemma PayloadKeysDistinct(action: string, entityKind: string, entityId: string,
                            before: Json, after: Json, actor: string)
    ensures var p := Payload(action, entityKind, entityId, before, after, actor);
            && p.Obj? && DistinctKeys(p.fields)
            && Lookup(p.fields, "action") == Some(Str(action))
            && Lookup(p.fields, "entity_kind") == Some(Str(entityKind))
            && Lookup(p.fields, "entity_id") == Some(Str(entityId))
            && Lookup(p.fields, "before") == Some(before)
            && Lookup(p.fields, "after") == Some(after)
            && Lookup(p.fields, "actor") == Some(Str(actor))
  {
    var f6 := Cons(Field("actor", Str(actor)), Nil);
    var f5 := Cons(Field("after", after), f6);
    var f4 := Cons(Field("before", before), f5);
    var f3 := Cons(Field("entity_id", Str(entityId)), f4);
    var f2 := Cons(Field("entity_kind", Str(entityKind)), f3);
    assert |"actor"| == 5 && |"after"| == 5 && |"action"| == 6 && |"before"| == 6;
    assert |"entity_id"| == 9 && |"entity_kind"| == 11;
    assert "actor"[1] != "after"[1] && "action"[0] != "before"[0];
    assert DistinctKeys(f6) && DistinctKeys(f5);
    assert Lookup(f5, "after") == Some(after) && Lookup(f5, "actor") == Some(Str(actor));
    LookupLast(f6.head, "before");
    LookupLast(f6.head, "action");
    LookupLast(f6.head, "entity_kind");
    LookupLast(f6.head, "entity_id");
    assert Lookup(f5, "before").None? && Lookup(f5, "action").None?;
    assert Lookup(f5, "entity_kind").None? && Lookup(f5, "entity_id").None?;
    assert DistinctKeys(f4);
    assert Lookup(f4, "action").None? && Lookup(f4, "entity_kind").None? && Lookup(f4, "entity_id").None?;
    assert DistinctKeys(f3);
    assert Lookup(f3, "action").None? && Lookup(f3, "entity_kind").None?;
    assert Lookup(f3, "before") == Some(before) && Lookup(f3, "after") == Some(after);
    assert Lookup(f3, "actor") == Some(Str(actor)) && Lookup(f3, "entity_id") == Some(Str(entityId));
    assert DistinctKeys(f2);
    assert Lookup(f2, "action").None? && Lookup(f2, "entity_id") == Some(Str(entityId));
    assert Lookup(f2, "before") == Some(before) && Lookup(f2, "after") == Some(after);
    assert Lookup(f2, "actor") == Some(Str(actor));
  }

  /** What stands under each key of the document that is hashed; there are no others. */
  function PayloadField(key: string, action: string, entityKind: string, entityId: string,
                        before: Json, after: Json, actor: string): Option<Json> {
    if key == "action" then Some(Str(action))
    else if key == "entity_kind" then Some(Str(entityKind))
    else if key == "entity_id" then Some(Str(entityId))
    else if key == "before" then Some(before)
    else if key == "after" then Some(after)
    else if key == "actor" then Some(Str(actor))
    else None
  }

  lemma OtherKey(f: Field, l: List<Field>, key: string)
    requires f.key != key
    ensures Lookup(Cons(f, l), key) == Lookup(l, key)
  {
  }

  lemma PayloadIs(action: string, entityKind: string, entityId: string,
                  before: Json, after: Json, actor: string, key: string)
    ensures var p := Payload(action, entityKind, entityId, before, after, actor);
            && p.Obj? && DistinctKeys(p.fields)
            && Lookup(p.fields, key) == PayloadField(key, action, entityKind, entityId, before, after, actor)
  {
    PayloadKeysDistinct(action, entityKind, entityId, before, after, actor);
    if key !in ["action", "entity_kind", "entity_id", "before", "after", "actor"] {
      var f6 := Cons(Field("actor", Str(actor)), Nil);
      var f5 := Cons(Field("after", after), f6);
      var f4 := Cons(Field("before", before), f5);
      var f3 := Cons(Field("entity_id", Str(entityId)), f4);
      var f2 := Cons(Field("entity_kind", Str(entityKind)), f3);
      OtherKey(f6.head, Nil, key);
      OtherKey(f5.head, f6, key);
      OtherKey(f4.head, f5, key);
      OtherKey(f3.head, f4, key);
      OtherKey(f2.head, f3, key);
      OtherKey(Field("action", Str(action)), f2, key);
    }
  }

  lemma PayloadSorted(action: string, entityKind: string, entityId: string,
                      before: Json, after: Json, actor: string)
    ensures var s := Sort(Payload(action, entityKind, entityId, before, after, actor));
            && s.Obj?
            && Lookup(s.fields, "action") == Some(Str(action))
            && Lookup(s.fields, "entity_kind") == Some(Str(entityKind))
            && Lookup(s.fields, "entity_id") == Some(Str(entityId))
            && Lookup(s.fields, "before") == Some(Sort(before))
            && Lookup(s.fields, "after") == Some(Sort(after))
            && Lookup(s.fields, "actor") == Some(Str(actor))
  {
    var p := Payload(action, entityKind, entityId, before, after, actor);
    PayloadKeysDistinct(action, entityKind, entityId, before, after, actor);
    SortFieldsLookup(p.fields, "action");
    SortFieldsLookup(p.fields, "entity_kind");
    SortFieldsLookup(p.fields, "entity_id");
    SortFieldsLookup(p.fields, "before");
    SortFieldsLookup(p.fields, "after");
    SortFieldsLookup(p.fields, "actor");
  }

  /** A predecessor's digest, or the empty string in front of a genesis row. */
  ghost predicate LinkText(t: string) {
    t == "" || Digest(t)
  }

  /** A digest cannot be mistaken for the object that follows an empty link. */
  lemma LinkUnique(p: string, q: string, f: List<Field>, g: List<Field>, x: string, y: string)
    requires LinkText(p) && LinkText(q)
    requires p + (Canonical(Obj(f)) + x) == q + (Canonical(Obj(g)) + y)
    ensures p == q && Canonical(Obj(f)) + x == Canonical(Obj(g)) + y
  {
    var a, b := p + (Canonical(Obj(f)) + x), q + (Canonical(Obj(g)) + y);
    assert a[0] == if p == "" then '{' else p[0];
    assert b[0] == if q == "" then '{' else q[0];
    assert |p| == |q|;
    assert p == a[..|p|] && q == b[..|q|];
    Cancel(p, Canonical(Obj(f)) + x, Canonical(Obj(g)) + y);
  }

  lemma PayloadValid(env: Env, r: Row)
    requires Sound(env) && RowText(env, r).Some?
    ensures Valid(Payload(r.action, r.entityKind, OrEmpty(r.entityId),
                          env.loads(StoredJson(r.beforeJson)).value,
                          env.loads(StoredJson(r.afterJson)).value, r.actor))
  {
    var before, after := env.loads(StoredJson(r.beforeJson)), env.loads(StoredJson(r.afterJson));
    var f6 := Cons(Field("actor", Str(r.actor)), Nil);
    assert ValidFields(f6.tail) && ValidFields(f6);
    var f4 := Cons(Field("before", before.value), Cons(Field("after", after.value), f6));
    assert ValidFields(f4);
    var f3 := Cons(Field("entity_id", Str(OrEmpty(r.entityId))), f4);
    assert ValidFields(f3) && ValidFields(Cons(Field("entity_kind", Str(r.entityKind)), f3));
  }

  /** Equal hash inputs have equal links and commit to equal fields. */
  lemma PreimageFaithful(env: Env, r: Row, q: Row)
    requires Sound(env) && RowText(env, r).Some? && RowText(env, q).Some?
    requires LinkText(r.prevHash) && LinkText(q.prevHash)
    ensures Preimage(env, r) == Preimage(env, q) <==>
            r.prevHash == q.prevHash && HashedOf(env, r) == HashedOf(env, q)
  {
    var rb, ra := env.loads(StoredJson(r.beforeJson)).value, env.loads(StoredJson(r.afterJson)).value;
    var qb, qa := env.loads(StoredJson(q.beforeJson)).value, env.loads(StoredJson(q.afterJson)).value;
    var pr := Payload(r.action, r.entityKind, OrEmpty(r.entityId), rb, ra, r.actor);
    var pq := Payload(q.action, q.entityKind, OrEmpty(q.entityId), qb, qa, q.actor);
    PayloadSorted(r.action, r.entityKind, OrEmpty(r.entityId), rb, ra, r.actor);
    PayloadSorted(q.action, q.entityKind, OrEmpty(q.entityId), qb, qa, q.actor);
    if Preimage(env, r) == Preimage(env, q) {
      LinkUnique(r.prevHash, q.prevHash, pr.fields, pq.fields, env.stamp(r.ts), env.stamp(q.ts));
      PayloadValid(env, r);
      PayloadValid(env, q);
      SortValid(pr);
      SortValid(pq);
      ObjectTextUnique(Sort(pr), Sort(pq), Compact, env.stamp(r.ts), env.stamp(q.ts));
    }
    if HashedOf(env, r) == HashedOf(env, q) {
      PayloadSameSorted(r.action, r.entityKind, OrEmpty(r.entityId), rb, ra, qb, qa, r.actor);
    }
  }

  lemma PayloadSameSorted(action: string, entityKind: string, entityId: string,
                          b1: Json, a1: Json, b2: Json, a2: Json, actor: string)
    requires Sort(b1) == Sort(b2) && Sort(a1) == Sort(a2)
    ensures Sort(Payload(action, entityKind, entityId, b1, a1, actor))
         == Sort(Payload(action, entityKind, entityId, b2, a2, actor))
  {
    var f6 := Cons(Field("actor", Str(actor)), Nil);
    var p5, q5 := Cons(Field("after", a1), f6), Cons(Field("after", a2), f6);
    var p4, q4 := Cons(Field("before", b1), p5), Cons(Field("before", b2), q5);
    var p3, q3 := Cons(Field("entity_id", Str(entityId)), p4), Cons(Field("entity_id", Str(entityId)), q4);
    var p2, q2 := Cons(Field("entity_kind", Str(entityKind)), p3), Cons(Field("entity_kind", Str(entityKind)), q3);
    var p1, q1 := Cons(Field("action", Str(action)), p2), Cons(Field("action", Str(action)), q2);
    assert SortFields(p5) == SortFields(q5);
    assert SortFields(p4) == SortFields(q4);
    assert SortFields(p3) == SortFields(q3);
    assert SortFields(p2) == SortFields(q2);
    assert SortFields(p1) == SortFields(q1);
  }

  // ---------------------------------------------------------------- the verifier

  /** What row i must be linked to. */
  function Link(rows: seq<Row>, i: nat): string
    requires i <= |rows|
  {
    if i == 0 then "" else rows[i - 1].currHash
  }

  function Tail(rows: seq<Row>): string {
    Link(rows, |rows|)
  }

  /** Row i is readable, linked to its predecessor, and carries its own digest. */
  predicate Good(env: Env, rows: seq<Row>, i: nat)
    requires i < |rows|
  {
    && RowText(env, rows[i]).Some?
    && rows[i].prevHash == Link(rows, i)
    && rows[i].currHash == env.hash(Preimage(env, rows[i]))
  }

  ghost predicate Accepted(env: Env, rows: seq<Row>) {
    forall i :: 0 <= i < |rows| ==> Good(env, rows, i)
  }

  /** Unreadable stands for the exception that json.loads raises out of the walk. */
  datatype Verdict = Intact | BrokenAt(id: nat) | Unreadable(id: nat)

  function VerdictAt(env: Env, r: Row): Verdict {
    if RowText(env, r).None? then Unreadable(r.id) else BrokenAt(r.id)
  }

  ghost predicate FirstBad(env: Env, rows: seq<Row>, k: nat) {
    && k < |rows|
    && !Good(env, rows, k)
    && forall i :: 0 <= i < k ==> Good(env, rows, i)
  }

  /** The verdict on a chain, by where its first bad row is. */
  ghost function VerdictOf(env: Env, rows: seq<Row>): Verdict {
    if k: nat :| FirstBad(env, rows, k) then VerdictAt(env, rows[k]) else Intact
  }

  lemma VerdictFirst(env: Env, rows: seq<Row>, k: nat)
    requires FirstBad(env, rows, k)
    ensures VerdictOf(env, rows) == VerdictAt(env, rows[k])
  {
    forall j: nat | FirstBad(env, rows, j) ensures j == k {
    }
  }

  lemma VerdictIntact(env: Env, rows: seq<Row>)
    ensures VerdictOf(env, rows).Intact? <==> Accepted(env, rows)
  {
    if !Accepted(env, rows) {
      var k := 0;
      while Good(env, rows, k)
        invariant k < |rows| && forall i :: 0 <= i < k ==> Good(env, rows, i)
        invariant exists i :: k <= i < |rows| && !Good(env, rows, i)
        decreases |rows| - k
      {
        k := k + 1;
      }
      VerdictFirst(env, rows, k);
    }
  }

  /** The walk: recompute each digest from the previous stored one and stop at the first mismatch. */
  method VerifyChain(env: Env, rows: seq<Row>) returns (verdict: Verdict)
    ensures verdict == VerdictOf(env, rows)
    ensures verdict.Intact? <==> Accepted(env, rows)
  {
    VerdictIntact(env, rows);
    var prevHash := "";
    for n := 0 to |rows|
      invariant prevHash == Link(rows, n)
      invariant forall i :: 0 <= i < n ==> Good(env, rows, i)
    {
      var r := rows[n];
      var text := RowText(env, r);
      if text.None? {
        VerdictFirst(env, rows, n);
        return Unreadable(r.id);
      }
      var recomputed := env.hash(prevHash + text.value);
      if r.prevHash != prevHash || r.currHash != recomputed {
        VerdictFirst(env, rows, n);
        return BrokenAt(r.id);
      }
      prevHash := r.currHash;
    }
    return Intact;
  }

  /** Every tenant's rows are judged on their own. */
  method VerifyAllChains(env: Env, chains: map<string, seq<Row>>) returns (results: map<string, Verdict>)
    ensures results.Keys == chains.Keys
    ensures forall t :: t in results ==> results[t] == VerdictOf(env, chains[t])
  {
    results := map[];
    var remaining := chains.Keys;
    while remaining != {}
      invariant remaining <= chains.Keys && results.Keys == chains.Keys - remaining
      invariant forall t :: t in results ==> results[t] == VerdictOf(env, chains[t])
      decreases remaining
    {
      var t :| t in remaining;
      var verdict := VerifyChain(env, chains[t]);
      results := results[t := verdict];
      remaining := remaining - {t};
    }
  }

  // ---------------------------------------------------------------- tampering

  lemma AcceptedLinks(env: Env, rows: seq<Row>, i: nat)
    requires Sound(env) && Accepted(env, rows) && i <= |rows|
    ensures i == 0 ==> Link(rows, i) == ""
    ensures i > 0 ==> Digest(Link(rows, i))
    ensures i < |rows| ==> rows[i].prevHash == Link(rows, i) && LinkText(rows[i].prevHash)
                           && RowText(env, rows[i]).Some?
                           && rows[i].currHash == env.hash(Preimage(env, rows[i]))
  {
    assert i < |rows| ==> Good(env, rows, i);
    assert i > 0 ==> Good(env, rows, i - 1);
  }

  lemma OnlyGenesisUnlinked(env: Env, rows: seq<Row>, i: nat)
    requires Sound(env) && Accepted(env, rows) && i <= |rows|
    ensures Link(rows, i) == "" <==> i == 0
  {
    AcceptedLinks(env, rows, i);
  }

  /** Two distinct hash inputs, one from a and one from b, with one digest. */
  ghost predicate CollisionBetween(env: Env, a: seq<Row>, b: seq<Row>) {
    exists i, j :: 0 <= i < |a| && 0 <= j < |b| && Collision(env, Preimage(env, a[i]), Preimage(env, b[j]))
  }

  ghost predicate SameRow(env: Env, r: Row, q: Row) {
    r.prevHash == q.prevHash && r.currHash == q.currHash && HashedOf(env, r) == HashedOf(env, q)
  }

  ghost predicate SameContent(env: Env, a: seq<Row>, b: seq<Row>) {
    |a| == |b| && forall i :: 0 <= i < |a| ==> SameRow(env, a[i], b[i])
  }

  lemma AcceptedPrefix(env: Env, rows: seq<Row>, n: nat)
    requires Accepted(env, rows) && n <= |rows|
    ensures Accepted(env, rows[..n])
  {
    forall i | 0 <= i < n ensures Good(env, rows[..n], i) {
      assert Good(env, rows, i);
    }
  }

  /** Two accepted rows with one digest commit to the same content and the same predecessor. */
  lemma SameDigest(env: Env, a: seq<Row>, i: nat, b: seq<Row>, j: nat)
    requires Sound(env) && Accepted(env, a) && Accepted(env, b) && i < |a| && j < |b|
    requires a[i].currHash == b[j].currHash
    ensures CollisionBetween(env, a, b)
         || (Link(a, i) == Link(b, j) && SameRow(env, a[i], b[j]))
  {
    AcceptedLinks(env, a, i);
    AcceptedLinks(env, b, j);
    if Preimage(env, a[i]) == Preimage(env, b[j]) {
      PreimageFaithful(env, a[i], b[j]);
    } else {
      assert Collision(env, Preimage(env, a[i]), Preimage(env, b[j]));
    }
  }

  ghost predicate SameUpTo(env: Env, a: seq<Row>, b: seq<Row>, n: nat)
    requires n <= |a| && n <= |b|
  {
    forall i :: 0 <= i < n ==> SameRow(env, a[i], b[i])
  }

  lemma SameUpToNext(env: Env, a: seq<Row>, b: seq<Row>, n: nat)
    requires n < |a| && n < |b| && SameUpTo(env, a, b, n) && SameRow(env, a[n], b[n])
    ensures SameUpTo(env, a, b, n + 1)
  {
  }

  /** What equal links after m rows of a and n rows of b say about the rows in front of them. */
  ghost predicate StepsBack(env: Env, a: seq<Row>, m: nat, b: seq<Row>, n: nat) {
    m <= |a| && n <= |b| && Link(a, m) == Link(b, n) ==>
      && (m == 0 <==> n == 0)
      && (m > 0 ==> Link(a, m - 1) == Link(b, n - 1) && SameRow(env, a[m - 1], b[n - 1]))
  }

  lemma LinkEnds(env: Env, a: seq<Row>, m: nat, b: seq<Row>, n: nat)
    requires Sound(env) && Accepted(env, a) && Accepted(env, b)
    requires m <= |a| && n <= |b| && Link(a, m) == Link(b, n)
    ensures m == 0 <==> n == 0
  {
    OnlyGenesisUnlinked(env, a, m);
    OnlyGenesisUnlinked(env, b, n);
  }

  lemma LinkStep(env: Env, a: seq<Row>, m: nat, b: seq<Row>, n: nat)
    requires Sound(env) && Accepted(env, a) && Accepted(env, b) && !CollisionBetween(env, a, b)
    ensures StepsBack(env, a, m, b, n)
  {
    if m <= |a| && n <= |b| && Link(a, m) == Link(b, n) {
      LinkEnds(env, a, m, b, n);
      if m > 0 {
        SameDigest(env, a, m - 1, b, n - 1);
      }
    }
  }

  lemma AllStepsBack(env: Env, a: seq<Row>, b: seq<Row>)
    requires Sound(env) && Accepted(env, a) && Accepted(env, b) && !CollisionBetween(env, a, b)
    ensures forall i: nat, j: nat :: StepsBack(env, a, i, b, j)
  {
    forall i: nat, j: nat ensures StepsBack(env, a, i, b, j) {
      LinkStep(env, a, i, b, j);
    }
  }

  lemma {:induction false} LinkCommits(env: Env, a: seq<Row>, m: nat, b: seq<Row>, n: nat)
    requires forall i: nat, j: nat :: StepsBack(env, a, i, b, j)
    requires m <= |a| && n <= |b| && Link(a, m) == Link(b, n)
    ensures m == n && SameUpTo(env, a, b, m)
    decreases m
  {
    assert StepsBack(env, a, m, b, n);
    if m > 0 {
      LinkCommits(env, a, m - 1, b, n - 1);
      SameUpToNext(env, a, b, m - 1);
    }
  }

  /** The last digest commits to the whole chain: its length and every hashed field of every row. */
  lemma LastHashCommits(env: Env, a: seq<Row>, b: seq<Row>)
    requires Sound(env) && Accepted(env, a) && Accepted(env, b) && Tail(a) == Tail(b)
    ensures SameContent(env, a, b) || CollisionBetween(env, a, b)
  {
    if !CollisionBetween(env, a, b) {
      AllStepsBack(env, a, b);
      LinkCommits(env, a, |a|, b, |b|);
    }
  }

  /** In an accepted chain no digest occurs twice. */
  lemma DigestsDistinct(env: Env, a: seq<Row>, i: nat, j: nat)
    requires Sound(env) && Accepted(env, a) && i < j <= |a|
    ensures Link(a, i) != Link(a, j) || CollisionBetween(env, a, a)
  {
    if !CollisionBetween(env, a, a) && Link(a, i) == Link(a, j) {
      AllStepsBack(env, a, a);
      LinkCommits(env, a, i, a, j);
    }
  }

  /**
   Overwriting columns of row k other than its two hashes is reported at row k exactly when
   a hashed field changed, unless the old and the new hash input collide.
   */
  lemma AlterationReported(env: Env, a: seq<Row>, k: nat, r: Row)
    requires Sound(env) && Accepted(env, a) && k < |a|
    requires r.id == a[k].id && r.prevHash == a[k].prevHash && r.currHash == a[k].currHash
    ensures VerdictOf(env, a[k := r]) ==
            if HashedOf(env, r) == HashedOf(env, a[k]) then Intact
            else if HashedOf(env, r).Some? && Collision(env, Preimage(env, r), Preimage(env, a[k])) then Intact
            else VerdictAt(env, r)
  {
    var b := a[k := r];
    AcceptedLinks(env, a, k);
    forall i | 0 <= i < |b| && i != k ensures Good(env, b, i) {
      assert Good(env, a, i);
    }
    if RowText(env, r).Some? {
      PreimageFaithful(env, r, a[k]);
    }
    if Good(env, b, k) {
      assert Accepted(env, b);
      VerdictIntact(env, b);
    } else {
      VerdictFirst(env, b, k);
    }
  }

  /** Recomputing the digest as well only moves the report to the successor. */
  lemma RehashReportedAtSuccessor(env: Env, a: seq<Row>, k: nat, r: Row)
    requires Sound(env) && Accepted(env, a) && k + 1 < |a|
    requires RowText(env, r).Some? && r.prevHash == a[k].prevHash && r.currHash == env.hash(Preimage(env, r))
    requires HashedOf(env, r) != HashedOf(env, a[k])
    ensures VerdictOf(env, a[k := r]) == BrokenAt(a[k + 1].id) || Collision(env, Preimage(env, r), Preimage(env, a[k]))
  {
    var b := a[k := r];
    AcceptedLinks(env, a, k);
    AcceptedLinks(env, a, k + 1);
    PreimageFaithful(env, r, a[k]);
    forall i | 0 <= i <= k ensures Good(env, b, i) {
      assert Good(env, a, i);
    }
    if !Collision(env, Preimage(env, r), Preimage(env, a[k])) {
      assert !Good(env, b, k + 1);
      VerdictFirst(env, b, k + 1);
    }
  }

  /** Deleting a row that has a successor is reported at that successor. */
  lemma DeletionReported(env: Env, a: seq<Row>, k: nat)
    requires Sound(env) && Accepted(env, a) && k + 1 < |a|
    ensures VerdictOf(env, a[..k] + a[k + 1..]) == BrokenAt(a[k + 1].id) || CollisionBetween(env, a, a)
  {
    var b := a[..k] + a[k + 1..];
    AcceptedLinks(env, a, k + 1);
    DigestsDistinct(env, a, k, k + 1);
    forall i | 0 <= i < k ensures Good(env, b, i) {
      assert Good(env, a, i);
    }
    if Link(a, k) != Link(a, k + 1) {
      assert b[k] == a[k + 1] && Link(b, k) == Link(a, k);
      assert !Good(env, b, k);
      VerdictFirst(env, b, k);
    }
  }

  /** Cutting rows off the end is not detected: what is left is a chain. */
  lemma TruncationAccepted(env: Env, a: seq<Row>, n: nat)
    requires Accepted(env, a) && n <= |a|
    ensures VerdictOf(env, a[..n]) == Intact
  {
    AcceptedPrefix(env, a, n);
    VerdictIntact(env, a[..n]);
  }

  /** Exchanging what two ids hold is reported at the earlier of the two. */
  lemma SwapReported(env: Env, a: seq<Row>, i: nat, j: nat)
    requires Sound(env) && Accepted(env, a) && i < j < |a|
    ensures var b := a[i := a[j].(id := a[i].id)][j := a[i].(id := a[j].id)];
            VerdictOf(env, b) == BrokenAt(a[i].id) || CollisionBetween(env, a, a)
  {
    var b := a[i := a[j].(id := a[i].id)][j := a[i].(id := a[j].id)];
    AcceptedLinks(env, a, j);
    DigestsDistinct(env, a, i, j);
    forall n | 0 <= n < i ensures Good(env, b, n) {
      assert Good(env, a, n);
    }
    if Link(a, i) != Link(a, j) {
      assert b[i].prevHash == a[j].prevHash && Link(b, i) == Link(a, i);
      assert !Good(env, b, i);
      VerdictFirst(env, b, i);
    }
  }
}
