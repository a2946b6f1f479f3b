/** The schema drift gate of backend/alembic_drift_gate.py. */
module DriftGate {
  import opened Wrappers

  type Rev = string

  /** A migration and the revisions it builds on. */
  datatype Revision = Revision(id: Rev, parents: set<Rev>)

  /** The migrations shipped in the image, parents first. */
  datatype Script = Script(revs: seq<Revision>)

  ghost predicate WellFormed(s: Script) {
    && (forall i, j :: 0 <= i < j < |s.revs| ==> s.revs[i].id != s.revs[j].id)
    && (forall i, p :: 0 <= i < |s.revs| && p in s.revs[i].parents ==> exists j :: 0 <= j < i && s.revs[j].id == p)
  }

  function Known(s: Script): set<Rev> {
    set r | r in s.revs :: r.id
  }

  function Heads(s: Script): set<Rev> {
    set r | r in s.revs && (forall q :: q in s.revs ==> r.id !in q.parents) :: r.id
  }

  /** x is rev or below it, among the first n migrations. */
  predicate IsBelow(s: Script, n: nat, rev: Rev, x: Rev)
    requires n <= |s.revs|
  {
    if n == 0 then false
    else
      var m: nat, r := n - 1, s.revs[n - 1];
      if r.id == rev then x == rev || exists p :: p in r.parents && IsBelow(s, m, p, x)
      else IsBelow(s, m, rev, x)
  }

  /** iterate_revisions(upper, lower) completes: both are known and lower is at or below upper. */
  predicate Walks(s: Script, upper: Rev, lower: Rev) {
    IsBelow(s, |s.revs|, upper, lower)
  }

  predicate IsAncestorOfAny(rev: Rev, candidates: seq<Rev>, s: Script) {
    exists c :: c in candidates && (c == rev || Walks(s, c, rev))
  }

  datatype Direction = Match | ImageAhead | DbAhead | Divergent

  function SetOf(l: seq<Rev>): set<Rev> {
    set x | x in l
  }

  function ClassifyDrift(imageHeads: seq<Rev>, dbHeads: seq<Rev>, s: Script): Direction {
    if SetOf(imageHeads) == SetOf(dbHeads) then Match
    else if dbHeads != [] && forall d :: d in dbHeads ==> IsAncestorOfAny(d, imageHeads, s) then ImageAhead
    else if imageHeads != [] && forall i :: i in imageHeads ==> IsAncestorOfAny(i, dbHeads, s) then DbAhead
    else Divergent
  }

  // ---------------------------------------------------------------- the walk is reachability

  ghost predicate Edge(s: Script, child: Rev, parent: Rev) {
    exists r :: r in s.revs && r.id == child && parent in r.parents
  }

  /** path[0] is on top and every revision is a parent of the one before it. */
  ghost predicate IsPath(s: Script, path: seq<Rev>) {
    && |path| > 0
    && path[0] in Known(s)
    && forall k :: 0 < k < |path| ==> Edge(s, path[k - 1], path[k])
  }

  ghost predicate Reaches(s: Script, upper: Rev, lower: Rev) {
    exists path :: IsPath(s, path) && path[0] == upper && path[|path| - 1] == lower
  }

  lemma KnownReachesItself(s: Script, rev: Rev)
    requires rev in Known(s)
    ensures Reaches(s, rev, rev)
  {
    assert IsPath(s, [rev]);
  }

  lemma ReachesUp(s: Script, child: Rev, parent: Rev, lower: Rev)
    requires Edge(s, child, parent) && Reaches(s, parent, lower)
    ensures Reaches(s, child, lower)
  {
    var path :| IsPath(s, path) && path[0] == parent && path[|path| - 1] == lower;
    var longer := [child] + path;
    assert child in Known(s);
    forall k | 0 < k < |longer| ensures Edge(s, longer[k - 1], longer[k]) {
      if k > 1 {
        assert longer[k - 1] == path[k - 2] && longer[k] == path[k - 1];
      }
    }
    assert IsPath(s, longer);
  }

  lemma ReachesDown(s: Script, upper: Rev, child: Rev, parent: Rev)
    requires Reaches(s, upper, child) && Edge(s, child, parent)
    ensures Reaches(s, upper, parent)
  {
    var path :| IsPath(s, path) && path[0] == upper && path[|path| - 1] == child;
    assert IsPath(s, path + [parent]);
  }

  lemma {:induction false} BelowReaches(s: Script, n: nat, rev: Rev, x: Rev)
    requires n <= |s.revs| && IsBelow(s, n, rev, x)
    ensures Reaches(s, rev, x)
  {
    var r := s.revs[n - 1];
    if r.id != rev {
      BelowReaches(s, n - 1, rev, x);
    } else {
      assert r in s.revs;
      if x == rev {
        KnownReachesItself(s, rev);
      } else {
        var p :| p in r.parents && IsBelow(s, n - 1, p, x);
        BelowReaches(s, n - 1, p, x);
        ReachesUp(s, rev, p, x);
      }
    }
  }

  /** Later migrations do not change what is below one already listed. */
  lemma {:induction false} BelowStable(s: Script, i: nat, n: nat, x: Rev)
    requires WellFormed(s) && i < n <= |s.revs|
    ensures IsBelow(s, n, s.revs[i].id, x) <==> IsBelow(s, i + 1, s.revs[i].id, x)
  {
    if i + 1 < n {
      BelowStable(s, i, n - 1, x);
    }
  }

  lemma ParentBelow(s: Script, i: nat, p: Rev, x: Rev)
    requires WellFormed(s) && i < |s.revs| && p in s.revs[i].parents && Walks(s, p, x)
    ensures Walks(s, s.revs[i].id, x)
  {
    var j :| 0 <= j < i && s.revs[j].id == p;
    BelowStable(s, j, |s.revs|, x);
    BelowStable(s, j, i, x);
    BelowStable(s, i, |s.revs|, x);
  }

  lemma KnownBelowItself(s: Script, rev: Rev)
    requires WellFormed(s) && rev in Known(s)
    ensures Walks(s, rev, rev)
  {
    var i :| 0 <= i < |s.revs| && s.revs[i].id == rev;
    BelowStable(s, i, |s.revs|, rev);
  }

  lemma EdgeIndex(s: Script, child: Rev, parent: Rev) returns (i: nat, j: nat)
    requires WellFormed(s) && Edge(s, child, parent)
    ensures j < i < |s.revs| && s.revs[i].id == child && parent in s.revs[i].parents && s.revs[j].id == parent
    ensures parent in Known(s)
  {
    var r :| r in s.revs && r.id == child && parent in r.parents;
    i :| 0 <= i < |s.revs| && s.revs[i] == r;
    j :| 0 <= j < i && s.revs[j].id == parent;
    assert s.revs[j] in s.revs;
  }

  lemma {:induction false} PathIsBelow(s: Script, path: seq<Rev>)
    requires WellFormed(s) && IsPath(s, path)
    ensures Walks(s, path[0], path[|path| - 1])
    decreases |path|
  {
    if |path| == 1 {
      KnownBelowItself(s, path[0]);
    } else {
      var i, j := EdgeIndex(s, path[0], path[1]);
      var rest := path[1..];
      assert forall k :: 0 < k < |rest| ==> rest[k - 1] == path[k] && rest[k] == path[k + 1];
      PathIsBelow(s, rest);
      ParentBelow(s, i, path[1], path[|path| - 1]);
    }
  }

  /** The walk completes exactly for ancestors in the revision graph. */
  lemma WalksIsReachability(s: Script, upper: Rev, lower: Rev)
    requires WellFormed(s)
    ensures Walks(s, upper, lower) <==> Reaches(s, upper, lower)
  {
    if Walks(s, upper, lower) {
      BelowReaches(s, |s.revs|, upper, lower);
    }
    if Reaches(s, upper, lower) {
      var path :| IsPath(s, path) && path[0] == upper && path[|path| - 1] == lower;
      PathIsBelow(s, path);
    }
  }

  // ---------------------------------------------------------------- heads

  /** Climbing from any migration ends at a head. */
  lemma {:induction false} HeadAbove(s: Script, i: nat) returns (h: Rev)
    requires WellFormed(s) && i < |s.revs|
    ensures h in Heads(s) && Reaches(s, h, s.revs[i].id)
    decreases |s.revs| - i
  {
    var r := s.revs[i];
    if q :| q in s.revs && r.id in q.parents {
      var j, k := EdgeIndex(s, q.id, r.id);
      h := HeadAbove(s, j);
      ReachesDown(s, h, q.id, r.id);
    } else {
      h := r.id;
      KnownReachesItself(s, h);
    }
  }

  /** Below are only known revisions, and no head but the top itself. */
  lemma {:induction false} BelowHeads(s: Script, n: nat, rev: Rev, x: Rev)
    requires n <= |s.revs| && IsBelow(s, n, rev, x)
    ensures x in Known(s)
    ensures x in Heads(s) ==> x == rev
  {
    var r := s.revs[n - 1];
    assert r in s.revs;
    if r.id != rev {
      BelowHeads(s, n - 1, rev, x);
    } else if x != rev {
      var p :| p in r.parents && IsBelow(s, n - 1, p, x);
      BelowHeads(s, n - 1, p, x);
    }
  }

  lemma KnownIsBelowHeads(s: Script, imageHeads: seq<Rev>, d: Rev)
    requires WellFormed(s) && SetOf(imageHeads) == Heads(s)
    ensures IsAncestorOfAny(d, imageHeads, s) <==> d in Known(s)
  {
    if d in Known(s) {
      var i :| 0 <= i < |s.revs| && s.revs[i].id == d;
      var h := HeadAbove(s, i);
      WalksIsReachability(s, h, d);
      assert h in SetOf(imageHeads);
    }
    if IsAncestorOfAny(d, imageHeads, s) {
      var c :| c in imageHeads && (c == d || Walks(s, c, d));
      assert c in SetOf(imageHeads);
      if c != d {
        BelowHeads(s, |s.revs|, c, d);
      }
    }
  }

  lemma HeadIsBelowOnlyItself(s: Script, dbHeads: seq<Rev>, i: Rev)
    requires i in Heads(s)
    ensures IsAncestorOfAny(i, dbHeads, s) <==> i in dbHeads
  {
    if IsAncestorOfAny(i, dbHeads, s) {
      var c :| c in dbHeads && (c == i || Walks(s, c, i));
      if c != i {
        BelowHeads(s, |s.revs|, c, i);
      }
    }
  }

  /** Exact classification of any database against the heads of the image's own graph. */
  lemma ClassificationExact(s: Script, imageHeads: seq<Rev>, dbHeads: seq<Rev>)
    requires WellFormed(s) && SetOf(imageHeads) == Heads(s) && dbHeads != []
    ensures var d, db := ClassifyDrift(imageHeads, dbHeads, s), SetOf(dbHeads);
            && (d == Match <==> db == Heads(s))
            && (d == ImageAhead <==> db != Heads(s) && db <= Known(s))
            && (d == DbAhead <==> !(db <= Known(s)) && Heads(s) != {} && Heads(s) <= db)
            && (d == Divergent <==> !(db <= Known(s)) && (Heads(s) == {} || !(Heads(s) <= db)))
  {
    var db := SetOf(dbHeads);
    assert Heads(s) <= Known(s);
    forall d ensures IsAncestorOfAny(d, imageHeads, s) <==> d in Known(s) {
      KnownIsBelowHeads(s, imageHeads, d);
    }
    forall i | i in imageHeads ensures IsAncestorOfAny(i, dbHeads, s) <==> i in dbHeads {
      assert i in SetOf(imageHeads);
      HeadIsBelowOnlyItself(s, dbHeads, i);
    }
    assert (forall d :: d in dbHeads ==> d in Known(s)) <==> db <= Known(s);
    assert (forall i :: i in imageHeads ==> i in dbHeads) <==> Heads(s) <= db by {
      assert forall i :: i in imageHeads <==> i in Heads(s) by {
        assert forall i :: i in imageHeads <==> i in SetOf(imageHeads);
      }
    }
    assert imageHeads == [] <==> Heads(s) == {} by {
      if imageHeads != [] {
        assert imageHeads[0] in SetOf(imageHeads);
      }
    }
  }

  /** An image with no migrations is called divergent, although the database then holds all of its heads. */
  lemma EmptyImageIsDivergent(dbHead: Rev)
    ensures Heads(Script([])) <= SetOf([dbHead])
    ensures ClassifyDrift([], [dbHead], Script([])) == Divergent
  {
    assert dbHead in SetOf([dbHead]);
    assert dbHead in [dbHead] && !IsAncestorOfAny(dbHead, [], Script([]));
  }

  // ---------------------------------------------------------------- the gate

  datatype ScriptView = ScriptUnreadable | ScriptRead(script: Script, imageHeads: seq<Rev>)

  datatype DbView = DbFileAbsent | DbUnreachable | DbCheckFailed | DbRead(heads: seq<Rev>)

  datatype Reason =
    | ScriptDirectoryUnreadable | SqliteDbFileAbsent | DbIsUnreachable | DbCheckDidFail
    | DbHasNoAlembicVersion | HeadsMatch | AlembicHeadDrift

  /** The keys of the diagnostic that its readers look at. */
  datatype Payload = Payload(exitCode: int, reason: Reason, direction: Option<Direction>,
                             dbHead: Option<seq<Rev>>, dbHeads: Option<seq<Rev>>)

  function CheckDrift(sv: ScriptView, dv: DbView): Payload {
    match sv
    case ScriptUnreadable => Payload(2, ScriptDirectoryUnreadable, None, None, None)
    case ScriptRead(script, imageHeads) =>
      match dv
      case DbFileAbsent => Payload(0, SqliteDbFileAbsent, None, None, None)
      case DbUnreachable => Payload(2, DbIsUnreachable, None, None, None)
      case DbCheckFailed => Payload(2, DbCheckDidFail, None, None, None)
      case DbRead(heads) =>
        if heads == [] then Payload(0, DbHasNoAlembicVersion, None, None, Some([]))
        else
          var d := ClassifyDrift(imageHeads, heads, script);
          if d == Match then Payload(0, HeadsMatch, None, None, Some(heads))
          else Payload(1, AlembicHeadDrift, Some(d), Some(heads), None)
  }

  /** Exit status of the gate; a forward drift is left to the startup hook. */
  function GateExit(bypassed: bool, dbConfigured: bool, sv: ScriptView, dv: DbView): int {
    if bypassed || !dbConfigured then 0
    else
      var p := CheckDrift(sv, dv);
      if p.exitCode == 1 && p.direction == Some(ImageAhead) then 0 else p.exitCode
  }

  ghost predicate ReadFrom(sv: ScriptView) {
    sv.ScriptRead? ==> WellFormed(sv.script) && SetOf(sv.imageHeads) == Heads(sv.script)
  }

  /** The gate opens exactly when it is told to, or can see that every DB head is a migration of this image. */
  lemma GateOpensIff(bypassed: bool, dbConfigured: bool, sv: ScriptView, dv: DbView)
    requires ReadFrom(sv)
    ensures var exit := GateExit(bypassed, dbConfigured, sv, dv);
            && (exit == 0 <==>
                  || bypassed || !dbConfigured
                  || (sv.ScriptRead? && (dv.DbFileAbsent? || (dv.DbRead? && SetOf(dv.heads) <= Known(sv.script)))))
            && (exit == 1 <==>
                  !bypassed && dbConfigured && sv.ScriptRead? && dv.DbRead? && !(SetOf(dv.heads) <= Known(sv.script)))
            && (exit == 0 || exit == 1 || exit == 2)
  {
    if sv.ScriptRead? && dv.DbRead? && dv.heads != [] {
      ClassificationExact(sv.script, sv.imageHeads, dv.heads);
    }
  }
}
