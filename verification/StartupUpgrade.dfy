/** The startup upgrade of backend/alembic_startup_hook.py, run by any number of workers of one image. */
module StartupUpgrade {
  import opened Wrappers
  import opened Arithmetic
  import opened DriftGate

  // Each worker polls for an advisory lock, checks for drift, upgrades and checks again.  A worker
  // may be killed at any step.  The lock belongs to a session of its own, idle while the upgrade runs
  // on other connections, so a worker can lose it and go on.

  const LOCK_POLL_INTERVAL_S := 1.0

  // ---------------------------------------------------------------- polling for the lock

  /**
   Whether a poll gets the lock and how long each step takes is up to the environment; the
   clock is monotonic and a sleep lasts at least as long as asked.
   */
  method AcquireAdvisoryLock(lockTimeout: int, start: real) returns (acquired: bool, end: real, polls: nat)
    ensures end >= start && polls >= 1
    ensures !acquired ==> end >= start + lockTimeout as real
    ensures polls <= (if lockTimeout > 0 then lockTimeout else 0) + 1
  {
    var deadline := start + lockTimeout as real;
    end := start;
    polls := 0;
    while true
      invariant end >= start
      invariant end >= MinReal(start + polls as real, deadline)
      invariant polls <= (if lockTimeout > 0 then lockTimeout else 0) + 1
      invariant polls > lockTimeout ==> end >= deadline
      invariant polls == 0 || polls <= lockTimeout
      decreases (if lockTimeout > 0 then lockTimeout else 0) + 1 - polls
    {
      var busy: real := *;
      polls, end := polls + 1, end + MaxReal(0.0, busy);
      acquired := *;
      if acquired {
        return;
      }
      if end >= deadline {
        return;
      }
      var busyAgain: real := *;
      end := end + MaxReal(0.0, busyAgain);
      var remaining := MaxReal(0.0, deadline - end);
      var oversleep: real := *;
      end := end + MinReal(LOCK_POLL_INTERVAL_S, remaining) + MaxReal(0.0, oversleep);
    }
  }

  // ---------------------------------------------------------------- one worker's decisions

  /** manifest: alembic_head_in_image, stripped. */
  datatype Config = Config(script: Script, imageHeads: seq<Rev>, manifest: Rev)

  ghost predicate ValidConfig(c: Config) {
    WellFormed(c.script) && SetOf(c.imageHeads) == Heads(c.script)
  }

  function Join(l: seq<Rev>): string {
    if l == [] then "" else if |l| == 1 then l[0] else l[0] + "," + Join(l[1..])
  }

  function Check(c: Config, view: DbView): Payload {
    CheckDrift(ScriptRead(c.script, c.imageHeads), view)
  }

  function DbHead(p: Payload, fallback: string): string {
    if p.dbHead.Some? && p.dbHead.value != [] then Join(p.dbHead.value)
    else if p.dbHeads.Some? && p.dbHeads.value != [] then Join(p.dbHeads.value)
    else fallback
  }

  predicate NeedsUpgrade(p: Payload) {
    p.direction == Some(ImageAhead) || p.reason == DbHasNoAlembicVersion
  }

  predicate IsAligned(p: Payload) {
    p.direction == Some(Match) || p.reason == HeadsMatch
  }

  predicate IsBackward(p: Payload) {
    p.direction == Some(DbAhead) || p.direction == Some(Divergent)
  }

  datatype Outcome =
    | Returned(head: string)
    | BackwardDrift
    | RuntimeFailure
    | LockTimeout
    | ReleaseFailed
    | ManifestError
    | IntegrityExit
    | UpgradeFailed

  function AlignedOutcome(c: Config, p: Payload): Outcome {
    if DbHead(p, c.manifest) != c.manifest then BackwardDrift else Returned(DbHead(p, c.manifest))
  }

  /** After a first check that asks for no upgrade. */
  function FirstOutcome(c: Config, p: Payload): Outcome {
    if IsBackward(p) then BackwardDrift
    else if IsAligned(p) then AlignedOutcome(c, p)
    else RuntimeFailure
  }

  /** After an upgrade. */
  function SecondOutcome(c: Config, p: Payload): Outcome {
    if IsBackward(p) then BackwardDrift
    else if !IsAligned(p) then RuntimeFailure
    else AlignedOutcome(c, p)
  }

  // ---------------------------------------------------------------- all workers

  datatype Phase =
    | Starting
    | Polling
    | Holding                        // has the lock, nothing checked yet
    | UpgradeDue(first: Payload)
    | Upgrading
    | Upgraded
    | Releasing(outcome: Outcome)
    | Done(outcome: Outcome)
    | Killed

  /** succeeded: some alembic upgrade has completed. */
  datatype State = State(dbHeads: seq<Rev>, lock: Option<nat>, workers: seq<Phase>, succeeded: bool)

  predicate HasLock(p: Phase) {
    p.Holding? || p.UpgradeDue? || p.Upgrading? || p.Upgraded? || p.Releasing?
  }

  datatype Action =
    | RefuseEarly(w: nat, outcome: Outcome)      // bad manifest, failed integrity probe
    | StartPolling(w: nat)
    | GetLock(w: nat)
    | GiveUp(w: nat)                             // the deadline of AcquireAdvisoryLock has passed
    | FirstCheck(w: nat, view: DbView)
    | BeginUpgrade(w: nat)
    | UpgradeOk(w: nat)
    | UpgradeRaises(w: nat, heads: seq<Rev>)     // leaving the database at any heads
    | SecondCheck(w: nat, view: DbView)
    | Release(w: nat)                            // raises when the session is gone
    | LoseSession(w: nat)                        // the lock goes, the worker does not notice yet
    | Kill(w: nat, heads: seq<Rev>)              // its session, and with it the lock, is gone

  /** A check sees the heads as they are, or fails. */
  predicate Sees(s: State, view: DbView) {
    view.DbRead? ==> view.heads == s.dbHeads
  }

  predicate Enabled(c: Config, s: State, a: Action) {
    && a.w < |s.workers|
    && var p := s.workers[a.w];
       match a
       case RefuseEarly(_, o) => p.Starting? && (o.ManifestError? || o.IntegrityExit?)
       case StartPolling(_) => p.Starting?
       case GetLock(_) => p.Polling? && s.lock.None?
       case GiveUp(_) => p.Polling?
       case FirstCheck(_, view) => p.Holding? && Sees(s, view)
       case BeginUpgrade(_) => p.UpgradeDue?
       case UpgradeOk(_) => p.Upgrading?
       case UpgradeRaises(_, _) => p.Upgrading?
       case SecondCheck(_, view) => p.Upgraded? && Sees(s, view)
       case Release(_) => p.Releasing?
       case LoseSession(_) => HasLock(p) && s.lock == Some(a.w)
       case Kill(_, heads) => !p.Done? && !p.Killed? && (!p.Upgrading? ==> heads == s.dbHeads)
  }

  function Apply(c: Config, s: State, a: Action): State
    requires Enabled(c, s, a)
  {
    var p := s.workers[a.w];
    match a
    case RefuseEarly(w, o) => s.(workers := s.workers[w := Done(o)])
    case StartPolling(w) => s.(workers := s.workers[w := Polling])
    case GetLock(w) => s.(workers := s.workers[w := Holding], lock := Some(w))
    case GiveUp(w) => s.(workers := s.workers[w := Done(LockTimeout)])
    case FirstCheck(w, view) =>
      var first := Check(c, view);
      s.(workers := s.workers[w :=
      if NeedsUpgrade(first) then UpgradeDue(first) else Releasing(FirstOutcome(c, first))])
    case BeginUpgrade(w) => s.(workers := s.workers[w := Upgrading])
    case UpgradeOk(w) => State(c.imageHeads, s.lock, s.workers[w := Upgraded], true)
    case UpgradeRaises(w, heads) => s.(dbHeads := heads, workers := s.workers[w := Releasing(UpgradeFailed)])
    case SecondCheck(w, view) => s.(workers := s.workers[w := Releasing(SecondOutcome(c, Check(c, view)))])
    case Release(w) =>
      if s.lock == Some(w) then s.(workers := s.workers[w := Done(p.outcome)], lock := None)
      else s.(workers := s.workers[w := Done(ReleaseFailed)])
    case LoseSession(w) => s.(lock := None)
    case Kill(w, heads) =>
      State(heads, if s.lock == Some(w) then None else s.lock, s.workers[w := Killed], s.succeeded)
  }

  ghost predicate Initial(s: State) {
    && s.lock == None && !s.succeeded
    && forall w :: 0 <= w < |s.workers| ==> s.workers[w].Starting?
  }

  ghost predicate IsRun(c: Config, states: seq<State>, acts: seq<Action>) {
    && |states| == |acts| + 1
    && Initial(states[0])
    && forall i :: 0 <= i < |acts| ==> Enabled(c, states[i], acts[i]) && states[i + 1] == Apply(c, states[i], acts[i])
  }

  // ---------------------------------------------------------------- the lock

  /** Whether worker w has lost its session by the i-th state. */
  ghost predicate Lost(acts: seq<Action>, i: nat, w: nat)
    requires i <= |acts|
  {
    exists j :: 0 <= j < i && acts[j] == LoseSession(w)
  }

  ghost predicate NoneLost(acts: seq<Action>, i: nat)
    requires i <= |acts|
  {
    forall j :: 0 <= j < i ==> !acts[j].LoseSession?
  }

  /** A worker between taking and releasing the lock has it, unless its session is lost. */
  lemma {:induction false} LockKept(c: Config, states: seq<State>, acts: seq<Action>, i: nat, w: nat)
    requires IsRun(c, states, acts) && i < |states| && w < |states[i].workers|
    requires HasLock(states[i].workers[w]) && !Lost(acts, i, w)
    ensures states[i].lock == Some(w)
  {
    if i > 0 {
      assert acts[i - 1] != LoseSession(w);
      if HasLock(states[i - 1].workers[w]) {
        LockKept(c, states, acts, i - 1, w);
      }
    }
  }

  lemma {:induction false} LockHolder(c: Config, states: seq<State>, acts: seq<Action>, i: nat)
    requires IsRun(c, states, acts) && i < |states| && states[i].lock.Some?
    ensures states[i].lock.value < |states[i].workers| && HasLock(states[i].workers[states[i].lock.value])
  {
    if i > 0 && states[i - 1].lock.Some? {
      LockHolder(c, states, acts, i - 1);
    }
  }

  // ---------------------------------------------------------------- the invariant

  /** The database is where the image wants it. */
  ghost predicate Aligned(c: Config, heads: seq<Rev>) {
    heads != [] && SetOf(heads) == Heads(c.script)
  }

  ghost predicate ReturnOk(c: Config, heads: seq<Rev>, o: Outcome) {
    o.Returned? ==> Aligned(c, heads) && o.head == c.manifest == Join(heads)
  }

  ghost predicate PhaseOk(c: Config, s: State, w: nat)
    requires w < |s.workers|
  {
    var p := s.workers[w];
    && (HasLock(p) <==> s.lock == Some(w))
    && (p.UpgradeDue? ==> p.first == Check(c, DbRead(s.dbHeads)) && NeedsUpgrade(p.first))
    && (p.Upgrading? ==> NeedsUpgrade(Check(c, DbRead(s.dbHeads))))
    && (p.Upgraded? ==> s.dbHeads == c.imageHeads)
    && (p.Releasing? || p.Done? ==> ReturnOk(c, s.dbHeads, p.outcome))
  }

  ghost predicate Inv(c: Config, s: State) {
    && (s.lock.Some? ==> s.lock.value < |s.workers|)
    && (s.succeeded && c.script.revs != [] ==> Aligned(c, s.dbHeads))
    && forall w :: 0 <= w < |s.workers| ==> PhaseOk(c, s, w)
  }

  lemma HeadsExist(c: Config)
    requires ValidConfig(c) && c.script.revs != []
    ensures c.imageHeads != []
  {
    var h := HeadAbove(c.script, 0);
    assert h in SetOf(c.imageHeads);
  }

  /** What a check makes of the heads it reads. */
  lemma CheckMeans(c: Config, heads: seq<Rev>)
    requires ValidConfig(c)
    ensures var p := Check(c, DbRead(heads));
            && (NeedsUpgrade(p) <==> SetOf(heads) <= Known(c.script) && !Aligned(c, heads))
            && (IsBackward(p) <==> !(SetOf(heads) <= Known(c.script)))
            && (IsAligned(p) <==> Aligned(c, heads))
            && (heads != [] ==> DbHead(p, c.manifest) == Join(heads))
  {
    if heads != [] {
      ClassificationExact(c.script, c.imageHeads, heads);
      assert Heads(c.script) <= Known(c.script);
    }
  }

  lemma OutcomeOk(c: Config, s: State, view: DbView)
    requires ValidConfig(c) && Sees(s, view)
    ensures ReturnOk(c, s.dbHeads, FirstOutcome(c, Check(c, view)))
    ensures ReturnOk(c, s.dbHeads, SecondOutcome(c, Check(c, view)))
  {
    CheckMeans(c, s.dbHeads);
  }

  lemma PhaseStep(c: Config, s: State, a: Action, w: nat)
    requires ValidConfig(c) && Inv(c, s) && Enabled(c, s, a) && !a.LoseSession? && w < |s.workers|
    ensures PhaseOk(c, Apply(c, s, a), w)
  {
    assert PhaseOk(c, s, w) && PhaseOk(c, s, a.w);
    if w != a.w {
      if a.UpgradeOk? || a.UpgradeRaises? || a.Kill? {
        CheckMeans(c, s.dbHeads);
      }
    } else if a.FirstCheck? || a.SecondCheck? {
      OutcomeOk(c, s, a.view);
    }
  }

  lemma InvStep(c: Config, s: State, a: Action)
    requires ValidConfig(c) && Inv(c, s) && Enabled(c, s, a) && !a.LoseSession?
    ensures Inv(c, Apply(c, s, a))
  {
    var s' := Apply(c, s, a);
    forall w | 0 <= w < |s'.workers| ensures PhaseOk(c, s', w) {
      PhaseStep(c, s, a, w);
    }
    assert PhaseOk(c, s, a.w);
    if a.UpgradeOk? && c.script.revs != [] {
      HeadsExist(c);
    } else if a.UpgradeRaises? || a.Kill? {
      CheckMeans(c, s.dbHeads);
    }
  }

  lemma {:induction false} InvRun(c: Config, states: seq<State>, acts: seq<Action>, i: nat)
    requires ValidConfig(c) && IsRun(c, states, acts) && i < |states| && NoneLost(acts, i)
    ensures Inv(c, states[i])
  {
    if i > 0 {
      InvRun(c, states, acts, i - 1);
      InvStep(c, states[i - 1], acts[i - 1]);
    }
  }

  // ---------------------------------------------------------------- the theorems

  /**
   An upgrade overlaps another worker's upgrade or checks only when one of the two has lost its
   session; what other workers lose does not matter.
   */
  lemma UpgradesExclude(c: Config, states: seq<State>, acts: seq<Action>, i: nat, v: nat, w: nat)
    requires IsRun(c, states, acts) && i < |states|
    requires v < |states[i].workers| && w < |states[i].workers|
    requires states[i].workers[v].Upgrading? && HasLock(states[i].workers[w])
    ensures v == w || Lost(acts, i, v) || Lost(acts, i, w)
  {
    if !Lost(acts, i, v) && !Lost(acts, i, w) {
      LockKept(c, states, acts, i, v);
      LockKept(c, states, acts, i, w);
    }
  }

  /**
   An upgrade starts only from a database all of whose heads are migrations of this image and
   which is not there yet; never once an upgrade has succeeded, if the image has migrations.
   */
  lemma UpgradeStartsOnlyForward(c: Config, states: seq<State>, acts: seq<Action>, i: nat)
    requires ValidConfig(c) && IsRun(c, states, acts) && i < |acts| && acts[i].BeginUpgrade? && NoneLost(acts, i)
    ensures SetOf(states[i].dbHeads) <= Known(c.script) && !Aligned(c, states[i].dbHeads)
    ensures !IsBackward(states[i].workers[acts[i].w].first)
    ensures c.script.revs != [] ==> !states[i].succeeded
  {
    InvRun(c, states, acts, i);
    assert PhaseOk(c, states[i], acts[i].w);
    CheckMeans(c, states[i].dbHeads);
  }

  /** Once a worker has returned, the database stays at the script's heads, named by the manifest. */
  lemma ReturnedMeansAligned(c: Config, states: seq<State>, acts: seq<Action>, i: nat, w: nat)
    requires ValidConfig(c) && IsRun(c, states, acts) && i < |states| && w < |states[i].workers|
    requires states[i].workers[w].Done? && states[i].workers[w].outcome.Returned? && NoneLost(acts, i)
    ensures SetOf(states[i].dbHeads) == Heads(c.script)
    ensures states[i].workers[w].outcome.head == c.manifest == Join(states[i].dbHeads)
  {
    InvRun(c, states, acts, i);
    assert PhaseOk(c, states[i], w);
  }

  /** A worker that has finished in any way holds no lock; with all finished the lock is free. */
  lemma LocksAreReleased(c: Config, states: seq<State>, acts: seq<Action>, i: nat)
    requires IsRun(c, states, acts) && i < |states|
    ensures forall w :: 0 <= w < |states[i].workers| && (states[i].workers[w].Done? || states[i].workers[w].Killed?) ==>
              states[i].lock != Some(w)
    ensures (forall w :: 0 <= w < |states[i].workers| ==> !HasLock(states[i].workers[w])) ==> states[i].lock == None
  {
    if states[i].lock.Some? {
      LockHolder(c, states, acts, i);
    }
  }

  // ---------------------------------------------------------------- how a worker ends

  /** The heads that were read are the image's, and the manifest names them. */
  ghost predicate MatchesManifest(c: Config, view: DbView) {
    view.DbRead? && Aligned(c, view.heads) && Join(view.heads) == c.manifest
  }

  /** Some head is unknown to the image, or the image's heads go by another name in the manifest. */
  ghost predicate Mismatched(c: Config, view: DbView) {
    && view.DbRead?
    && (!(SetOf(view.heads) <= Known(c.script)) || (Aligned(c, view.heads) && Join(view.heads) != c.manifest))
  }

  /** Exact outcome of a check that ends a worker, by what it read. */
  ghost predicate OutcomeExact(c: Config, view: DbView, o: Outcome) {
    && (o == Returned(c.manifest) <==> MatchesManifest(c, view))
    && (o.Returned? <==> MatchesManifest(c, view))
    && (o == BackwardDrift <==> Mismatched(c, view))
    && (o == RuntimeFailure <==> !MatchesManifest(c, view) && !Mismatched(c, view))
  }

  lemma OutcomeIff(c: Config, view: DbView)
    requires ValidConfig(c)
    ensures OutcomeExact(c, view, SecondOutcome(c, Check(c, view)))
    ensures !NeedsUpgrade(Check(c, view)) ==> OutcomeExact(c, view, FirstOutcome(c, Check(c, view)))
    ensures NeedsUpgrade(Check(c, view)) <==>
            view.DbRead? && SetOf(view.heads) <= Known(c.script) && !Aligned(c, view.heads)
  {
    if view.DbRead? {
      CheckMeans(c, view.heads);
      assert Aligned(c, view.heads) ==> SetOf(view.heads) <= Known(c.script) by {
        assert Heads(c.script) <= Known(c.script);
      }
    }
  }

  predicate ChecksBy(a: Action, w: nat) {
    (a.FirstCheck? || a.SecondCheck?) && a.w == w
  }

  /** The latest check of worker w in the first i steps. */
  function LastCheck(acts: seq<Action>, i: nat, w: nat): (check: Option<Action>)
    requires i <= |acts|
    ensures check.Some? ==> check.value.FirstCheck? || check.value.SecondCheck?
  {
    if i == 0 then None else if ChecksBy(acts[i - 1], w) then Some(acts[i - 1]) else LastCheck(acts, i - 1, w)
  }

  /** How a worker stands by its latest check: an outcome that check gives, or the failed upgrade it asked for. */
  ghost predicate DecidedBy(c: Config, check: Action, o: Outcome) {
    && (check.FirstCheck? || check.SecondCheck?)
    && if check.FirstCheck? && NeedsUpgrade(Check(c, check.view)) then o == UpgradeFailed
       else OutcomeExact(c, check.view, o)
  }

  ghost predicate Explained(c: Config, acts: seq<Action>, i: nat, w: nat, p: Phase)
    requires i <= |acts|
  {
    var check := LastCheck(acts, i, w);
    match p
    case Starting => check == None && !Lost(acts, i, w)
    case Polling => check == None && !Lost(acts, i, w)
    case Holding => check == None
    case UpgradeDue(_) => check.Some? && check.value.FirstCheck? && NeedsUpgrade(Check(c, check.value.view))
    case Upgrading => check.Some? && check.value.FirstCheck? && NeedsUpgrade(Check(c, check.value.view))
    case Upgraded => check.Some? && check.value.FirstCheck? && NeedsUpgrade(Check(c, check.value.view))
    case Releasing(o) => check.Some? && DecidedBy(c, check.value, o)
    case Done(o) =>
      if check.None? then o.ManifestError? || o.IntegrityExit? || o.LockTimeout?
      else if Lost(acts, i, w) then o == ReleaseFailed
      else DecidedBy(c, check.value, o)
    case Killed => true
  }

  lemma LostLater(acts: seq<Action>, i: nat, w: nat)
    requires i < |acts|
    ensures Lost(acts, i + 1, w) <==> Lost(acts, i, w) || acts[i] == LoseSession(w)
  {
  }

  lemma ExplainedStep(c: Config, states: seq<State>, acts: seq<Action>, i: nat, w: nat)
    requires ValidConfig(c) && IsRun(c, states, acts) && i < |acts| && w < |states[i].workers|
    requires Explained(c, acts, i, w, states[i].workers[w])
    ensures Explained(c, acts, i + 1, w, states[i + 1].workers[w])
  {
    var a, p := acts[i], states[i].workers[w];
    LostLater(acts, i, w);
    if a.w == w {
      if a.FirstCheck? || a.SecondCheck? {
        OutcomeIff(c, a.view);
      }
      if a.Release? {
        ReleaseTells(c, states, acts, i, w);
      }
    }
  }

  /** A release raises exactly when the session is lost. */
  lemma ReleaseTells(c: Config, states: seq<State>, acts: seq<Action>, i: nat, w: nat)
    requires IsRun(c, states, acts) && i < |acts| && acts[i] == Release(w) && w < |states[i].workers|
    ensures states[i].lock == Some(w) <==> !Lost(acts, i, w)
  {
    if !Lost(acts, i, w) {
      LockKept(c, states, acts, i, w);
    } else {
      LostForGood(c, states, acts, i, w);
    }
  }

  /** A worker that lost its session never gets it back. */
  lemma {:induction false} LostForGood(c: Config, states: seq<State>, acts: seq<Action>, i: nat, w: nat)
    requires IsRun(c, states, acts) && i < |states| && w < |states[i].workers| && Lost(acts, i, w)
    ensures states[i].lock != Some(w) && !states[i].workers[w].Starting? && !states[i].workers[w].Polling?
  {
    LostLater(acts, i - 1, w);
    if Lost(acts, i - 1, w) {
      LostForGood(c, states, acts, i - 1, w);
      LostStep(c, states[i - 1], acts[i - 1], w);
    }
  }

  lemma LostStep(c: Config, s: State, a: Action, w: nat)
    requires Enabled(c, s, a) && w < |s.workers|
    requires s.lock != Some(w) && !s.workers[w].Starting? && !s.workers[w].Polling?
    ensures var s' := Apply(c, s, a);
            s'.lock != Some(w) && !s'.workers[w].Starting? && !s'.workers[w].Polling?
  {
  }

  lemma {:induction false} ExplainedRun(c: Config, states: seq<State>, acts: seq<Action>, i: nat, w: nat)
    requires ValidConfig(c) && IsRun(c, states, acts) && i < |states| && w < |states[i].workers|
    ensures Explained(c, acts, i, w, states[i].workers[w])
  {
    if i > 0 {
      ExplainedRun(c, states, acts, i - 1, w);
      ExplainedStep(c, states, acts, i - 1, w);
    }
  }

  /** What ended a worker in any run: exact conditions on its latest check and its session. */
  lemma EndsIff(c: Config, states: seq<State>, acts: seq<Action>, i: nat, w: nat)
    requires ValidConfig(c) && IsRun(c, states, acts) && i < |states| && w < |states[i].workers|
    requires states[i].workers[w].Done?
    ensures var o, check, kept := states[i].workers[w].outcome, LastCheck(acts, i, w), !Lost(acts, i, w);
            && (o.Returned? <==> check.Some? && kept && MatchesManifest(c, check.value.view))
            && (o.Returned? ==> o.head == c.manifest)
            && (o == BackwardDrift <==> check.Some? && kept && Mismatched(c, check.value.view))
            && (o == UpgradeFailed <==> check.Some? && kept && check.value.FirstCheck?
                                        && NeedsUpgrade(Check(c, check.value.view)))
            && (o == ReleaseFailed <==> check.Some? && !kept)
  {
    ExplainedRun(c, states, acts, i, w);
    var check := LastCheck(acts, i, w);
    if check.Some? {
      OutcomeIff(c, check.value.view);
    }
  }

  /**
   While no session is lost: once its upgrade has succeeded, a worker that can read the database
   returns exactly when the manifest names the image's heads.
   */
  lemma UpgradedReturns(c: Config, states: seq<State>, acts: seq<Action>, i: nat)
    requires ValidConfig(c) && IsRun(c, states, acts) && i < |acts| && NoneLost(acts, i)
    requires acts[i].SecondCheck? && acts[i].view.DbRead? && c.script.revs != []
    ensures states[i + 1].workers[acts[i].w] ==
            Releasing(if Join(c.imageHeads) == c.manifest then Returned(c.manifest) else BackwardDrift)
    ensures |c.imageHeads| == 1 ==> Join(c.imageHeads) == c.imageHeads[0]
  {
    InvRun(c, states, acts, i);
    assert PhaseOk(c, states[i], acts[i].w);
    HeadsExist(c);
    OutcomeIff(c, acts[i].view);
  }

  // ---------------------------------------------------------------- reaching a state

  ghost predicate Reachable(c: Config, s: State) {
    exists states: seq<State>, acts: seq<Action> :: IsRun(c, states, acts) && states[|acts|] == s
  }

  lemma ReachStep(c: Config, s: State, a: Action, s': State)
    requires Reachable(c, s) && Enabled(c, s, a) && Apply(c, s, a) == s'
    ensures Reachable(c, s')
  {
    var states: seq<State>, acts: seq<Action> :| IsRun(c, states, acts) && states[|acts|] == s;
    var states', acts' := states + [s'], acts + [a];
    assert states'[|acts|] == s && states'[|acts| + 1] == s' && states'[0] == states[0];
    forall i | 0 <= i < |acts'|
      ensures Enabled(c, states'[i], acts'[i]) && states'[i + 1] == Apply(c, states'[i], acts'[i])
    {
      if i < |acts| {
        assert acts'[i] == acts[i] && states'[i] == states[i] && states'[i + 1] == states[i + 1];
      }
    }
    assert IsRun(c, states', acts');
  }

  // From a database without heads, whatever the image.

  lemma BothPoll(c: Config)
    ensures Reachable(c, State([], None, [Polling, Polling], false))
  {
    var s0 := State([], None, [Starting, Starting], false);
    assert IsRun(c, [s0], []);
    ReachStep(c, s0, StartPolling(0), State([], None, [Polling, Starting], false));
    ReachStep(c, State([], None, [Polling, Starting], false), StartPolling(1),
              State([], None, [Polling, Polling], false));
  }

  lemma FirstHolds(c: Config)
    ensures Reachable(c, State([], Some(0), [Holding, Polling], false))
  {
    BothPoll(c);
    ReachStep(c, State([], None, [Polling, Polling], false), GetLock(0), State([], Some(0), [Holding, Polling], false));
  }

  lemma FirstIsDue(c: Config)
    ensures Reachable(c, State([], Some(0), [UpgradeDue(Check(c, DbRead([]))), Polling], false))
  {
    FirstHolds(c);
    var s := State([], Some(0), [Holding, Polling], false);
    ReachStep(c, s, FirstCheck(0, DbRead([])), State([], Some(0), [UpgradeDue(Check(c, DbRead([]))), Polling], false));
  }

  lemma FirstUpgrades(c: Config)
    ensures Reachable(c, State([], Some(0), [Upgrading, Polling], false))
  {
    FirstIsDue(c);
    var s := State([], Some(0), [UpgradeDue(Check(c, DbRead([]))), Polling], false);
    ReachStep(c, s, BeginUpgrade(0), State([], Some(0), [Upgrading, Polling], false));
  }

  // ---------------------------------------------------------------- an image without migrations

  /** The first of two workers runs its upgrade of nothing and fails its second check. */
  lemma EmptyImageFirstWorker(c: Config)
    requires c.script == Script([]) && c.imageHeads == []
    ensures Reachable(c, State([], None, [Done(RuntimeFailure), Polling], true))
  {
    FirstUpgrades(c);
    var s := State([], Some(0), [Upgraded, Polling], true);
    ReachStep(c, State([], Some(0), [Upgrading, Polling], false), UpgradeOk(0), s);
    EmptyImageFirstFails(c, s);
  }

  lemma EmptyImageFirstFails(c: Config, s: State)
    requires c.script == Script([]) && c.imageHeads == []
    requires s == State([], Some(0), [Upgraded, Polling], true) && Reachable(c, s)
    ensures Reachable(c, State([], None, [Done(RuntimeFailure), Polling], true))
  {
    var s' := s.(workers := [Releasing(RuntimeFailure), Polling]);
    ReachStep(c, s, SecondCheck(0, DbRead([])), s');
    ReachStep(c, s', Release(0), State([], None, [Done(RuntimeFailure), Polling], true));
  }

  lemma EmptyImageSecondHolds(c: Config)
    requires c.script == Script([]) && c.imageHeads == []
    ensures Reachable(c, State([], Some(1), [Done(RuntimeFailure), Holding], true))
  {
    EmptyImageFirstWorker(c);
    var s := State([], None, [Done(RuntimeFailure), Polling], true);
    ReachStep(c, s, GetLock(1), State([], Some(1), [Done(RuntimeFailure), Holding], true));
  }

  lemma EmptyImageSecondDue(c: Config)
    requires c.script == Script([]) && c.imageHeads == []
    ensures Reachable(c, State([], Some(1), [Done(RuntimeFailure), UpgradeDue(Check(c, DbRead([])))], true))
  {
    EmptyImageSecondHolds(c);
    var s := State([], Some(1), [Done(RuntimeFailure), Holding], true);
    var s' := State([], Some(1), [Done(RuntimeFailure), UpgradeDue(Check(c, DbRead([])))], true);
    ReachStep(c, s, FirstCheck(1, DbRead([])), s');
  }

  /** Without migrations the database stays empty, and a second worker upgrades again after a success. */
  lemma EmptyImageUpgradesAgain(manifest: Rev)
    ensures var c := Config(Script([]), [], manifest);
            exists s :: Reachable(c, s) && s.succeeded && Enabled(c, s, BeginUpgrade(1))
  {
    var c := Config(Script([]), [], manifest);
    EmptyImageSecondDue(c);
    var s := State([], Some(1), [Done(RuntimeFailure), UpgradeDue(Check(c, DbRead([])))], true);
    assert Enabled(c, s, BeginUpgrade(1));
  }

  // ---------------------------------------------------------------- a lost session

  /** The first of two workers loses its session while it upgrades, and the second gets the lock. */
  lemma SecondHolds(c: Config)
    ensures Reachable(c, State([], Some(1), [Upgrading, Holding], false))
  {
    FirstUpgrades(c);
    var s := State([], None, [Upgrading, Polling], false);
    ReachStep(c, State([], Some(0), [Upgrading, Polling], false), LoseSession(0), s);
    ReachStep(c, s, GetLock(1), State([], Some(1), [Upgrading, Holding], false));
  }

  /** For every image: after a lost session two workers can upgrade an empty database at once. */
  lemma LostSessionOverlap(c: Config)
    ensures Reachable(c, State([], Some(1), [Upgrading, Upgrading], false))
  {
    SecondHolds(c);
    var s := State([], Some(1), [Upgrading, UpgradeDue(Check(c, DbRead([])))], false);
    ReachStep(c, State([], Some(1), [Upgrading, Holding], false), FirstCheck(1, DbRead([])), s);
    ReachStep(c, s, BeginUpgrade(1), State([], Some(1), [Upgrading, Upgrading], false));
  }
}
