/** Session rotation of backend/auth.py under concurrency. */
module SessionRotation {
  import opened Wrappers

  // Any number of callers rotate tokens, each in its own transaction, while sessions are
  // created, deleted and given new expiries by everyone else.  Bulk expiry and the cleanup of
  // expired rows are sequences of the single-row steps.  Each row carries the token whose
  // rotation produced it; the program never reads that column, the statements below do.

  const ROTATION_GRACE_S := 30.0

  type Token = string

  datatype Row = Row(expiresAt: real, rotatedTo: Option<Token>, origin: Option<Token>)

  type Table = map<Token, Row>

  /** One rotation of prior, between its statements. */
  datatype Phase =
    | Idle
    | Waiting(prior: Token)                                              // for the advisory lock
    | Locked(prior: Token)
    | Successor(prior: Token, succ: Token)                               // prior names a successor, not yet looked up
    | EvictDue(prior: Token, succ: Token)                                // the successor was expired when looked up
    | CreateDue(prior: Token, evicted: Option<Token>)
    | MarkDue(prior: Token, evicted: Option<Token>, minted: Token, expires: real)
    | Finished(prior: Token, evicted: Option<Token>, created: Option<(Token, real)>, mark: Option<real>, answer: Token)

  /** used: every token ever handed out.  answered: the latest answer to a rotation of each token. */
  datatype State = State(table: Table, callers: seq<Phase>, used: set<Token>, answered: map<Token, Token>)

  datatype Action =
    | Start(w: nat, prior: Token)
    | Acquire(w: nat)
    | ReadOld(w: nat, now: real)
    | ReadSuccessor(w: nat, now: real)
    | Evict(w: nat)                               // the row may have got a new expiry since
    | CreateNew(w: nat, minted: Token, expires: real)
    | MarkOld(w: nat, now: real)
    | Commit(w: nat)
    | Rollback(w: nat)
    | Login(token: Token, expires: real)          // a session that no rotation produced
    | Delete(token: Token)                        // logout, eviction on lookup, cleanup
    | SetExpiry(token: Token, expires: real)      // bulk expiry

  predicate Live(t: Table, token: Token, now: real) {
    token in t && t[token].expiresAt >= now
  }

  predicate HoldsLock(p: Phase) {
    !p.Idle? && !p.Waiting?
  }

  /** Rows that an open transaction has changed stay locked until it ends. */
  function RowLocks(p: Phase): set<Token> {
    match p
    case CreateDue(_, Some(e)) => {e}
    case MarkDue(_, Some(e), _, _) => {e}
    case Finished(prior, e, _, mark, _) => (if e.Some? then {e.value} else {}) + (if mark.Some? then {prior} else {})
    case _ => {}
  }

  ghost predicate Unlocked(s: State, token: Token, w: int) {
    forall v :: 0 <= v < |s.callers| && v != w ==> token !in RowLocks(s.callers[v])
  }

  predicate ByCaller(a: Action) {
    !a.Login? && !a.Delete? && !a.SetExpiry?
  }

  ghost predicate Enabled(lockKey: Token -> int, s: State, a: Action) {
    && (ByCaller(a) ==> a.w < |s.callers|)
    && match a
       case Start(w, _) => s.callers[w].Idle?
       case Acquire(w) => s.callers[w].Waiting? &&
         forall v :: 0 <= v < |s.callers| && v != w && HoldsLock(s.callers[v]) ==>
           lockKey(s.callers[v].prior) != lockKey(s.callers[w].prior)
       case ReadOld(w, _) => s.callers[w].Locked?
       case ReadSuccessor(w, _) => s.callers[w].Successor?
       case Evict(w) => s.callers[w].EvictDue? && Unlocked(s, s.callers[w].succ, w)
       case CreateNew(w, minted, _) => s.callers[w].CreateDue? && minted !in s.used
       case MarkOld(w, _) => s.callers[w].MarkDue? && Unlocked(s, s.callers[w].prior, w)
       case Commit(w) => s.callers[w].Finished?
       case Rollback(w) => !s.callers[w].Idle?
       case Login(token, _) => token !in s.used
       case Delete(token) => Unlocked(s, token, -1)
       case SetExpiry(token, _) => token in s.table && Unlocked(s, token, -1)
  }

  function SetPhase(s: State, w: nat, p: Phase): State
    requires w < |s.callers|
  {
    s.(callers := s.callers[w := p])
  }

  /** The table once a finished rotation commits. */
  function Committed(t: Table, p: Phase): Table
    requires p.Finished?
  {
    var t1 := if p.evicted.Some? then t - {p.evicted.value} else t;
    var t2 := if p.created.Some? then t1[p.created.value.0 := Row(p.created.value.1, None, Some(p.prior))] else t1;
    if p.mark.Some? && p.prior in t2
    then t2[p.prior := t2[p.prior].(rotatedTo := Some(p.answer), expiresAt := p.mark.value)]
    else t2
  }

  function AfterEvict(t: Table, p: Phase): Phase
    requires p.EvictDue?
  {
    CreateDue(p.prior, if p.succ in t then Some(p.succ) else None)
  }

  function AfterMark(t: Table, p: Phase, now: real): Phase
    requires p.MarkDue?
  {
    Finished(p.prior, p.evicted, Some((p.minted, p.expires)),
             if p.prior in t then Some(now + ROTATION_GRACE_S) else None, p.minted)
  }

  ghost function Apply(lockKey: Token -> int, s: State, a: Action): State
    requires Enabled(lockKey, s, a)
  {
    match a
    case Start(w, prior) => SetPhase(s, w, Waiting(prior))
    case Acquire(w) => SetPhase(s, w, Locked(s.callers[w].prior))
    case ReadOld(w, now) =>
      var prior := s.callers[w].prior;
      if !Live(s.table, prior, now) then SetPhase(s, w, Idle)     // "session not found or expired"; all undone
      else SetPhase(s, w, match s.table[prior].rotatedTo
                          case Some(succ) => Successor(prior, succ)
                          case None => CreateDue(prior, None))
    case ReadSuccessor(w, now) =>
      var Successor(prior, succ) := s.callers[w];
      SetPhase(s, w, if Live(s.table, succ, now) then Finished(prior, None, None, None, succ)
                     else if succ in s.table then EvictDue(prior, succ) else CreateDue(prior, None))
    case Evict(w) =>
      SetPhase(s, w, AfterEvict(s.table, s.callers[w]))
    case CreateNew(w, minted, expires) =>
      SetPhase(s, w, MarkDue(s.callers[w].prior, s.callers[w].evicted, minted, expires)).(used := s.used + {minted})
    case MarkOld(w, now) =>
      SetPhase(s, w, AfterMark(s.table, s.callers[w], now))
    case Commit(w) =>
      var p := s.callers[w];
      SetPhase(s, w, Idle).(table := Committed(s.table, p), answered := s.answered[p.prior := p.answer])
    case Rollback(w) => SetPhase(s, w, Idle)
    case Login(token, expires) => s.(table := s.table[token := Row(expires, None, None)], used := s.used + {token})
    case Delete(token) => s.(table := s.table - {token})
    case SetExpiry(token, expires) => s.(table := s.table[token := s.table[token].(expiresAt := expires)])
  }

  ghost predicate Initial(s: State) {
    && s.table == map[] && s.used == {} && s.answered == map[]
    && forall w :: 0 <= w < |s.callers| ==> s.callers[w].Idle?
  }

  ghost predicate IsRun(lockKey: Token -> int, states: seq<State>, acts: seq<Action>) {
    && |states| == |acts| + 1
    && Initial(states[0])
    && forall i :: 0 <= i < |acts| ==>
         Enabled(lockKey, states[i], acts[i]) && states[i + 1] == Apply(lockKey, states[i], acts[i])
  }

  // ---------------------------------------------------------------- the invariant

  ghost predicate ProducedBy(t: Table, x: Token, prior: Token) {
    x in t && t[x].origin == Some(prior)
  }

  /** Each token has at most one product, and points at it. */
  ghost predicate TableOk(t: Table) {
    && (forall x, y, prior :: ProducedBy(t, x, prior) && ProducedBy(t, y, prior) ==> x == y)
    && (forall x, prior :: ProducedBy(t, x, prior) && prior in t ==> t[prior].rotatedTo == Some(x))
    && (forall prior :: prior in t && t[prior].rotatedTo.Some? && t[prior].rotatedTo.value in t ==>
          ProducedBy(t, t[prior].rotatedTo.value, prior))
  }

  /** Tokens an open rotation relies on. */
  function Mentions(p: Phase): set<Token> {
    match p
    case Successor(prior, succ) => {prior, succ}
    case EvictDue(prior, succ) => {prior, succ}
    case CreateDue(prior, _) => {prior}
    case MarkDue(prior, _, minted, _) => {prior, minted}
    case Finished(prior, _, _, _, answer) => {prior, answer}
    case _ => {}
  }

  function RowMentions(r: Row): set<Token> {
    (if r.rotatedTo.Some? then {r.rotatedTo.value} else {}) + (if r.origin.Some? then {r.origin.value} else {})
  }

  ghost predicate UsedOk(s: State) {
    && (forall x :: x in s.table ==> x in s.used && RowMentions(s.table[x]) <= s.used)
    && (forall x :: x in s.answered ==> s.answered[x] in s.used)
    && (forall w :: 0 <= w < |s.callers| ==> Mentions(s.callers[w]) <= s.used)
  }

  function Minted(p: Phase): Option<Token> {
    match p
    case MarkDue(_, _, minted, _) => Some(minted)
    case Finished(_, _, Some(created), _, _) => Some(created.0)
    case _ => None
  }

  /** A token that has been generated but not committed is known to its caller only. */
  ghost predicate Unknown(s: State, minted: Token, w: nat) {
    && (forall x :: x in s.table ==> x != minted && minted !in RowMentions(s.table[x]))
    && (forall x :: x in s.answered ==> s.answered[x] != minted)
    && (forall v :: 0 <= v < |s.callers| && v != w ==> minted !in Mentions(s.callers[v]))
  }

  ghost predicate MintedOk(s: State) {
    forall w :: 0 <= w < |s.callers| && Minted(s.callers[w]).Some? ==> Unknown(s, Minted(s.callers[w]).value, w)
  }

  ghost predicate LocksOk(lockKey: Token -> int, s: State) {
    forall v, w :: 0 <= v < |s.callers| && 0 <= w < |s.callers| && v != w
                   && HoldsLock(s.callers[v]) && HoldsLock(s.callers[w]) ==>
      lockKey(s.callers[v].prior) != lockKey(s.callers[w].prior)
  }

  ghost predicate AnswersOk(s: State) {
    forall prior :: prior in s.answered && s.answered[prior] in s.table ==>
      ProducedBy(s.table, s.answered[prior], prior)
  }

  /** The only product of prior that may be left is keep. */
  ghost predicate OnlyProduct(t: Table, prior: Token, keep: Option<Token>) {
    forall x :: ProducedBy(t, x, prior) ==> keep == Some(x)
  }

  ghost predicate PhaseOk(t: Table, p: Phase) {
    match p
    case Successor(prior, succ) =>
      OnlyProduct(t, prior, Some(succ)) && (succ in t ==> ProducedBy(t, succ, prior))
    case EvictDue(prior, succ) => OnlyProduct(t, prior, Some(succ))
    case CreateDue(prior, evicted) => OnlyProduct(t, prior, evicted)
    case MarkDue(prior, evicted, minted, _) => OnlyProduct(t, prior, evicted) && minted != prior
    case Finished(prior, evicted, None, mark, answer) =>
      && evicted.None? && mark.None?
      && OnlyProduct(t, prior, Some(answer)) && (answer in t ==> ProducedBy(t, answer, prior))
    case Finished(prior, evicted, Some(created), mark, answer) =>
      answer == created.0 && answer != prior && OnlyProduct(t, prior, evicted) && (mark.None? ==> prior !in t)
    case _ => true
  }

  ghost predicate Inv(lockKey: Token -> int, s: State) {
    && TableOk(s.table) && UsedOk(s) && MintedOk(s) && LocksOk(lockKey, s) && AnswersOk(s)
    && forall w :: 0 <= w < |s.callers| ==> PhaseOk(s.table, s.callers[w])
  }

  // ---------------------------------------------------------------- every step keeps it

  /** Steps of one caller that leave the table alone. */
  lemma PhaseStep(lockKey: Token -> int, s: State, w: nat, p: Phase)
    requires Inv(lockKey, s) && w < |s.callers|
    requires PhaseOk(s.table, p) && Mentions(p) <= s.used
    requires Minted(p).Some? ==> Minted(p) == Minted(s.callers[w])
    requires forall v :: 0 <= v < |s.callers| && v != w && Minted(s.callers[v]).Some? ==>
               Minted(s.callers[v]).value !in Mentions(p)
    requires HoldsLock(p) ==> HoldsLock(s.callers[w]) && p.prior == s.callers[w].prior
    ensures Inv(lockKey, SetPhase(s, w, p))
  {
  }

  lemma AcquireStep(lockKey: Token -> int, s: State, w: nat)
    requires Inv(lockKey, s) && Enabled(lockKey, s, Acquire(w))
    ensures Inv(lockKey, Apply(lockKey, s, Acquire(w)))
  {
  }

  lemma ReadOldStep(lockKey: Token -> int, s: State, w: nat, now: real)
    requires Inv(lockKey, s) && Enabled(lockKey, s, ReadOld(w, now))
    ensures Inv(lockKey, Apply(lockKey, s, ReadOld(w, now)))
  {
    var prior := s.callers[w].prior;
    if Live(s.table, prior, now) {
      match s.table[prior].rotatedTo
      case Some(succ) =>
        assert succ in RowMentions(s.table[prior]);
        PhaseStep(lockKey, s, w, Successor(prior, succ));
      case None => PhaseStep(lockKey, s, w, CreateDue(prior, None));
    } else {
      PhaseStep(lockKey, s, w, Idle);
    }
  }

  lemma ReadSuccessorStep(lockKey: Token -> int, s: State, w: nat, now: real)
    requires Inv(lockKey, s) && Enabled(lockKey, s, ReadSuccessor(w, now))
    ensures Inv(lockKey, Apply(lockKey, s, ReadSuccessor(w, now)))
  {
    var Successor(prior, succ) := s.callers[w];
    assert PhaseOk(s.table, s.callers[w]);
    if Live(s.table, succ, now) {
      PhaseStep(lockKey, s, w, Finished(prior, None, None, None, succ));
    } else {
      PhaseStep(lockKey, s, w, if succ in s.table then EvictDue(prior, succ) else CreateDue(prior, None));
    }
  }

  lemma EvictStep(lockKey: Token -> int, s: State, w: nat)
    requires Inv(lockKey, s) && Enabled(lockKey, s, Evict(w))
    ensures Inv(lockKey, Apply(lockKey, s, Evict(w)))
  {
    assert PhaseOk(s.table, s.callers[w]);
    PhaseStep(lockKey, s, w, AfterEvict(s.table, s.callers[w]));
  }

  lemma CreateStep(lockKey: Token -> int, s: State, w: nat, minted: Token, expires: real)
    requires Inv(lockKey, s) && Enabled(lockKey, s, CreateNew(w, minted, expires))
    ensures Inv(lockKey, Apply(lockKey, s, CreateNew(w, minted, expires)))
  {
    var s' := Apply(lockKey, s, CreateNew(w, minted, expires));
    assert PhaseOk(s.table, s.callers[w]);
    assert s.callers[w].prior in Mentions(s.callers[w]);
    forall v | 0 <= v < |s'.callers| && Minted(s'.callers[v]).Some?
      ensures Unknown(s', Minted(s'.callers[v]).value, v)
    {
      CreateUnknown(lockKey, s, w, minted, expires, v);
    }
    assert LocksOk(lockKey, s') && UsedOk(s');
  }

  lemma CreateUnknown(lockKey: Token -> int, s: State, w: nat, minted: Token, expires: real, v: nat)
    requires Inv(lockKey, s) && Enabled(lockKey, s, CreateNew(w, minted, expires))
    requires v < |s.callers| && (v == w || Minted(s.callers[v]).Some?)
    ensures var s' := Apply(lockKey, s, CreateNew(w, minted, expires));
            Minted(s'.callers[v]).Some? && Unknown(s', Minted(s'.callers[v]).value, v)
  {
    if v != w {
      assert PhaseOk(s.table, s.callers[v]);
      assert Minted(s.callers[v]).value in Mentions(s.callers[v]);
      assert Unknown(s, Minted(s.callers[v]).value, v);
    }
  }

  lemma MarkStep(lockKey: Token -> int, s: State, w: nat, now: real)
    requires Inv(lockKey, s) && Enabled(lockKey, s, MarkOld(w, now))
    ensures Inv(lockKey, Apply(lockKey, s, MarkOld(w, now)))
  {
    var p := AfterMark(s.table, s.callers[w], now);
    assert PhaseOk(s.table, s.callers[w]);
    MarkedPhase(s.table, s.callers[w], now);
    NotMentioned(s, w, p);
    PhaseStep(lockKey, s, w, p);
  }

  lemma MarkedPhase(t: Table, p: Phase, now: real)
    requires p.MarkDue? && PhaseOk(t, p)
    ensures var m := AfterMark(t, p, now);
            PhaseOk(t, m) && Mentions(m) == Mentions(p) && Minted(m) == Minted(p) && HoldsLock(m)
  {
  }

  /** What the others have generated stays unmentioned by a caller that mentions nothing new. */
  lemma NotMentioned(s: State, w: nat, p: Phase)
    requires MintedOk(s) && w < |s.callers| && Mentions(p) <= Mentions(s.callers[w])
    ensures forall v :: 0 <= v < |s.callers| && v != w && Minted(s.callers[v]).Some? ==>
              Minted(s.callers[v]).value !in Mentions(p)
  {
  }

  lemma LoginStep(lockKey: Token -> int, s: State, token: Token, expires: real)
    requires Inv(lockKey, s) && token !in s.used
    ensures Inv(lockKey, s.(table := s.table[token := Row(expires, None, None)], used := s.used + {token}))
  {
    var s' := s.(table := s.table[token := Row(expires, None, None)], used := s.used + {token});
    assert token !in s.table;
    assert forall x, p :: ProducedBy(s'.table, x, p) <==> ProducedBy(s.table, x, p);
    forall w | 0 <= w < |s.callers|
      ensures PhaseOk(s'.table, s.callers[w])
      ensures Minted(s.callers[w]).Some? ==> Unknown(s', Minted(s.callers[w]).value, w)
    {
      LoginCaller(lockKey, s, token, expires, w);
    }
    assert TableOk(s'.table) && UsedOk(s') && MintedOk(s') && LocksOk(lockKey, s');
  }

  lemma LoginCaller(lockKey: Token -> int, s: State, token: Token, expires: real, w: nat)
    requires Inv(lockKey, s) && token !in s.used && w < |s.callers|
    ensures var s' := s.(table := s.table[token := Row(expires, None, None)], used := s.used + {token});
            && PhaseOk(s'.table, s.callers[w])
            && (Minted(s.callers[w]).Some? ==> Unknown(s', Minted(s.callers[w]).value, w))
  {
    var t := s.table[token := Row(expires, None, None)];
    assert PhaseOk(s.table, s.callers[w]) && Mentions(s.callers[w]) <= s.used;
    assert forall x, p :: ProducedBy(t, x, p) <==> ProducedBy(s.table, x, p);
  }

  lemma DeleteStep(lockKey: Token -> int, s: State, token: Token)
    requires Inv(lockKey, s)
    ensures Inv(lockKey, s.(table := s.table - {token}))
  {
    var t := s.table - {token};
    assert forall x, p :: ProducedBy(t, x, p) <==> ProducedBy(s.table, x, p) && x != token;
    forall w | 0 <= w < |s.callers| ensures PhaseOk(t, s.callers[w]) {
      assert PhaseOk(s.table, s.callers[w]);
    }
  }

  lemma SetExpiryStep(lockKey: Token -> int, s: State, token: Token, expires: real)
    requires Inv(lockKey, s) && token in s.table
    ensures Inv(lockKey, s.(table := s.table[token := s.table[token].(expiresAt := expires)]))
  {
    var t := s.table[token := s.table[token].(expiresAt := expires)];
    assert forall x :: x in t ==> x in s.table && RowMentions(t[x]) == RowMentions(s.table[x])
                                  && t[x].rotatedTo == s.table[x].rotatedTo;
    assert forall x, p :: ProducedBy(t, x, p) <==> ProducedBy(s.table, x, p);
    forall w | 0 <= w < |s.callers| ensures PhaseOk(t, s.callers[w]) {
      assert PhaseOk(s.table, s.callers[w]);
    }
  }

  // ---------------------------------------------------------------- commit

  lemma CommittedProducts(t: Table, p: Phase, x: Token, o: Token)
    requires p.Finished?
    requires p.created.Some? ==> p.created.value.0 !in t && p.created.value.0 != p.prior
    ensures ProducedBy(Committed(t, p), x, o) <==>
            (p.created.Some? && x == p.created.value.0 && o == p.prior)
            || (ProducedBy(t, x, o) && p.evicted != Some(x))
  {
  }

  /** Committing a rotation keeps one product per token. */
  lemma CommittedTableOk(t: Table, p: Phase)
    requires TableOk(t) && p.Finished? && PhaseOk(t, p)
    requires p.created.Some? ==> forall x :: x in t ==> x != p.answer && p.answer !in RowMentions(t[x])
    ensures TableOk(Committed(t, p))
  {
    var t' := Committed(t, p);
    forall x, o ensures ProducedBy(t', x, o) <==>
                (p.created.Some? && x == p.created.value.0 && o == p.prior)
                || (ProducedBy(t, x, o) && p.evicted != Some(x)) {
      CommittedProducts(t, p, x, o);
    }
    assert p.created.Some? ==> forall x, o :: ProducedBy(t, x, o) ==> o != p.answer;
    assert forall o :: o in t' && o != p.prior && Some(o) != Minted(p) ==> o in t && t'[o].rotatedTo == t[o].rotatedTo;
  }

  lemma CommitTable(lockKey: Token -> int, s: State, w: nat)
    requires Inv(lockKey, s) && Enabled(lockKey, s, Commit(w))
    ensures TableOk(Committed(s.table, s.callers[w]))
  {
    var p := s.callers[w];
    assert PhaseOk(s.table, p);
    if p.created.Some? {
      assert Unknown(s, p.answer, w);
    }
    CommittedTableOk(s.table, p);
  }

  lemma CommitOthers(lockKey: Token -> int, s: State, w: nat, v: nat)
    requires Inv(lockKey, s) && Enabled(lockKey, s, Commit(w)) && v < |s.callers| && v != w
    ensures PhaseOk(Committed(s.table, s.callers[w]), s.callers[v])
  {
    var p, q := s.callers[w], s.callers[v];
    var t' := Committed(s.table, p);
    assert PhaseOk(s.table, p) && PhaseOk(s.table, q);
    forall x, o ensures ProducedBy(t', x, o) <==>
                (p.created.Some? && x == p.created.value.0 && o == p.prior)
                || (ProducedBy(s.table, x, o) && p.evicted != Some(x)) {
      CommittedProducts(s.table, p, x, o);
    }
    if p.created.Some? {
      assert Unknown(s, p.answer, w);
    }
    assert HoldsLock(q) ==> q.prior != p.prior;
  }

  lemma CommitStep(lockKey: Token -> int, s: State, w: nat)
    requires Inv(lockKey, s) && Enabled(lockKey, s, Commit(w))
    ensures Inv(lockKey, Apply(lockKey, s, Commit(w)))
  {
    var s' := Apply(lockKey, s, Commit(w));
    var p := s.callers[w];
    assert PhaseOk(s.table, p);
    CommitTable(lockKey, s, w);
    forall v | 0 <= v < |s'.callers| ensures PhaseOk(s'.table, s'.callers[v]) {
      if v != w {
        CommitOthers(lockKey, s, w, v);
      }
    }
    CommitUsed(lockKey, s, w);
    CommitMinted(lockKey, s, w);
    CommitAnswers(lockKey, s, w);
    assert LocksOk(lockKey, s');
  }

  lemma CommitAnswers(lockKey: Token -> int, s: State, w: nat)
    requires Inv(lockKey, s) && Enabled(lockKey, s, Commit(w))
    ensures AnswersOk(Apply(lockKey, s, Commit(w)))
  {
    var s', p := Apply(lockKey, s, Commit(w)), s.callers[w];
    assert PhaseOk(s.table, p);
    if p.created.Some? {
      assert Unknown(s, p.answer, w);
    }
    forall o | o in s'.answered && s'.answered[o] in s'.table ensures ProducedBy(s'.table, s'.answered[o], o) {
      CommittedProducts(s.table, p, s'.answered[o], o);
    }
  }

  lemma CommitUsed(lockKey: Token -> int, s: State, w: nat)
    requires Inv(lockKey, s) && Enabled(lockKey, s, Commit(w))
    ensures UsedOk(Apply(lockKey, s, Commit(w)))
  {
    var s' := Apply(lockKey, s, Commit(w));
    var p := s.callers[w];
    assert PhaseOk(s.table, p);
    assert p.prior in Mentions(p) && p.answer in Mentions(p);
    forall x | x in s'.table ensures x in s'.used && RowMentions(s'.table[x]) <= s'.used {
      assert x in s.table ==> RowMentions(s.table[x]) <= s.used;
    }
    forall v | 0 <= v < |s'.callers| ensures Mentions(s'.callers[v]) <= s'.used {
      assert Mentions(s.callers[v]) <= s.used;
    }
  }

  lemma CommitMinted(lockKey: Token -> int, s: State, w: nat)
    requires Inv(lockKey, s) && Enabled(lockKey, s, Commit(w))
    ensures MintedOk(Apply(lockKey, s, Commit(w)))
  {
    var s' := Apply(lockKey, s, Commit(w));
    forall v | 0 <= v < |s'.callers| && Minted(s'.callers[v]).Some?
      ensures Unknown(s', Minted(s'.callers[v]).value, v)
    {
      CommitUnknown(lockKey, s, w, v);
    }
  }

  lemma CommitUnknown(lockKey: Token -> int, s: State, w: nat, v: nat)
    requires Inv(lockKey, s) && Enabled(lockKey, s, Commit(w))
    requires v < |s.callers| && v != w && Minted(s.callers[v]).Some?
    ensures Unknown(Apply(lockKey, s, Commit(w)), Minted(s.callers[v]).value, v)
  {
    var s' := Apply(lockKey, s, Commit(w));
    var p, f := s.callers[w], Minted(s.callers[v]).value;
    assert Unknown(s, f, v);
    assert p.prior in Mentions(p) && p.answer in Mentions(p);
    assert f != p.prior && f != p.answer;
    assert PhaseOk(s.table, p);
    forall x | x in s'.table ensures x != f && f !in RowMentions(s'.table[x]) {
      assert x in s.table ==> f !in RowMentions(s.table[x]);
    }
  }

  lemma InvStep(lockKey: Token -> int, s: State, a: Action)
    requires Inv(lockKey, s) && Enabled(lockKey, s, a)
    ensures Inv(lockKey, Apply(lockKey, s, a))
  {
    match a
    case Start(w, prior) => PhaseStep(lockKey, s, w, Waiting(prior));
    case Acquire(w) => AcquireStep(lockKey, s, w);
    case ReadOld(w, now) => ReadOldStep(lockKey, s, w, now);
    case ReadSuccessor(w, now) => ReadSuccessorStep(lockKey, s, w, now);
    case Evict(w) => EvictStep(lockKey, s, w);
    case CreateNew(w, minted, expires) => CreateStep(lockKey, s, w, minted, expires);
    case MarkOld(w, now) => MarkStep(lockKey, s, w, now);
    case Commit(w) => CommitStep(lockKey, s, w);
    case Rollback(w) => PhaseStep(lockKey, s, w, Idle);
    case Login(token, expires) => LoginStep(lockKey, s, token, expires);
    case Delete(token) => DeleteStep(lockKey, s, token);
    case SetExpiry(token, expires) => SetExpiryStep(lockKey, s, token, expires);
  }

  lemma {:induction false} InvRun(lockKey: Token -> int, states: seq<State>, acts: seq<Action>, i: nat)
    requires IsRun(lockKey, states, acts) && i < |states|
    ensures Inv(lockKey, states[i])
  {
    if i > 0 {
      InvRun(lockKey, states, acts, i - 1);
      InvStep(lockKey, states[i - 1], acts[i - 1]);
    }
  }

  // ---------------------------------------------------------------- the theorems

  /** At any time, at most one session produced by rotating a given token exists. */
  lemma OneProductPerToken(lockKey: Token -> int, states: seq<State>, acts: seq<Action>, i: nat,
                           prior: Token, x: Token, y: Token)
    requires IsRun(lockKey, states, acts) && i < |states|
    requires ProducedBy(states[i].table, x, prior) && ProducedBy(states[i].table, y, prior)
    ensures x == y
  {
    InvRun(lockKey, states, acts, i);
  }

  /** A rotation that answers differently from the one before it leaves nothing of the earlier answer. */
  lemma RotationsAgree(lockKey: Token -> int, states: seq<State>, acts: seq<Action>, i: nat)
    requires IsRun(lockKey, states, acts) && i < |acts| && acts[i].Commit?
    requires states[i].callers[acts[i].w].prior in states[i].answered
    ensures var p, s, s' := states[i].callers[acts[i].w], states[i], states[i + 1];
            p.answer == s.answered[p.prior] || s.answered[p.prior] !in s'.table
  {
    InvRun(lockKey, states, acts, i);
    InvRun(lockKey, states, acts, i + 1);
    var p, s, s' := states[i].callers[acts[i].w], states[i], states[i + 1];
    var earlier := s.answered[p.prior];
    assert PhaseOk(s.table, p);
    CommittedProducts(s.table, p, earlier, p.prior);
    if p.answer != earlier && earlier in s'.table && earlier in s.table {
      assert ProducedBy(s.table, earlier, p.prior);
    }
  }

  /**
   A rotation that finds its token still there, and the previous answer still alive, goes on
   to return that answer: it reads it as the successor, and keeps it.
   */
  lemma LiveAnswerIsKept(lockKey: Token -> int, states: seq<State>, acts: seq<Action>, i: nat)
    requires IsRun(lockKey, states, acts) && i < |acts|
    requires acts[i].ReadOld? || acts[i].ReadSuccessor?
    requires var s, prior := states[i], states[i].callers[acts[i].w].prior;
             prior in s.answered && Live(s.table, s.answered[prior], acts[i].now)
             && (acts[i].ReadOld? ==> Live(s.table, prior, acts[i].now))
    ensures var s, w := states[i], acts[i].w;
            var prior := s.callers[w].prior;
            states[i + 1].callers[w] ==
              if acts[i].ReadOld? then Successor(prior, s.answered[prior])
              else Finished(prior, None, None, None, s.answered[prior])
  {
    InvRun(lockKey, states, acts, i);
    var s, w := states[i], acts[i].w;
    var prior := s.callers[w].prior;
    assert ProducedBy(s.table, s.answered[prior], prior);
    assert PhaseOk(s.table, s.callers[w]);
  }

  // ---------------------------------------------------------------- what a rotation leaves

  /** Step k is caller w's latest in front of state i. */
  ghost predicate LatestOf(acts: seq<Action>, k: nat, i: nat, w: nat)
    requires i <= |acts|
  {
    && k < i && ByCaller(acts[k]) && acts[k].w == w
    && forall j :: k < j < i && ByCaller(acts[j]) ==> acts[j].w != w
  }

  /** Caller w has created x at step j, and then marked its token at step k. */
  ghost predicate Rotating(acts: seq<Action>, j: nat, k: nat, i: nat, w: nat, x: Token)
    requires i <= |acts|
  {
    && LatestOf(acts, k, i, w) && acts[k].MarkOld?
    && LatestOf(acts, j, k, w) && acts[j].CreateNew? && acts[j].minted == x
  }

  lemma {:induction false} CreatedHistory(lockKey: Token -> int, states: seq<State>, acts: seq<Action>, i: nat, w: nat)
    returns (j: nat)
    requires IsRun(lockKey, states, acts) && i < |states| && w < |states[i].callers|
    requires states[i].callers[w].MarkDue?
    ensures LatestOf(acts, j, i, w)
    ensures acts[j] == CreateNew(w, states[i].callers[w].minted, states[i].callers[w].expires)
  {
    if ByCaller(acts[i - 1]) && acts[i - 1].w == w {
      JustCreated(lockKey, states[i - 1], acts[i - 1], w);
      j := i - 1;
    } else {
      OthersStep(lockKey, states[i - 1], acts[i - 1], w);
      j := CreatedHistory(lockKey, states, acts, i - 1, w);
      LatestLater(acts, j, i - 1, w);
    }
  }

  lemma {:induction false} FinishedHistory(lockKey: Token -> int, states: seq<State>, acts: seq<Action>, i: nat, w: nat)
    returns (j: nat, k: nat)
    requires IsRun(lockKey, states, acts) && i < |states| && w < |states[i].callers|
    requires states[i].callers[w].Finished? && states[i].callers[w].created.Some?
    ensures Rotating(acts, j, k, i, w, states[i].callers[w].created.value.0)
    ensures states[i].callers[w].created.value.1 == acts[j].expires
    ensures states[i].callers[w].mark.Some? ==> states[i].callers[w].mark.value == acts[k].now + ROTATION_GRACE_S
  {
    var a := acts[i - 1];
    if ByCaller(a) && a.w == w {
      JustMarked(lockKey, states[i - 1], a, w);
      k := i - 1;
      j := CreatedHistory(lockKey, states, acts, i - 1, w);
    } else {
      OthersStep(lockKey, states[i - 1], a, w);
      j, k := FinishedHistory(lockKey, states, acts, i - 1, w);
      LatestLater(acts, k, i - 1, w);
    }
  }

  lemma LatestLater(acts: seq<Action>, k: nat, i: nat, w: nat)
    requires i < |acts| && LatestOf(acts, k, i, w) && !(ByCaller(acts[i]) && acts[i].w == w)
    ensures LatestOf(acts, k, i + 1, w)
  {
  }

  lemma OthersStep(lockKey: Token -> int, s: State, a: Action, w: nat)
    requires Enabled(lockKey, s, a) && w < |s.callers| && !(ByCaller(a) && a.w == w)
    ensures w < |Apply(lockKey, s, a).callers| && Apply(lockKey, s, a).callers[w] == s.callers[w]
  {
  }

  lemma JustCreated(lockKey: Token -> int, s: State, a: Action, w: nat)
    requires Enabled(lockKey, s, a) && ByCaller(a) && a.w == w && Apply(lockKey, s, a).callers[w].MarkDue?
    ensures var p := Apply(lockKey, s, a).callers[w]; a == CreateNew(w, p.minted, p.expires)
  {
  }

  /** Only marking its token finishes a rotation that has created a session. */
  lemma JustMarked(lockKey: Token -> int, s: State, a: Action, w: nat)
    requires Enabled(lockKey, s, a) && ByCaller(a) && a.w == w
    requires Apply(lockKey, s, a).callers[w].Finished? && Apply(lockKey, s, a).callers[w].created.Some?
    ensures a.MarkOld? && s.callers[w].MarkDue?
    ensures Apply(lockKey, s, a).callers[w] == AfterMark(s.table, s.callers[w], a.now)
  {
  }

  /**
   A committed rotation that created a session leaves the new one with the expiry it was created
   with, and the rotated token, if it is still there, pointing at it and ending with the grace
   period from the moment it was marked.  An evicted successor is gone, every other row stays.
   */
  lemma CommitLeaves(lockKey: Token -> int, states: seq<State>, acts: seq<Action>, i: nat) returns (j: nat, k: nat)
    requires IsRun(lockKey, states, acts) && i < |acts| && acts[i].Commit?
    requires states[i].callers[acts[i].w].created.Some?
    ensures var p, t, t' := states[i].callers[acts[i].w], states[i].table, states[i + 1].table;
            && Rotating(acts, j, k, i, acts[i].w, p.answer)
            && p.answer in t' && t'[p.answer] == Row(acts[j].expires, None, Some(p.prior))
            && (p.prior in t' ==> t'[p.prior].rotatedTo == Some(p.answer)
                                  && t'[p.prior].expiresAt == acts[k].now + ROTATION_GRACE_S)
            && forall x :: x != p.answer && x != p.prior ==>
                 (x in t' <==> x in t && p.evicted != Some(x)) && (x in t' ==> t'[x] == t[x])
  {
    InvRun(lockKey, states, acts, i);
    var p := states[i].callers[acts[i].w];
    assert PhaseOk(states[i].table, p);
    assert Unknown(states[i], p.answer, acts[i].w);
    j, k := FinishedHistory(lockKey, states, acts, i, acts[i].w);
  }

  /** One that returns the earlier answer changes no row. */
  lemma CommitKeeps(lockKey: Token -> int, states: seq<State>, acts: seq<Action>, i: nat)
    requires IsRun(lockKey, states, acts) && i < |acts| && acts[i].Commit?
    requires states[i].callers[acts[i].w].created.None?
    ensures states[i + 1].table == states[i].table
  {
    InvRun(lockKey, states, acts, i);
    assert PhaseOk(states[i].table, states[i].callers[acts[i].w]);
  }
}
