/** The hint blackboard of backend/agent_hints.py: one slot and one resume event per agent, and a limiter. */
module HintBoard {
  import opened Wrappers

  // The three dictionaries are fields updated in place; what each call does to them is given by
  // functions on their values.

  datatype Hint = Hint(agentId: string, text: string, author: string, channel: string, ts: real)

  /** The values of _blackboard, _rate_window and _resume_events (a set event is true). */
  datatype Board = Board(slots: map<string, Hint>, windows: map<string, seq<real>>, events: map<string, bool>)

  const NO_HINTS := Board(map[], map[], map[])

  /** One call of inject: the hint's text is already sanitised, now is the limiter's clock. */
  datatype Injection = Injection(hint: Hint, rate: int, window: real, now: real)

  datatype Outcome = AgentIdRequired | TextEmpty | RateLimited | Injected

  function Hits(b: Board, agent: string): seq<real> {
    if agent in b.windows then b.windows[agent] else []
  }

  /** The hits left once those older than cutoff are dropped from the front. */
  function Kept(hits: seq<real>, cutoff: real): seq<real> {
    if hits != [] && hits[0] < cutoff then Kept(hits[1..], cutoff) else hits
  }

  function OutcomeOf(b: Board, i: Injection): Outcome {
    if i.hint.agentId == "" then AgentIdRequired
    else if i.hint.text == "" then TextEmpty
    else if |Kept(Hits(b, i.hint.agentId), i.now - i.window)| >= i.rate then RateLimited
    else Injected
  }

  function AfterCheck(b: Board, agent: string, rate: int, window: real, now: real): Board {
    var kept := Kept(Hits(b, agent), now - window);
    b.(windows := b.windows[agent := if |kept| >= rate then kept else kept + [now]])
  }

  function AfterInject(b: Board, i: Injection): Board {
    var a := i.hint.agentId;
    var o := OutcomeOf(b, i);
    if o.AgentIdRequired? || o.TextEmpty? then b
    else
      var checked := AfterCheck(b, a, i.rate, i.window, i.now);
      if o.RateLimited? then checked
      else checked.(slots := checked.slots[a := i.hint], events := checked.events[a := true])
  }

  function AfterConsume(b: Board, agent: string): Board {
    b.(slots := b.slots - {agent}, events := if agent in b.events then b.events[agent := false] else b.events)
  }

  function AfterResume(b: Board, agent: string): Board {
    if agent in b.events then b else b.(events := b.events[agent := false])
  }

  class Hints {
    var blackboard: map<string, Hint>
    var rateWindow: map<string, seq<real>>
    var resumeEvents: map<string, bool>

    function Contents(): Board
      reads this
    {
      Board(blackboard, rateWindow, resumeEvents)
    }

    constructor ()
      ensures Contents() == NO_HINTS
    {
      blackboard, rateWindow, resumeEvents := map[], map[], map[];
    }

    /** False stands for HintRateLimitError. */
    method CheckRate(agent: string, rate: int, window: real, now: real) returns (ok: bool)
      modifies this
      ensures ok == (|Kept(Hits(old(Contents()), agent), now - window)| < rate)
      ensures Contents() == AfterCheck(old(Contents()), agent, rate, window, now)
      ensures blackboard == old(blackboard) && resumeEvents == old(resumeEvents)
    {
      var cutoff := now - window;
      var hits := if agent in rateWindow then rateWindow[agent] else [];
      while hits != [] && hits[0] < cutoff
        invariant Kept(hits, cutoff) == Kept(Hits(old(Contents()), agent), cutoff)
        decreases |hits|
      {
        hits := hits[1..];
      }
      rateWindow := rateWindow[agent := hits];
      if |hits| >= rate {
        return false;
      }
      rateWindow := rateWindow[agent := hits + [now]];
      return true;
    }

    method Inject(hint: Hint, rate: int, window: real, now: real) returns (o: Outcome)
      modifies this
      ensures o == OutcomeOf(old(Contents()), Injection(hint, rate, window, now))
      ensures Contents() == AfterInject(old(Contents()), Injection(hint, rate, window, now))
      ensures o == AgentIdRequired <==> hint.agentId == ""
      ensures o == TextEmpty <==> hint.agentId != "" && hint.text == ""
      ensures o == AgentIdRequired || o == TextEmpty ==> rateWindow == old(rateWindow)
      ensures o == Injected ==> blackboard == old(blackboard)[hint.agentId := hint]
                                && resumeEvents == old(resumeEvents)[hint.agentId := true]
      ensures o != Injected ==> blackboard == old(blackboard) && resumeEvents == old(resumeEvents)
    {
      if hint.agentId == "" {
        return AgentIdRequired;
      }
      if hint.text == "" {
        return TextEmpty;
      }
      var ok := CheckRate(hint.agentId, rate, window, now);
      if !ok {
        return RateLimited;
      }
      blackboard := blackboard[hint.agentId := hint];
      GetResumeEvent(hint.agentId);
      resumeEvents := resumeEvents[hint.agentId := true];
      return Injected;
    }

    method GetResumeEvent(agent: string)
      modifies this`resumeEvents
      ensures Contents() == AfterResume(old(Contents()), agent)
      ensures agent in resumeEvents && resumeEvents[agent] == (agent in old(resumeEvents) && old(resumeEvents)[agent])
    {
      if agent !in resumeEvents {
        resumeEvents := resumeEvents[agent := false];
      }
    }

    method Consume(agent: string) returns (hint: Option<Hint>)
      modifies this
      ensures hint == if agent in old(blackboard) then Some(old(blackboard)[agent]) else None
      ensures Contents() == AfterConsume(old(Contents()), agent)
      ensures agent !in blackboard && rateWindow == old(rateWindow)
      ensures forall a :: a != agent ==> (a in blackboard <==> a in old(blackboard))
      ensures forall a :: a in blackboard ==> blackboard[a] == old(blackboard)[a]
      ensures resumeEvents.Keys == old(resumeEvents).Keys
      ensures forall a :: a in resumeEvents ==> resumeEvents[a] == (a != agent && old(resumeEvents)[a])
    {
      hint := if agent in blackboard then Some(blackboard[agent]) else None;
      blackboard := blackboard - {agent};
      if agent in resumeEvents {
        resumeEvents := resumeEvents[agent := false];
      }
    }
  }

  // ---------------------------------------------------------------- whole runs

  datatype Call = Inject(injection: Injection) | Consume(agent: string) | Resume(agent: string)

  function Step(b: Board, c: Call): Board {
    match c
    case Inject(i) => AfterInject(b, i)
    case Consume(a) => AfterConsume(b, a)
    case Resume(a) => AfterResume(b, a)
  }

  /** The board after the calls, each run to its end before the next. */
  function After(cs: seq<Call>): Board {
    if cs == [] then NO_HINTS else Step(After(cs[..|cs| - 1]), cs[|cs| - 1])
  }

  predicate IsSet(b: Board, agent: string) {
    agent in b.events && b.events[agent]
  }

  /** On one event loop the resume event is set exactly while a hint is pending. */
  lemma {:induction false} EventIffPending(cs: seq<Call>, agent: string)
    ensures IsSet(After(cs), agent) <==> agent in After(cs).slots
  {
    if cs != [] {
      EventIffPending(cs[..|cs| - 1], agent);
    }
  }

  /** The pending hint is the newest one injected since the last consume. */
  ghost function Newest(cs: seq<Call>, agent: string): Option<Hint> {
    if cs == [] then None
    else
      var before, c := cs[..|cs| - 1], cs[|cs| - 1];
      match c
      case Inject(i) =>
        if i.hint.agentId == agent && OutcomeOf(After(before), i).Injected? then Some(i.hint) else Newest(before, agent)
      case Consume(a) => if a == agent then None else Newest(before, agent)
      case Resume(_) => Newest(before, agent)
  }

  lemma {:induction false} SlotIsNewest(cs: seq<Call>, agent: string)
    ensures Newest(cs, agent) == if agent in After(cs).slots then Some(After(cs).slots[agent]) else None
  {
    if cs != [] {
      SlotIsNewest(cs[..|cs| - 1], agent);
    }
  }

  // ---------------------------------------------------------------- the rate bound

  /** When the calls accepted for one agent were made. */
  ghost function Accepted(cs: seq<Call>, agent: string): seq<real> {
    if cs == [] then []
    else
      var before, c := cs[..|cs| - 1], cs[|cs| - 1];
      if c.Inject? && c.injection.hint.agentId == agent && OutcomeOf(After(before), c.injection).Injected?
      then Accepted(before, agent) + [c.injection.now]
      else Accepted(before, agent)
  }

  /** How many entries lie in the closed interval. */
  function CountIn(log: seq<real>, lo: real, hi: real): nat {
    if log == [] then 0
    else CountIn(log[..|log| - 1], lo, hi) + (if lo <= log[|log| - 1] <= hi then 1 else 0)
  }

  predicate ReachesLimiter(c: Call, agent: string) {
    c.Inject? && c.injection.hint.agentId == agent && agent != "" && c.injection.hint.text != ""
  }

  /** One rate and one window for the agent, and clock readings that never go back, up to now. */
  ghost predicate Steady(cs: seq<Call>, agent: string, rate: int, window: real, now: real) {
    cs != [] ==>
      var before, c := cs[..|cs| - 1], cs[|cs| - 1];
      if ReachesLimiter(c, agent)
      then c.injection.rate == rate && c.injection.window == window && c.injection.now <= now
           && Steady(before, agent, rate, window, c.injection.now)
      else Steady(before, agent, rate, window, now)
  }

  /** The stored window is what is left of the log after dropping entries older than cutoff. */
  predicate Follows(hits: seq<real>, log: seq<real>, cutoff: real) {
    && |hits| <= |log|
    && log[|log| - |hits|..] == hits
    && forall i :: 0 <= i < |log| - |hits| ==> log[i] < cutoff
  }

  predicate Ordered(log: seq<real>, now: real) {
    && (forall i, j :: 0 <= i < j < |log| ==> log[i] <= log[j])
    && (forall i :: 0 <= i < |log| ==> log[i] <= now)
  }

  lemma {:induction false} KeptFollows(hits: seq<real>, log: seq<real>, cutoff: real)
    requires Follows(hits, log, cutoff)
    ensures Follows(Kept(hits, cutoff), log, cutoff)
    ensures Kept(hits, cutoff) != [] ==> Kept(hits, cutoff)[0] >= cutoff
    decreases |hits|
  {
    if hits != [] && hits[0] < cutoff {
      KeptFollows(hits[1..], log, cutoff);
    }
  }

  lemma {:induction false} CountBelow(log: seq<real>, lo: real, hi: real)
    requires forall i :: 0 <= i < |log| ==> log[i] < lo
    ensures CountIn(log, lo, hi) == 0
  {
    if log != [] {
      CountBelow(log[..|log| - 1], lo, hi);
    }
  }

  lemma {:induction false} CountKept(log: seq<real>, gone: nat, lo: real, hi: real)
    requires gone <= |log| && Ordered(log, hi)
    requires forall i :: 0 <= i < gone ==> log[i] < lo
    requires gone < |log| ==> log[gone] >= lo
    ensures CountIn(log, lo, hi) == |log| - gone
  {
    if |log| == gone {
      CountBelow(log, lo, hi);
    } else {
      CountKept(log[..|log| - 1], gone, lo, hi);
    }
  }

  /** The length the limiter tests is the number of accepted calls in the last window. */
  lemma LengthIsCount(hits: seq<real>, log: seq<real>, cutoff: real, now: real)
    requires Follows(hits, log, cutoff) && Ordered(log, now)
    ensures |Kept(hits, cutoff)| == CountIn(log, cutoff, now)
  {
    KeptFollows(hits, log, cutoff);
    CountKept(log, |log| - |Kept(hits, cutoff)|, cutoff, now);
  }

  lemma FollowsAfter(hits: seq<real>, log: seq<real>, window: real, now: real)
    requires Ordered(log, now) && Follows(hits, log, now - window)
    ensures var kept := Kept(hits, now - window);
            && Follows(kept, log, now - window)
            && Follows(kept + [now], log + [now], now - window)
            && Ordered(log + [now], now)
  {
    KeptFollows(hits, log, now - window);
    AppendFollows(Kept(hits, now - window), log, now - window, now);
  }

  lemma AppendFollows(kept: seq<real>, log: seq<real>, cutoff: real, now: real)
    requires Follows(kept, log, cutoff)
    ensures Follows(kept + [now], log + [now], cutoff)
  {
    var gone := |log| - |kept|;
    assert (log + [now])[gone..] == log[gone..] + [now];
  }

  lemma FollowsLater(hits: seq<real>, log: seq<real>, window: real, before: real, now: real)
    requires before <= now && Ordered(log, before) && Follows(hits, log, before - window)
    ensures Ordered(log, now) && Follows(hits, log, now - window)
  {
  }

  /** The injection's effect on the agent's own window, and nobody else's. */
  lemma HitsAfter(b: Board, i: Injection, agent: string)
    ensures var kept := Kept(Hits(b, agent), i.now - i.window);
            var o := OutcomeOf(b, i);
            Hits(AfterInject(b, i), agent) ==
              if i.hint.agentId != agent || o.AgentIdRequired? || o.TextEmpty? then Hits(b, agent)
              else if o.Injected? then kept + [i.now] else kept
  {
  }

  /** What every steady run keeps, for a cutoff no later than the clock allows. */
  lemma {:induction false} LogInv(cs: seq<Call>, agent: string, rate: int, window: real, now: real)
    requires Steady(cs, agent, rate, window, now)
    ensures Ordered(Accepted(cs, agent), now)
    ensures Follows(Hits(After(cs), agent), Accepted(cs, agent), now - window)
  {
    if cs != [] {
      var before, c := cs[..|cs| - 1], cs[|cs| - 1];
      var hits, log := Hits(After(before), agent), Accepted(before, agent);
      assert After(cs) == Step(After(before), c);
      if c.Inject? {
        HitsAfter(After(before), c.injection, agent);
      }
      if ReachesLimiter(c, agent) {
        var i := c.injection;
        LogInv(before, agent, rate, window, i.now);
        FollowsAfter(hits, log, window, i.now);
        FollowsLater(Hits(After(cs), agent), Accepted(cs, agent), window, i.now, now);
      } else {
        LogInv(before, agent, rate, window, now);
      }
    }
  }

  lemma OutcomeByCount(b: Board, i: Injection, log: seq<real>)
    requires i.hint.agentId != "" && i.hint.text != ""
    requires Ordered(log, i.now) && Follows(Hits(b, i.hint.agentId), log, i.now - i.window)
    ensures OutcomeOf(b, i) == if CountIn(log, i.now - i.window, i.now) < i.rate then Injected else RateLimited
  {
    LengthIsCount(Hits(b, i.hint.agentId), log, i.now - i.window, i.now);
  }

  /** A call is turned away exactly when the last window already holds rate accepted ones. */
  lemma AcceptedIff(cs: seq<Call>, i: Injection)
    requires i.hint.agentId != "" && i.hint.text != ""
    requires Steady(cs, i.hint.agentId, i.rate, i.window, i.now)
    ensures OutcomeOf(After(cs), i) ==
            if CountIn(Accepted(cs, i.hint.agentId), i.now - i.window, i.now) < i.rate then Injected else RateLimited
  {
    LogInv(cs, i.hint.agentId, i.rate, i.window, i.now);
    OutcomeByCount(After(cs), i, Accepted(cs, i.hint.agentId));
  }

  // ---------------------------------------------------------------- readings out of order

  // The clock is read before the lock is taken, so readings can arrive out of order.

  /** One rate and one window for the agent. */
  ghost predicate Fixed(cs: seq<Call>, agent: string, rate: int, window: real) {
    forall c :: c in cs && ReachesLimiter(c, agent) ==> c.injection.rate == rate && c.injection.window == window
  }

  /** The largest reading so far. */
  function Latest(cs: seq<Call>, agent: string): Option<real> {
    if cs == [] then None
    else
      var before, c := Latest(cs[..|cs| - 1], agent), cs[|cs| - 1];
      if !ReachesLimiter(c, agent) then before
      else if before.Some? && before.value > c.injection.now then before
      else Some(c.injection.now)
  }

  /** No reading is more than late behind an earlier one. */
  ghost predicate AtMostLate(cs: seq<Call>, agent: string, late: real) {
    cs != [] ==>
      var before, c := cs[..|cs| - 1], cs[|cs| - 1];
      && AtMostLate(before, agent, late)
      && (ReachesLimiter(c, agent) && Latest(before, agent).Some? ==>
          c.injection.now >= Latest(before, agent).value - late)
  }

  ghost predicate Trails(hits: seq<real>, log: seq<real>, top: Option<real>, window: real) {
    if top.None? then hits == [] && log == [] else Follows(hits, log, top.value - window)
  }

  lemma {:induction false} KeptStillFollows(hits: seq<real>, log: seq<real>, cutoff: real, bound: real)
    requires Follows(hits, log, bound) && cutoff <= bound
    ensures Follows(Kept(hits, cutoff), log, bound)
    decreases |hits|
  {
    if hits != [] && hits[0] < cutoff {
      KeptStillFollows(hits[1..], log, cutoff, bound);
    }
  }

  lemma TrailsAfter(hits: seq<real>, log: seq<real>, top: Option<real>, window: real, now: real)
    requires Trails(hits, log, top, window)
    ensures var next := if top.Some? && top.value > now then top.value else now;
            var kept := Kept(hits, now - window);
            Follows(kept, log, next - window) && Follows(kept + [now], log + [now], next - window)
  {
    var next := if top.Some? && top.value > now then top.value else now;
    KeptStillFollows(hits, log, now - window, next - window);
    AppendFollows(Kept(hits, now - window), log, next - window, now);
  }

  /** What is dropped is older than the window of the largest reading, in any order of readings. */
  lemma {:induction false} LogTrails(cs: seq<Call>, agent: string, rate: int, window: real)
    requires Fixed(cs, agent, rate, window)
    ensures Trails(Hits(After(cs), agent), Accepted(cs, agent), Latest(cs, agent), window)
  {
    if cs != [] {
      var before, c := cs[..|cs| - 1], cs[|cs| - 1];
      LogTrails(before, agent, rate, window);
      assert After(cs) == Step(After(before), c);
      if c.Inject? {
        HitsAfter(After(before), c.injection, agent);
      }
      if ReachesLimiter(c, agent) {
        TrailsAfter(Hits(After(before), agent), Accepted(before, agent),
                    Latest(before, agent), window, c.injection.now);
      }
    }
  }

  lemma {:induction false} CountAtMost(log: seq<real>, gone: nat, lo: real, hi: real)
    requires gone <= |log| && forall i :: 0 <= i < gone ==> log[i] < lo
    ensures CountIn(log, lo, hi) <= |log| - gone
  {
    if |log| == gone {
      CountBelow(log, lo, hi);
    } else {
      CountAtMost(log[..|log| - 1], gone, lo, hi);
    }
  }

  lemma CountSnoc(log: seq<real>, x: real, lo: real, hi: real)
    ensures CountIn(log + [x], lo, hi) == CountIn(log, lo, hi) + (if lo <= x <= hi then 1 else 0)
  {
    assert (log + [x])[..|log|] == log;
  }

  /** The entries of a window that ends late before the cutoff's are all among the hits that were tested. */
  lemma WindowAmongKept(hits: seq<real>, log: seq<real>, top: Option<real>, window: real, late: real,
                          now: real, t: real)
    requires Trails(hits, log, top, window) && late >= 0.0 && (top.Some? ==> now >= top.value - late)
    requires t <= now <= t + window - late
    ensures CountIn(log, t, t + window - late) <= |Kept(hits, now - window)|
  {
    TrailsAfter(hits, log, top, window, now);
    CountAtMost(log, |log| - |Kept(hits, now - window)|, t, t + window - late);
  }

  /**
   With readings at most late behind, every closed window of length window - late holds at most
   rate accepted hints.
   */
  lemma {:induction false} RateBound(cs: seq<Call>, agent: string, rate: int, window: real, late: real, t: real)
    requires Fixed(cs, agent, rate, window) && AtMostLate(cs, agent, late) && late >= 0.0
    ensures CountIn(Accepted(cs, agent), t, t + window - late) <= if rate > 0 then rate else 0
  {
    if cs != [] {
      var before, c := cs[..|cs| - 1], cs[|cs| - 1];
      assert c in cs;
      RateBound(before, agent, rate, window, late, t);
      if ReachesLimiter(c, agent) && OutcomeOf(After(before), c.injection).Injected? {
        var now := c.injection.now;
        CountSnoc(Accepted(before, agent), now, t, t + window - late);
        LogTrails(before, agent, rate, window);
        if t <= now <= t + window - late {
          WindowAmongKept(Hits(After(before), agent), Accepted(before, agent), Latest(before, agent),
                            window, late, now, t);
        }
      }
    }
  }

  /** With rate 1 the one stored hit is the last accepted one, which is also the largest. */
  ghost predicate OneHit(hits: seq<real>, log: seq<real>, window: real, t: real) {
    && hits == (if log == [] then [] else [log[|log| - 1]])
    && (forall i :: 0 <= i < |log| ==> log[i] <= log[|log| - 1])
    && CountIn(log, t, t + window) <= 1
  }

  lemma OneHitAfter(hits: seq<real>, log: seq<real>, window: real, now: real, t: real)
    requires OneHit(hits, log, window, t) && window >= 0.0
    ensures var kept := Kept(hits, now - window);
            if |kept| >= 1 then kept == hits else OneHit(kept + [now], log + [now], window, t)
  {
    CountSnoc(log, now, t, t + window);
    if log != [] {
      assert [log[|log| - 1]][1..] == [];
      if log[|log| - 1] < now - window && t <= now <= t + window {
        CountBelow(log, t, t + window);
      }
    }
  }

  /** So with rate 1 every closed window holds at most one accepted hint, in any order of readings. */
  lemma {:induction false} RateOneBound(cs: seq<Call>, agent: string, window: real, t: real)
    requires Fixed(cs, agent, 1, window) && window >= 0.0
    ensures OneHit(Hits(After(cs), agent), Accepted(cs, agent), window, t)
    ensures CountIn(Accepted(cs, agent), t, t + window) <= 1
  {
    if cs != [] {
      var before, c := cs[..|cs| - 1], cs[|cs| - 1];
      assert c in cs;
      RateOneBound(before, agent, window, t);
      assert After(cs) == Step(After(before), c);
      if c.Inject? {
        HitsAfter(After(before), c.injection, agent);
      }
      if ReachesLimiter(c, agent) {
        OneHitAfter(Hits(After(before), agent), Accepted(before, agent), window, c.injection.now, t);
      }
    }
  }

  // ---------------------------------------------------------------- no longer window

  function At(h: Hint, rate: int, window: real, now: real): Call {
    Inject(Injection(h, rate, window, now))
  }

  /** n calls that read the clock at 0. */
  function AtZero(h: Hint, rate: int, window: real, n: nat): seq<Call> {
    if n == 0 then [] else AtZero(h, rate, window, n - 1) + [At(h, rate, window, 0.0)]
  }

  function Zeros(n: nat): (z: seq<real>)
    ensures |z| == n && forall i :: 0 <= i < n ==> z[i] == 0.0
  {
    if n == 0 then [] else Zeros(n - 1) + [0.0]
  }

  lemma {:induction false} KeptZeros(z: seq<real>, cutoff: real)
    requires forall i :: 0 <= i < |z| ==> z[i] == 0.0
    ensures Kept(z, cutoff) == if cutoff > 0.0 then [] else z
  {
    if z != [] && cutoff > 0.0 {
      KeptZeros(z[1..], cutoff);
    }
  }

  lemma {:induction false} CountZeros(n: nat, hi: real)
    requires hi >= 0.0
    ensures CountIn(Zeros(n), 0.0, hi) == n
  {
    if n > 0 {
      CountZeros(n - 1, hi);
      CountSnoc(Zeros(n - 1), 0.0, 0.0, hi);
    }
  }

  /** One more accepted call, when the hits that survive leave room. */
  lemma Accept(cs: seq<Call>, i: Injection, kept: seq<real>)
    requires ReachesLimiter(Inject(i), i.hint.agentId)
    requires Kept(Hits(After(cs), i.hint.agentId), i.now - i.window) == kept && |kept| < i.rate
    ensures var a, r := i.hint.agentId, cs + [Inject(i)];
            && Hits(After(r), a) == kept + [i.now]
            && Accepted(r, a) == Accepted(cs, a) + [i.now]
            && Latest(r, a)
               == (if Latest(cs, a).Some? && Latest(cs, a).value > i.now then Latest(cs, a) else Some(i.now))
  {
    var r := cs + [Inject(i)];
    assert r[..|cs|] == cs;
    HitsAfter(After(cs), i, i.hint.agentId);
  }

  lemma LateSnoc(cs: seq<Call>, i: Injection, late: real)
    requires ReachesLimiter(Inject(i), i.hint.agentId) && Fixed(cs, i.hint.agentId, i.rate, i.window)
    requires AtMostLate(cs, i.hint.agentId, late)
    requires Latest(cs, i.hint.agentId).Some? ==> i.now >= Latest(cs, i.hint.agentId).value - late
    ensures Fixed(cs + [Inject(i)], i.hint.agentId, i.rate, i.window)
            && AtMostLate(cs + [Inject(i)], i.hint.agentId, late)
  {
    assert (cs + [Inject(i)])[..|cs|] == cs;
  }

  lemma {:induction false} AtZeroAccepted(h: Hint, rate: int, window: real, late: real, n: nat)
    requires h.agentId != "" && h.text != "" && n <= rate && window >= 0.0 && late >= 0.0
    ensures var cs, a := AtZero(h, rate, window, n), h.agentId;
            && Hits(After(cs), a) == Zeros(n) && Accepted(cs, a) == Zeros(n)
            && Latest(cs, a) == (if n == 0 then None else Some(0.0))
            && Fixed(cs, a, rate, window) && AtMostLate(cs, a, late)
  {
    if n > 0 {
      var before, i := AtZero(h, rate, window, n - 1), Injection(h, rate, window, 0.0);
      AtZeroAccepted(h, rate, window, late, n - 1);
      KeptZeros(Zeros(n - 1), 0.0 - window);
      Accept(before, i, Zeros(n - 1));
      LateSnoc(before, i, late);
    }
  }

  /** rate readings of 0, one of len + late, and one that comes late by late. */
  function LateRun(h: Hint, rate: nat, window: real, late: real, len: real): seq<Call> {
    AtZero(h, rate, window, rate) + [At(h, rate, window, len + late)] + [At(h, rate, window, len)]
  }

  /** The reading in between drops hits that the late one still has to count. */
  lemma LateReadingBreaksTheBound(h: Hint, rate: nat, window: real, late: real, len: real)
    requires h.agentId != "" && h.text != "" && rate >= 2
    requires window >= 0.0 && late >= 0.0 && len >= 0.0 && len + late > window
    ensures var cs, a := LateRun(h, rate, window, late, len), h.agentId;
            Fixed(cs, a, rate, window) && AtMostLate(cs, a, late) && CountIn(Accepted(cs, a), 0.0, len) > rate
  {
    LateRunAccepted(h, rate, window, late, len);
    CountZeros(rate, len);
    CountSnoc(Zeros(rate), len + late, 0.0, len);
    CountSnoc(Zeros(rate) + [len + late], len, 0.0, len);
  }

  lemma LateRunStarts(h: Hint, rate: nat, window: real, late: real, len: real)
    requires h.agentId != "" && h.text != "" && rate >= 2
    requires window >= 0.0 && late >= 0.0 && len >= 0.0 && len + late > window
    ensures var cs, a := AtZero(h, rate, window, rate) + [At(h, rate, window, len + late)], h.agentId;
            && Hits(After(cs), a) == [len + late] && Accepted(cs, a) == Zeros(rate) + [len + late]
            && Latest(cs, a) == Some(len + late)
            && Fixed(cs, a, rate, window) && AtMostLate(cs, a, late)
  {
    var i := Injection(h, rate, window, len + late);
    AtZeroAccepted(h, rate, window, late, rate);
    KeptZeros(Zeros(rate), len + late - window);
    Accept(AtZero(h, rate, window, rate), i, []);
    LateSnoc(AtZero(h, rate, window, rate), i, late);
  }

  lemma LateRunAccepted(h: Hint, rate: nat, window: real, late: real, len: real)
    requires h.agentId != "" && h.text != "" && rate >= 2
    requires window >= 0.0 && late >= 0.0 && len >= 0.0 && len + late > window
    ensures var cs, a := LateRun(h, rate, window, late, len), h.agentId;
            && Accepted(cs, a) == Zeros(rate) + [len + late] + [len]
            && Fixed(cs, a, rate, window) && AtMostLate(cs, a, late)
  {
    var j := Injection(h, rate, window, len);
    var cs := AtZero(h, rate, window, rate) + [At(h, rate, window, len + late)];
    LateRunStarts(h, rate, window, late, len);
    assert Kept([len + late], len - window) == [len + late];
    Accept(cs, j, [len + late]);
    LateSnoc(cs, j, late);
  }

  predicate WindowHolds(log: seq<real>, t: real, len: real, rate: nat) {
    CountIn(log, t, t + len) <= rate
  }

  lemma {:induction false} CountWider(log: seq<real>, lo: real, hi: real, hi': real)
    requires hi <= hi'
    ensures CountIn(log, lo, hi) <= CountIn(log, lo, hi')
  {
    if log != [] {
      CountWider(log[..|log| - 1], lo, hi, hi');
    }
  }

  /**
   Which windows are safe when readings can be late: of every length that, with the lateness
   added, does not exceed the limiter's window, and no other, for any rate from 2 on.
   */
  lemma RateBoundIff(h: Hint, rate: nat, window: real, late: real, len: real)
    requires h.agentId != "" && h.text != "" && rate >= 2 && window >= 0.0 && late >= 0.0 && len >= 0.0
    ensures (forall cs, t :: Fixed(cs, h.agentId, rate, window) && AtMostLate(cs, h.agentId, late) ==>
               WindowHolds(Accepted(cs, h.agentId), t, len, rate))
       <==> len + late <= window
  {
    var a := h.agentId;
    if len + late <= window {
      forall cs, t | Fixed(cs, a, rate, window) && AtMostLate(cs, a, late)
          ensures WindowHolds(Accepted(cs, a), t, len, rate) {
        RateBound(cs, a, rate, window, late, t);
        CountWider(Accepted(cs, a), t, t + len, t + window - late);
      }
    } else {
      LateReadingBreaksTheBound(h, rate, window, late, len);
      assert !WindowHolds(Accepted(LateRun(h, rate, window, late, len), a), 0.0, len, rate);
    }
  }

  // ---------------------------------------------------------------- parts of a call

  // The parts of inject and consume between which another thread can run.

  function PutSlot(b: Board, hint: Hint): Board {
    b.(slots := b.slots[hint.agentId := hint])
  }

  function SetEvent(b: Board, agent: string): Board {
    b.(events := b.events[agent := true])
  }

  function PopSlot(b: Board, agent: string): Board {
    b.(slots := b.slots - {agent})
  }

  function ClearEvent(b: Board, agent: string): Board {
    if agent in b.events then b.(events := b.events[agent := false]) else b
  }

  /** inject writes the slot under the lock, gets or makes the event under it again, and sets it outside. */
  lemma SplitInject(b: Board, i: Injection)
    requires OutcomeOf(b, i).Injected?
    ensures var a := i.hint.agentId;
            AfterInject(b, i) == SetEvent(AfterResume(PutSlot(AfterCheck(b, a, i.rate, i.window, i.now), i.hint), a), a)
  {
    var a, checked := i.hint.agentId, AfterCheck(b, i.hint.agentId, i.rate, i.window, i.now);
    assert AfterResume(PutSlot(checked, i.hint), a).events[a := true] == checked.events[a := true];
  }

  /** consume pops the slot under the lock but clears the event after releasing it. */
  lemma SplitConsume(b: Board, agent: string)
    ensures AfterConsume(b, agent) == ClearEvent(PopSlot(b, agent), agent)
  {
  }
}
