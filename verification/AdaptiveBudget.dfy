/** The AIMD controller of backend/adaptive_budget.py. */
module AdaptiveBudget {
  import opened Arithmetic
  import opened Wrappers

  // BudgetController mutates the fields of the module state as the source does; Reset, Tick and
  // Trim are the functions its methods are proved against.  Time is real-valued.

  /** The environment-tunable constants. */
  datatype Knobs = Knobs(
    initBudget: int, floor: int, capacityMax: int,
    cpuAi: real, memAi: real, cpuMd: real, memMd: real,
    aiInterval: real, mdPersistence: real)

  predicate ValidKnobs(k: Knobs) {
    0 <= k.floor <= k.capacityMax && 0.0 < k.mdPersistence <= k.aiInterval
  }

  const TRACE_WINDOW_S := 300.0

  datatype Reason = Init | Increase | Decrease | Hold | HardCap | AtFloor

  datatype Entry = Entry(timestamp: real, budget: int, reason: Reason, cpu: real, mem: real)

  datatype Sample = Sample(t: real, cpu: real, mem: real, deferred: int)

  datatype Control = Control(
    budget: int, lastAiAt: real, pressureFirstSeen: Option<real>,
    lastReason: Reason, trace: seq<Entry>, dirty: bool)

  function Clamp(k: Knobs, value: int): (r: int)
    ensures k.floor <= k.capacityMax ==> k.floor <= r <= k.capacityMax
    ensures k.floor <= value <= k.capacityMax ==> r == value
    ensures k.floor <= k.capacityMax && value < k.floor ==> r == k.floor
    ensures k.floor <= k.capacityMax && value > k.capacityMax ==> r == k.capacityMax
  {
    Max(k.floor, Min(k.capacityMax, value))
  }

  predicate Hot(k: Knobs, x: Sample) {
    x.cpu > k.cpuMd || x.mem > k.memMd
  }

  predicate Cool(k: Knobs, x: Sample) {
    x.cpu < k.cpuAi && x.mem < k.memAi
  }

  /** Entries older than the window are dropped from the front. */
  function Trim(trace: seq<Entry>, now: real): seq<Entry> {
    if trace != [] && trace[0].timestamp < now - TRACE_WINDOW_S then Trim(trace[1..], now) else trace
  }

  function Reset(k: Knobs, seed: Option<int>, t: real): Control {
    var b := Clamp(k, if seed.Some? then seed.value else k.initBudget);
    Control(b, t, None, Init, Trim([Entry(t, b, Init, 0.0, 0.0)], t), false)
  }

  /** What a tick appends to the trace, if anything. */
  function TickEntry(k: Knobs, s: Control, x: Sample): Option<Entry> {
    if Hot(k, x) then
      if s.pressureFirstSeen.Some? && x.t - s.pressureFirstSeen.value >= k.mdPersistence then
        var halved := Max(k.floor, s.budget / 2);
        if halved < s.budget then Some(Entry(x.t, halved, Decrease, x.cpu, x.mem))
        else Some(Entry(x.t, s.budget, AtFloor, x.cpu, x.mem))
      else None
    else if Cool(k, x) && x.deferred == 0 && x.t - s.lastAiAt >= k.aiInterval then
      if s.budget >= k.capacityMax then Some(Entry(x.t, s.budget, HardCap, x.cpu, x.mem))
      else Some(Entry(x.t, Min(k.capacityMax, s.budget + 1), Increase, x.cpu, x.mem))
    else None
  }

  function Tick(k: Knobs, s: Control, x: Sample): Control {
    var e := TickEntry(k, s, x);
    var pressure := if !Hot(k, x) then None
                    else if e.Some? || s.pressureFirstSeen.None? then Some(x.t)
                    else s.pressureFirstSeen;
    match e
    case None => s.(pressureFirstSeen := pressure, lastReason := Hold)
    case Some(entry) =>
      Control(entry.budget, x.t, pressure, entry.reason, Trim(s.trace + [entry], x.t),
              s.dirty || entry.reason.Decrease? || entry.reason.Increase?)
  }

  /** What makes the budget rise: one tick, by one. */
  predicate Rises(k: Knobs, budget: int, lastAiAt: real, x: Sample) {
    && x.cpu < k.cpuAi && x.mem < k.memAi && x.cpu <= k.cpuMd && x.mem <= k.memMd
    && x.deferred == 0 && x.t - lastAiAt >= k.aiInterval && budget < k.capacityMax
  }

  /** What makes it fall: pressure for long enough, and room above the floor. */
  predicate Falls(k: Knobs, budget: int, pressureSince: Option<real>, x: Sample) {
    && (x.cpu > k.cpuMd || x.mem > k.memMd)
    && pressureSince.Some? && x.t - pressureSince.value >= k.mdPersistence
    && budget / 2 < budget && k.floor < budget
  }

  /** The budget after a tick, and the reason that goes with it. */
  lemma TickMoves(k: Knobs, s: Control, x: Sample)
    requires k.floor <= s.budget <= k.capacityMax
    ensures var s' := Tick(k, s, x);
            && (s'.budget > s.budget <==> Rises(k, s.budget, s.lastAiAt, x))
            && (s'.budget > s.budget ==> s'.budget == s.budget + 1)
            && (s'.budget < s.budget <==> Falls(k, s.budget, s.pressureFirstSeen, x))
            && (s'.budget < s.budget ==> s'.budget == if s.budget / 2 > k.floor then s.budget / 2 else k.floor)
            && (s'.lastReason == Increase <==> s'.budget > s.budget)
            && (s'.lastReason == Decrease <==> s'.budget < s.budget)
            && s'.dirty == (s.dirty || s'.budget != s.budget)
  {
  }

  class BudgetController {
    const k: Knobs
    var budget: int
    var lastAiAt: real
    var pressureFirstSeen: Option<real>
    var lastReason: Reason
    var trace: seq<Entry>
    var dirty: bool

    ghost function Model(): Control
      reads this
    {
      Control(budget, lastAiAt, pressureFirstSeen, lastReason, trace, dirty)
    }

    constructor (k: Knobs, t: real)
      ensures this.k == k && Model() == Reset(k, None, t)
    {
      this.k := k;
      budget, lastAiAt, pressureFirstSeen, lastReason, trace, dirty := 0, 0.0, None, Init, [], false;
      new;
      ResetTo(None, t);
    }

    method TrimTrace(now: real)
      modifies this`trace
      ensures trace == Trim(old(trace), now)
    {
      var cutoff := now - TRACE_WINDOW_S;
      while trace != [] && trace[0].timestamp < cutoff
        invariant Trim(trace, now) == Trim(old(trace), now)
        decreases |trace|
      {
        trace := trace[1..];
      }
    }

    method AppendTrace(now: real, reason: Reason, cpu: real, mem: real)
      modifies this`trace
      ensures trace == Trim(old(trace) + [Entry(now, budget, reason, cpu, mem)], now)
    {
      trace := trace + [Entry(now, budget, reason, cpu, mem)];
      TrimTrace(now);
    }

    method ResetTo(initialBudget: Option<int>, t: real)
      modifies this
      ensures Model() == Reset(k, initialBudget, t)
      ensures budget == Clamp(k, if initialBudget.Some? then initialBudget.value else k.initBudget)
      ensures lastAiAt == t && pressureFirstSeen == None && !dirty && trace == [Entry(t, budget, Init, 0.0, 0.0)]
    {
      var seed := if initialBudget.Some? then initialBudget.value else k.initBudget;
      budget := Clamp(k, seed);
      lastAiAt := t;
      pressureFirstSeen := None;
      lastReason := Init;
      trace := [];
      dirty := false;
      AppendTrace(t, Init, 0.0, 0.0);
    }

    method TickOnce(x: Sample) returns (reason: Reason)
      modifies this
      ensures Model() == Tick(k, old(Model()), x)
      ensures reason == lastReason
      ensures k.floor <= old(budget) <= k.capacityMax ==>
                && (budget > old(budget) <==> Rises(k, old(budget), old(lastAiAt), x))
                && (budget < old(budget) <==> Falls(k, old(budget), old(pressureFirstSeen), x))
                && (reason == Increase <==> budget == old(budget) + 1)
    {
      if k.floor <= budget <= k.capacityMax {
        TickMoves(k, Model(), x);
      }
      var t := x.t;
      if Hot(k, x) {
        if pressureFirstSeen.None? {
          pressureFirstSeen, lastReason := Some(t), Hold;
          return Hold;
        }
        if t - pressureFirstSeen.value >= k.mdPersistence {
          var before := budget;
          var halved := Max(k.floor, budget / 2);
          if halved < before {
            budget, dirty, reason := halved, true, Decrease;
          } else {
            reason := AtFloor;
          }
          pressureFirstSeen, lastAiAt, lastReason := Some(t), t, reason;
          AppendTrace(t, reason, x.cpu, x.mem);
          return;
        }
        lastReason := Hold;
        return Hold;
      }
      pressureFirstSeen := None;
      if Cool(k, x) && x.deferred == 0 && t - lastAiAt >= k.aiInterval {
        lastAiAt := t;
        if budget >= k.capacityMax {
          lastReason := HardCap;
          AppendTrace(t, HardCap, x.cpu, x.mem);
          return HardCap;
        }
        budget := Min(k.capacityMax, budget + 1);
        dirty, lastReason := true, Increase;
        AppendTrace(t, Increase, x.cpu, x.mem);
        return Increase;
      }
      lastReason := Hold;
      return Hold;
    }

    /** trace() and snapshot() trim before they read. */
    method ReadTrace(now: real) returns (entries: seq<Entry>)
      modifies this`trace
      ensures Model() == old(Model()).(trace := Trim(old(trace), now)) && entries == trace
    {
      TrimTrace(now);
      entries := trace;
    }
  }

  // ---------------------------------------------------------------- the trace over any run

  datatype Event = TickAt(x: Sample) | ReadAt(t: real) | ResetAt(seed: Option<int>, t: real)

  function TimeOf(e: Event): real {
    if e.TickAt? then e.x.t else e.t
  }

  /** The controller and every entry made since the last reset. */
  datatype Traced = Traced(s: Control, history: seq<Entry>)

  function Started(k: Knobs, seed: Option<int>, t: real): Traced {
    var s := Reset(k, seed, t);
    Traced(s, [Entry(t, s.budget, Init, 0.0, 0.0)])
  }

  function Next(k: Knobs, h: Traced, e: Event): Traced {
    match e
    case ResetAt(seed, t) => Started(k, seed, t)
    case ReadAt(t) => h.(s := h.s.(trace := Trim(h.s.trace, t)))
    case TickAt(x) =>
      var entry := TickEntry(k, h.s, x);
      Traced(Tick(k, h.s, x), if entry.Some? then h.history + [entry.value] else h.history)
  }

  function After(k: Knobs, h: Traced, es: seq<Event>): Traced {
    if es == [] then h else Next(k, After(k, h, es[..|es| - 1]), es[|es| - 1])
  }

  ghost predicate Monotone(start: real, es: seq<Event>) {
    && (forall i :: 0 <= i < |es| ==> start <= TimeOf(es[i]))
    && (forall i, j :: 0 <= i < j < |es| ==> TimeOf(es[i]) <= TimeOf(es[j]))
  }

  ghost predicate Spaced(gap: real, l: seq<Entry>) {
    forall i, j :: 0 <= i && j == i + 1 && j < |l| ==> l[j].timestamp - l[i].timestamp >= gap
  }

  ghost predicate IsSuffix(a: seq<Entry>, b: seq<Entry>) {
    |a| <= |b| && a == b[|b| - |a|..]
  }

  function Last(l: seq<Entry>): Entry
    requires l != []
  {
    l[|l| - 1]
  }

  /** The full history against the live fields; now is the clock at the last event. */
  ghost predicate HistoryInv(k: Knobs, h: Traced, now: real) {
    && k.floor <= h.s.budget <= k.capacityMax
    && h.history != []
    && Last(h.history).budget == h.s.budget
    && Last(h.history).timestamp == h.s.lastAiAt <= now
    && (h.s.pressureFirstSeen.Some? ==> h.s.lastAiAt <= h.s.pressureFirstSeen.value <= now)
    && Spaced(k.mdPersistence, h.history)
  }

  ghost predicate InWindow(l: seq<Entry>) {
    l != [] ==> Last(l).timestamp - l[0].timestamp <= TRACE_WINDOW_S
  }

  /** The trimmed trace against the full history. */
  ghost predicate TrimInv(h: Traced) {
    IsSuffix(h.s.trace, h.history) && InWindow(h.s.trace)
  }

  lemma {:induction false} TrimIsSuffix(trace: seq<Entry>, now: real)
    ensures IsSuffix(Trim(trace, now), trace)
    ensures Trim(trace, now) != [] ==> Trim(trace, now)[0].timestamp >= now - TRACE_WINDOW_S
  {
    if trace != [] && trace[0].timestamp < now - TRACE_WINDOW_S {
      TrimIsSuffix(trace[1..], now);
      var r := Trim(trace[1..], now);
      assert trace[1..][|trace| - 1 - |r|..] == trace[|trace| - |r|..];
    }
  }

  lemma SuffixTrans(a: seq<Entry>, b: seq<Entry>, c: seq<Entry>)
    requires IsSuffix(a, b) && IsSuffix(b, c)
    ensures IsSuffix(a, c)
  {
    assert c[|c| - |b|..][|b| - |a|..] == c[|c| - |a|..];
  }

  lemma SuffixLast(a: seq<Entry>, b: seq<Entry>)
    requires IsSuffix(a, b) && a != []
    ensures Last(a) == Last(b)
  {
  }

  lemma TrimmedOk(grown: seq<Entry>, history: seq<Entry>, t: real)
    requires IsSuffix(grown, history) && history != [] && Last(history).timestamp <= t
    ensures IsSuffix(Trim(grown, t), history) && InWindow(Trim(grown, t))
  {
    var l := Trim(grown, t);
    TrimIsSuffix(grown, t);
    SuffixTrans(l, grown, history);
    if l != [] {
      SuffixLast(l, history);
    }
  }

  lemma StartInv(k: Knobs, seed: Option<int>, t: real)
    requires ValidKnobs(k)
    ensures HistoryInv(k, Started(k, seed, t), t) && TrimInv(Started(k, seed, t))
  {
    var h := Started(k, seed, t);
    assert Trim(h.history, t) == h.history;
  }

  lemma SpacedAppend(gap: real, l: seq<Entry>, e: Entry)
    requires Spaced(gap, l) && l != [] && e.timestamp - Last(l).timestamp >= gap
    ensures Spaced(gap, l + [e])
  {
  }

  /** An entry is due only a persistence time after the previous one. */
  lemma EntryDue(k: Knobs, h: Traced, now: real, x: Sample)
    requires ValidKnobs(k) && HistoryInv(k, h, now) && now <= x.t && TickEntry(k, h.s, x).Some?
    ensures var e := TickEntry(k, h.s, x).value;
            e.timestamp == x.t && x.t - h.s.lastAiAt >= k.mdPersistence && k.floor <= e.budget <= k.capacityMax
  {
  }

  lemma HistoryStep(k: Knobs, h: Traced, now: real, e: Event)
    requires ValidKnobs(k) && HistoryInv(k, h, now) && now <= TimeOf(e)
    ensures HistoryInv(k, Next(k, h, e), TimeOf(e))
  {
    match e
    case ResetAt(seed, t) => StartInv(k, seed, t);
    case ReadAt(t) =>
    case TickAt(x) =>
      var entry := TickEntry(k, h.s, x);
      if entry.Some? {
        EntryDue(k, h, now, x);
        SpacedAppend(k.mdPersistence, h.history, entry.value);
      }
  }

  lemma TickTrim(k: Knobs, h: Traced, x: Sample)
    requires TrimInv(h) && h.history != [] && Last(h.history).timestamp <= x.t
    ensures TrimInv(Next(k, h, TickAt(x)))
  {
    var entry := TickEntry(k, h.s, x);
    if entry.Some? {
      assert entry.value.timestamp == x.t;
      SuffixAppend(h.s.trace, h.history, entry.value);
      assert Last(h.history + [entry.value]) == entry.value;
      TrimmedOk(h.s.trace + [entry.value], h.history + [entry.value], x.t);
    }
  }

  lemma SuffixAppend(a: seq<Entry>, b: seq<Entry>, e: Entry)
    requires IsSuffix(a, b)
    ensures IsSuffix(a + [e], b + [e])
  {
  }

  function Clock(start: real, es: seq<Event>): real {
    if es == [] then start else TimeOf(es[|es| - 1])
  }

  lemma {:induction false} HistoryRun(k: Knobs, seed: Option<int>, start: real, es: seq<Event>)
    requires ValidKnobs(k) && Monotone(start, es)
    ensures HistoryInv(k, After(k, Started(k, seed, start), es), Clock(start, es))
  {
    if es == [] {
      StartInv(k, seed, start);
    } else {
      var before := es[..|es| - 1];
      HistoryRun(k, seed, start, before);
      HistoryStep(k, After(k, Started(k, seed, start), before), Clock(start, before), es[|es| - 1]);
    }
  }

  lemma {:induction false} TrimRun(k: Knobs, seed: Option<int>, start: real, es: seq<Event>)
    requires ValidKnobs(k) && Monotone(start, es)
    ensures TrimInv(After(k, Started(k, seed, start), es))
  {
    if es == [] {
      StartInv(k, seed, start);
    } else {
      var before := es[..|es| - 1];
      TrimRun(k, seed, start, before);
      HistoryRun(k, seed, start, before);
      var h := After(k, Started(k, seed, start), before);
      match es[|es| - 1]
      case ResetAt(again, t) => StartInv(k, again, t);
      case ReadAt(t) => TrimmedOk(h.s.trace, h.history, t);
      case TickAt(x) => TickTrim(k, h, x);
    }
  }

  lemma {:induction false} SpacedSpan(gap: real, l: seq<Entry>)
    requires l != [] && Spaced(gap, l)
    ensures Last(l).timestamp - l[0].timestamp >= (|l| - 1) as real * gap
  {
    if |l| > 1 {
      SpacedSpan(gap, l[..|l| - 1]);
      assert l[|l| - 1].timestamp - l[|l| - 2].timestamp >= gap;
      assert (|l| - 1) as real * gap == (|l| - 2) as real * gap + gap;
    }
  }

  lemma SuffixSpaced(gap: real, a: seq<Entry>, b: seq<Entry>)
    requires IsSuffix(a, b) && Spaced(gap, b)
    ensures Spaced(gap, a)
  {
    var d := |b| - |a|;
    forall i | 0 < i < |a| ensures a[i].timestamp - a[i - 1].timestamp >= gap {
      assert a[i] == b[d + i] && a[i - 1] == b[d + i - 1];
    }
  }

  lemma MulStrict(x: real, y: real, g: real)
    requires x < y && g > 0.0
    ensures x * g < y * g
  {
    assert (y - x) * g > 0.0;
  }

  lemma QuotientBound(n: nat, gap: real, span: real)
    requires gap > 0.0 && n as real * gap <= span
    ensures n <= (span / gap).Floor
  {
    var q := span / gap;
    if q < n as real {
      MulStrict(q, n as real, gap);
    }
  }

  /**
   In every run from a reset on, the budget stays in range, entries are at least the persistence
   time apart, the trace is the end of the full history, and it ends in the current budget.
   */
  lemma TraceFollows(k: Knobs, seed: Option<int>, start: real, es: seq<Event>)
    requires ValidKnobs(k) && Monotone(start, es)
    ensures var h := After(k, Started(k, seed, start), es);
            && k.floor <= h.s.budget <= k.capacityMax
            && Spaced(k.mdPersistence, h.history)
            && IsSuffix(h.s.trace, h.history)
            && (h.s.trace != [] ==> Last(h.s.trace).budget == h.s.budget)
  {
    HistoryRun(k, seed, start, es);
    TrimRun(k, seed, start, es);
    var h := After(k, Started(k, seed, start), es);
    if h.s.trace != [] {
      SuffixLast(h.s.trace, h.history);
    }
  }

  /** Hence the trace never outgrows its window. */
  lemma TraceBounded(k: Knobs, seed: Option<int>, start: real, es: seq<Event>)
    requires ValidKnobs(k) && Monotone(start, es)
    ensures |After(k, Started(k, seed, start), es).s.trace| <= (TRACE_WINDOW_S / k.mdPersistence).Floor + 1
  {
    HistoryRun(k, seed, start, es);
    TrimRun(k, seed, start, es);
    var h := After(k, Started(k, seed, start), es);
    TraceLength(k.mdPersistence, h.s.trace, h.history);
  }

  lemma TraceLength(gap: real, l: seq<Entry>, history: seq<Entry>)
    requires gap > 0.0 && IsSuffix(l, history) && Spaced(gap, history) && InWindow(l)
    ensures |l| <= (TRACE_WINDOW_S / gap).Floor + 1
  {
    if l != [] {
      SuffixSpaced(gap, l, history);
      SpacedSpan(gap, l);
      QuotientBound(|l| - 1, gap, TRACE_WINDOW_S);
    } else {
      QuotientBound(0, gap, TRACE_WINDOW_S);
    }
  }

  /** Entries of the full history that the trace no longer has are older than the window. */
  ghost predicate OnlyOldGone(h: Traced, now: real) {
    && |h.s.trace| <= |h.history|
    && forall i :: 0 <= i < |h.history| - |h.s.trace| ==> h.history[i].timestamp < now - TRACE_WINDOW_S
  }

  lemma {:induction false} TrimDropsOld(trace: seq<Entry>, now: real)
    ensures |Trim(trace, now)| <= |trace|
    ensures forall i :: 0 <= i < |trace| - |Trim(trace, now)| ==> trace[i].timestamp < now - TRACE_WINDOW_S
  {
    if trace != [] && trace[0].timestamp < now - TRACE_WINDOW_S {
      TrimDropsOld(trace[1..], now);
      forall i | 0 < i < |trace| - |Trim(trace, now)| ensures trace[i].timestamp < now - TRACE_WINDOW_S {
        assert trace[i] == trace[1..][i - 1];
      }
    }
  }

  lemma TrimmedOnlyOld(grown: seq<Entry>, history: seq<Entry>, before: real, now: real)
    requires IsSuffix(grown, history) && before <= now
    requires forall i :: 0 <= i < |history| - |grown| ==> history[i].timestamp < before - TRACE_WINDOW_S
    ensures |Trim(grown, now)| <= |history|
    ensures forall i :: 0 <= i < |history| - |Trim(grown, now)| ==> history[i].timestamp < now - TRACE_WINDOW_S
  {
    var gone := |history| - |grown|;
    TrimDropsOld(grown, now);
    forall i | 0 <= i < |history| - |Trim(grown, now)| ensures history[i].timestamp < now - TRACE_WINDOW_S {
      assert i >= gone ==> history[i] == grown[i - gone];
    }
  }

  lemma StartComplete(k: Knobs, seed: Option<int>, t: real)
    ensures OnlyOldGone(Started(k, seed, t), t)
  {
    var h := Started(k, seed, t);
    assert Trim(h.history, t) == h.history;
  }

  lemma ReadComplete(k: Knobs, h: Traced, before: real, t: real)
    requires OnlyOldGone(h, before) && IsSuffix(h.s.trace, h.history) && before <= t
    ensures OnlyOldGone(Next(k, h, ReadAt(t)), t)
  {
    TrimmedOnlyOld(h.s.trace, h.history, before, t);
  }

  /** In every run, the trace has every entry since the last reset that is not older than the window. */
  lemma {:induction false} TraceIsComplete(k: Knobs, seed: Option<int>, start: real, es: seq<Event>)
    requires ValidKnobs(k) && Monotone(start, es)
    ensures OnlyOldGone(After(k, Started(k, seed, start), es), Clock(start, es))
  {
    if es == [] {
      StartComplete(k, seed, start);
    } else {
      var before, e := es[..|es| - 1], es[|es| - 1];
      TraceIsComplete(k, seed, start, before);
      TrimRun(k, seed, start, before);
      CompleteStep(k, After(k, Started(k, seed, start), before), Clock(start, before), e);
    }
  }

  lemma CompleteStep(k: Knobs, h: Traced, before: real, e: Event)
    requires OnlyOldGone(h, before) && IsSuffix(h.s.trace, h.history) && before <= TimeOf(e)
    ensures OnlyOldGone(Next(k, h, e), TimeOf(e))
  {
    match e
    case ResetAt(again, t) => StartComplete(k, again, t);
    case ReadAt(t) => ReadComplete(k, h, before, t);
    case TickAt(x) => TickComplete(k, h, before, x);
  }

  lemma TickComplete(k: Knobs, h: Traced, before: real, x: Sample)
    requires OnlyOldGone(h, before) && IsSuffix(h.s.trace, h.history) && before <= x.t
    ensures OnlyOldGone(Next(k, h, TickAt(x)), x.t)
  {
    var entry := TickEntry(k, h.s, x);
    if entry.Some? {
      var grown, history := h.s.trace + [entry.value], h.history + [entry.value];
      SuffixAppend(h.s.trace, h.history, entry.value);
      assert |history| - |grown| == |h.history| - |h.s.trace|;
      TrimmedOnlyOld(grown, history, before, x.t);
    }
  }

  // ---------------------------------------------------------------- why the budget moved, over any run

  /** No capacity is offered while work is deferred or the host is busy. */
  predicate Restrains(k: Knobs, e: Event) {
    e.ReadAt? || (e.TickAt? && (e.x.deferred > 0 || e.x.cpu >= k.cpuAi || e.x.mem >= k.memAi))
  }

  /** As long as every tick has deferred work or a busy host, the budget does not rise. */
  lemma {:induction false} RestrainedNeverRises(k: Knobs, h: Traced, es: seq<Event>)
    requires k.floor <= h.s.budget <= k.capacityMax
    requires forall e :: e in es ==> Restrains(k, e)
    ensures k.floor <= After(k, h, es).s.budget <= h.s.budget
  {
    if es != [] {
      var before, e := es[..|es| - 1], es[|es| - 1];
      assert e in es;
      RestrainedNeverRises(k, h, before);
      if e.TickAt? {
        TickMoves(k, After(k, h, before).s, e.x);
      }
    }
  }

  /** From event m on every tick was hot, and nothing reset the controller. */
  ghost predicate HotSince(k: Knobs, es: seq<Event>, m: nat) {
    && m < |es| && es[m].TickAt?
    && forall j :: m <= j < |es| ==> !es[j].ResetAt? && (es[j].TickAt? ==> Hot(k, es[j].x))
  }

  /** The pressure clock shows a hot tick since which all were. */
  lemma {:induction false} PressureMeans(k: Knobs, seed: Option<int>, start: real, es: seq<Event>) returns (m: nat)
    requires After(k, Started(k, seed, start), es).s.pressureFirstSeen.Some?
    ensures HotSince(k, es, m)
    ensures After(k, Started(k, seed, start), es).s.pressureFirstSeen == Some(es[m].x.t)
  {
    var before, e := es[..|es| - 1], es[|es| - 1];
    var h := After(k, Started(k, seed, start), before);
    if e.TickAt? && h.s.pressureFirstSeen != After(k, Started(k, seed, start), es).s.pressureFirstSeen {
      m := |es| - 1;
    } else {
      m := PressureMeans(k, seed, start, before);
    }
  }

  /**
   In every run, a tick lowers the budget only when every tick of at least the persistence time up
   to it was hot, and raises it only when nothing was changed or confirmed for the increase interval.
   */
  lemma MovesAreEarned(k: Knobs, seed: Option<int>, start: real, es: seq<Event>, x: Sample)
    requires ValidKnobs(k) && Monotone(start, es + [TickAt(x)])
    ensures var h := After(k, Started(k, seed, start), es);
            var budget := Next(k, h, TickAt(x)).s.budget;
            && (budget < h.s.budget ==>
                  Hot(k, x) && exists m: nat :: HotSince(k, es, m) && x.t - es[m].x.t >= k.mdPersistence)
            && h.history != []
            && (budget > h.s.budget ==> x.deferred == 0 && x.t - Last(h.history).timestamp >= k.aiInterval)
  {
    var h := After(k, Started(k, seed, start), es);
    var all := es + [TickAt(x)];
    assert forall i :: 0 <= i < |es| ==> es[i] == all[i];
    HistoryRun(k, seed, start, es);
    TickMoves(k, h.s, x);
    if Next(k, h, TickAt(x)).s.budget < h.s.budget {
      var m := PressureMeans(k, seed, start, es);
    }
  }
}
