/**
 The scanner and the reserve, run, flip loop of auto-runner-codex.py in Tier B.

 The runner alone writes the TODO file.  The section filter is a parameter.
 */
module TodoRunner {
  import opened Wrappers
  import opened Strings
  import opened TodoMarkers

  // ---------------------------------------------------------------- lines and sections

  /** Length of the first line, its line end included. */
  function LineLen(s: string): (n: nat)
    ensures n <= |s| && (s != "" ==> n > 0)
  {
    if s == "" then 0 else if s[0] == '\n' then 1 else 1 + LineLen(s[1..])
  }

  /** f.readlines() */
  function Lines(content: string): seq<string>
    decreases |content|
  {
    if content == "" then []
    else [content[..LineLen(content)]] + Lines(content[LineLen(content)..])
  }

  /** "".join(lines) */
  function Concat(lines: seq<string>): string {
    if lines == [] then "" else lines[0] + Concat(lines[1..])
  }

  lemma {:induction false} LineEnd(s: string)
    requires s != ""
    ensures forall i :: 0 <= i < LineLen(s) - 1 ==> s[i] != '\n'
    ensures LineLen(s) < |s| ==> s[LineLen(s) - 1] == '\n'
  {
    if s[0] != '\n' && s[1..] != "" {
      LineEnd(s[1..]);
    }
  }

  /** Not empty, and no line feed but perhaps at the end. */
  predicate IsLine(line: string) {
    line != "" && forall i :: 0 <= i < |line| - 1 ==> line[i] != '\n'
  }

  lemma ConcatCons(line: string, rest: seq<string>)
    ensures Concat([line] + rest) == line + Concat(rest)
  {
    assert ([line] + rest)[1..] == rest;
  }

  lemma {:induction false} LinesConcat(content: string)
    ensures Concat(Lines(content)) == content
    decreases |content|
  {
    if content != "" {
      var n := LineLen(content);
      LinesConcat(content[n..]);
      ConcatCons(content[..n], Lines(content[n..]));
      assert Lines(content) == [content[..n]] + Lines(content[n..]);
      assert content == content[..n] + content[n..];
    }
  }

  lemma FirstLine(content: string)
    requires content != ""
    ensures var n := LineLen(content);
            IsLine(content[..n]) && (content[n..] != "" ==> content[..n][n - 1] == '\n')
  {
    LineEnd(content);
  }

  lemma {:induction false} LineAt(content: string, k: nat)
    requires k < |Lines(content)|
    ensures var line := Lines(content)[k];
            IsLine(line) && (k < |Lines(content)| - 1 ==> line[|line| - 1] == '\n')
    decreases |content|
  {
    var n := LineLen(content);
    FirstLine(content);
    assert Lines(content) == [content[..n]] + Lines(content[n..]);
    if k > 0 {
      LineAt(content[n..], k - 1);
    }
  }

  /** The lines make up the file, end with a line feed except perhaps the last, and hold no other. */
  lemma LinesMeanFile(content: string)
    ensures Concat(Lines(content)) == content
    ensures forall k :: 0 <= k < |Lines(content)| ==>
      var line := Lines(content)[k];
      IsLine(line) && (k < |Lines(content)| - 1 ==> line[|line| - 1] == '\n')
  {
    LinesConcat(content);
    forall k | 0 <= k < |Lines(content)|
      ensures var line := Lines(content)[k];
              IsLine(line) && (k < |Lines(content)| - 1 ==> line[|line| - 1] == '\n')
    {
      LineAt(content, k);
    }
  }

  predicate Heading(line: string) {
    "### " <= line || "## " <= line
  }

  /** The section in force in front of line i: named by the last heading, none after a "## ". */
  function SectionAt(lines: seq<string>, i: nat): Option<string>
    requires i <= |lines|
  {
    if i == 0 then None
    else if "### " <= lines[i - 1] then Some(Strip(lines[i - 1]))
    else if "## " <= lines[i - 1] then None
    else SectionAt(lines, i - 1)
  }

  function SectionStart(lines: seq<string>, i: nat): (start: nat)
    requires i <= |lines|
    ensures start <= i
  {
    if i == 0 || Heading(lines[i - 1]) then i else SectionStart(lines, i - 1)
  }

  function SectionEnd(lines: seq<string>, i: nat): (end: nat)
    requires i <= |lines|
    ensures i <= end <= |lines|
    decreases |lines| - i
  {
    if i == |lines| || Heading(lines[i]) then i else SectionEnd(lines, i + 1)
  }

  /** What the runner picks by: its section filter and its target substring ("" for none). */
  datatype Filter = Filter(matches: string -> bool, target: string)

  predicate Bullet(line: string, target: string) {
    && Prefix(Pending) <= Strip(line)
    && (target == "" || Find(Strip(line), target).Some?)
  }

  /** The two tests on lines that the scan needs. */
  datatype Tests = Tests(matches: string -> bool, bullet: string -> bool)

  function TestsOf(f: Filter): Tests {
    Tests(f.matches, line => Bullet(line, f.target))
  }

  predicate IsPending(lines: seq<string>, i: nat, f: Tests)
    requires i < |lines|
  {
    && !Heading(lines[i])
    && SectionAt(lines, i).Some?
    && f.matches(SectionAt(lines, i).value)
    && f.bullet(lines[i])
  }

  /** The first pending line from i on, |lines| if there is none. */
  function FirstPending(lines: seq<string>, i: nat, f: Tests): (k: nat)
    requires i <= |lines|
    ensures i <= k <= |lines|
    ensures k < |lines| ==> IsPending(lines, k, f)
    ensures forall j :: i <= j < k ==> !IsPending(lines, j, f)
    decreases |lines| - i
  {
    if i == |lines| || IsPending(lines, i, f) then i else FirstPending(lines, i + 1, f)
  }

  datatype Item = Item(section: string, line: string, context: string)

  /** The first pending line in document order, with its section's title and whole text. */
  function PickedIn(lines: seq<string>, f: Tests): Option<Item> {
    var k := FirstPending(lines, 0, f);
    if k == |lines| then None
    else Some(Item(SectionAt(lines, k).value, Strip(lines[k]),
                   Concat(lines[SectionStart(lines, k)..SectionEnd(lines, k)])))
  }

  function Picked(content: string, f: Filter): Option<Item> {
    PickedIn(Lines(content), TestsOf(f))
  }

  // ---------------------------------------------------------------- the scanner

  /** Index of the first pending bullet of a section, |lines| if there is none. */
  function FirstBullet(lines: seq<string>, f: Tests): (k: nat)
    ensures k <= |lines|
    ensures k < |lines| ==> f.bullet(lines[k])
    ensures forall j :: 0 <= j < k ==> !f.bullet(lines[j])
  {
    if lines == [] || f.bullet(lines[0]) then 0 else 1 + FirstBullet(lines[1..], f)
  }

  method FindFirstPending(lines: seq<string>, f: Filter) returns (hit: Option<string>)
    ensures var k := FirstBullet(lines, TestsOf(f));
            hit == if k == |lines| then None else Some(Strip(lines[k]))
  {
    assert lines[0..] == lines;
    for i := 0 to |lines|
      invariant FirstBullet(lines, TestsOf(f)) == i + FirstBullet(lines[i..], TestsOf(f))
    {
      assert lines[i..][1..] == lines[i + 1..];
      var stripped := Strip(lines[i]);
      if Prefix(Pending) <= stripped {
        if f.target != "" && Find(stripped, f.target).None? {
          continue;
        }
        return Some(stripped);
      }
    }
    return None;
  }

  /** Lines start..i are the section that the heading in front of start opened, so far. */
  ghost predicate Within(lines: seq<string>, start: nat, i: nat) {
    && start <= i <= |lines|
    && (start == 0 || Heading(lines[start - 1]))
    && forall j :: start <= j < i ==> !Heading(lines[j])
  }

  lemma {:induction false} WithinSection(lines: seq<string>, start: nat, i: nat)
    requires Within(lines, start, i)
    ensures SectionAt(lines, i) == SectionAt(lines, start)
    ensures SectionStart(lines, i) == start
  {
    if i > start {
      WithinSection(lines, start, i - 1);
    }
  }

  lemma {:induction false} WithinEnd(lines: seq<string>, i: nat, end: nat)
    requires i <= end <= |lines| && (end < |lines| ==> Heading(lines[end]))
    requires forall j :: i <= j < end ==> !Heading(lines[j])
    ensures SectionEnd(lines, i) == end
    decreases end - i
  {
    if i < end {
      WithinEnd(lines, i + 1, end);
    }
  }

  lemma {:induction false} FirstPendingFrom(lines: seq<string>, i: nat, k: nat, f: Tests)
    requires i <= k <= |lines| && forall j :: i <= j < k ==> !IsPending(lines, j, f)
    ensures FirstPending(lines, i, f) == FirstPending(lines, k, f)
    decreases k - i
  {
    if i < k {
      FirstPendingFrom(lines, i + 1, k, f);
    }
  }

  lemma SectionTitles(lines: seq<string>, start: nat, end: nat)
    requires Within(lines, start, end)
    ensures forall j :: start <= j < end ==> SectionAt(lines, j) == SectionAt(lines, end)
  {
    WithinSection(lines, start, end);
    forall j | start <= j < end ensures SectionAt(lines, j) == SectionAt(lines, end) {
      WithinSection(lines, start, j);
    }
  }

  lemma SectionBullets(lines: seq<string>, start: nat, end: nat, f: Tests)
    requires start <= end <= |lines|
    ensures var k := start + FirstBullet(lines[start..end], f);
            && (k < end ==> f.bullet(lines[k]) && lines[start..end][k - start] == lines[k])
            && forall j :: start <= j < k ==> !f.bullet(lines[j])
  {
    var section := lines[start..end];
    var k := start + FirstBullet(section, f);
    assert k < end ==> section[k - start] == lines[k];
    forall j | start <= j < k ensures !f.bullet(lines[j]) {
      assert section[j - start] == lines[j];
    }
  }

  /** A matching section with a pending bullet holds the first pending line from its start on. */
  lemma SectionHit(lines: seq<string>, start: nat, end: nat, f: Tests, k: nat)
    requires Within(lines, start, end) && (end < |lines| ==> Heading(lines[end]))
    requires SectionAt(lines, end).Some? && f.matches(SectionAt(lines, end).value)
    requires k == start + FirstBullet(lines[start..end], f) && k < end
    ensures FirstPending(lines, start, f) == k
    ensures SectionAt(lines, k) == SectionAt(lines, end)
    ensures SectionStart(lines, k) == start && SectionEnd(lines, k) == end
  {
    SectionTitles(lines, start, end);
    SectionBullets(lines, start, end, f);
    FirstPendingFrom(lines, start, k, f);
    assert IsPending(lines, k, f);
    SectionBounds(lines, start, k, end);
  }

  lemma SectionBounds(lines: seq<string>, start: nat, k: nat, end: nat)
    requires Within(lines, start, end) && (end < |lines| ==> Heading(lines[end])) && start <= k < end
    ensures SectionStart(lines, k) == start && SectionEnd(lines, k) == end
  {
    WithinSection(lines, start, k);
    WithinEnd(lines, k, end);
  }

  lemma PickedHere(lines: seq<string>, f: Tests, start: nat, end: nat, k: nat)
    requires start <= k < end <= |lines|
    requires FirstPending(lines, 0, f) == k && SectionStart(lines, k) == start && SectionEnd(lines, k) == end
    ensures SectionAt(lines, k).Some?
    ensures PickedIn(lines, f)
         == Some(Item(SectionAt(lines, k).value, Strip(lines[start..end][k - start]), Concat(lines[start..end])))
  {
  }

  lemma SectionMiss(lines: seq<string>, start: nat, end: nat, f: Tests)
    requires Within(lines, start, end)
    requires SectionAt(lines, end).Some? && f.matches(SectionAt(lines, end).value)
             ==> start + FirstBullet(lines[start..end], f) == end
    ensures FirstPending(lines, start, f) == FirstPending(lines, end, f)
  {
    SectionTitles(lines, start, end);
    SectionBullets(lines, start, end, f);
    FirstPendingFrom(lines, start, end, f);
  }

  /** The scan in front of line i: where its section began, and no pending line before that. */
  ghost predicate Scanning(lines: seq<string>, f: Tests, start: nat, i: nat,
                           section: Option<string>, sectionLines: seq<string>) {
    && Within(lines, start, i)
    && section == SectionAt(lines, i)
    && (section.Some? ==> sectionLines == lines[start..i])
    && FirstPending(lines, 0, f) == FirstPending(lines, start, f)
  }

  lemma ScanHeading(lines: seq<string>, f: Tests, i: nat)
    requires i < |lines| && Heading(lines[i])
    requires FirstPending(lines, 0, f) == FirstPending(lines, i, f)
    ensures Scanning(lines, f, i + 1, i + 1, if "### " <= lines[i] then Some(Strip(lines[i])) else None, [])
  {
  }

  lemma ScanLine(lines: seq<string>, f: Tests, start: nat, i: nat, section: Option<string>, sectionLines: seq<string>)
    requires i < |lines| && !Heading(lines[i]) && Scanning(lines, f, start, i, section, sectionLines)
    ensures Scanning(lines, f, start, i + 1, section,
                     if section.Some? then sectionLines + [lines[i]] else sectionLines)
  {
    assert section.Some? ==> sectionLines + [lines[i]] == lines[start..i + 1];
  }

  /** The test made at every heading and at the end: hit and context of the section just read. */
  method CloseSection(lines: seq<string>, section: Option<string>, sectionLines: seq<string>, f: Filter,
                      ghost start: nat, ghost end: nat) returns (item: Option<Item>)
    requires Scanning(lines, TestsOf(f), start, end, section, sectionLines)
    requires end < |lines| ==> Heading(lines[end])
    ensures item.Some? ==> item == PickedIn(lines, TestsOf(f))
    ensures item.None? ==> FirstPending(lines, 0, TestsOf(f)) == FirstPending(lines, end, TestsOf(f))
  {
    if section.Some? && f.matches(section.value) {
      var hit := FindFirstPending(sectionLines, f);
      if hit.Some? {
        ghost var k := start + FirstBullet(sectionLines, TestsOf(f));
        SectionHit(lines, start, end, TestsOf(f), k);
        PickedHere(lines, TestsOf(f), start, end, k);
        return Some(Item(section.value, hit.value, Concat(sectionLines)));
      }
    }
    SectionMiss(lines, start, end, TestsOf(f));
    return None;
  }

  /** The streaming scan finds the first pending line, and nothing only if there is none. */
  method GetNextPendingItem(content: string, f: Filter) returns (item: Option<Item>)
    ensures item == Picked(content, f)
  {
    var lines := Lines(content);
    var currentSection: Option<string> := None;
    var sectionLines: seq<string> := [];
    ghost var start := 0;
    for i := 0 to |lines|
      invariant Scanning(lines, TestsOf(f), start, i, currentSection, sectionLines)
    {
      var line := lines[i];
      if Heading(line) {
        item := CloseSection(lines, currentSection, sectionLines, f, start, i);
        if item.Some? {
          return;
        }
        ScanHeading(lines, TestsOf(f), i);
        currentSection := if "### " <= line then Some(Strip(line)) else None;
        sectionLines := [];
        start := i + 1;
        continue;
      }
      ScanLine(lines, TestsOf(f), start, i, currentSection, sectionLines);
      if currentSection.Some? {
        sectionLines := sectionLines + [line];
      }
    }
    item := CloseSection(lines, currentSection, sectionLines, f, start, |lines|);
  }

  /** A pending bullet that holds the target text, if one is set. */
  ghost predicate Wanted(line: string, target: string) {
    && "- [ ]" <= Strip(line)
    && (target == "" || exists p :: 0 <= p <= |Strip(line)| && target <= Strip(line)[p..])
  }

  lemma WantedIff(line: string, target: string)
    ensures Bullet(line, target) <==> Wanted(line, target)
  {
    var s := Strip(line);
    if Find(s, target).None? {
      forall p | 0 <= p <= |s| ensures !(target <= s[p..]) {
        FindFirst(s, target, p);
      }
    }
  }

  predicate InMatching(lines: seq<string>, i: nat, f: Filter)
    requires i < |lines|
  {
    !Heading(lines[i]) && SectionAt(lines, i).Some? && f.matches(SectionAt(lines, i).value)
  }

  /**
   What a pick is: the first wanted bullet in a section whose heading matches, with that heading
   and the section's whole text.
   */
  lemma PickedMeans(content: string, f: Filter) returns (start: nat, k: nat, end: nat)
    requires Picked(content, f).Some?
    ensures var lines := Lines(content);
            && 0 < start <= k < end <= |lines|
            && "### " <= lines[start - 1] && f.matches(Strip(lines[start - 1]))
            && (end < |lines| ==> Heading(lines[end])) && (forall j :: start <= j < end ==> !Heading(lines[j]))
            && Picked(content, f) == Some(Item(Strip(lines[start - 1]), Strip(lines[k]), Concat(lines[start..end])))
            && Wanted(lines[k], f.target)
            && forall j :: 0 <= j < k && InMatching(lines, j, f) ==> !Wanted(lines[j], f.target)
  {
    var lines, t := Lines(content), TestsOf(f);
    k := FirstPending(lines, 0, t);
    start, end := SectionStart(lines, k), SectionEnd(lines, k);
    OpenedBy(lines, k);
    ClosedBy(lines, k);
    WantedIff(lines[k], f.target);
    forall j | 0 <= j < k && InMatching(lines, j, f) ensures !Wanted(lines[j], f.target) {
      NotWanted(lines, j, f);
    }
  }

  lemma NotWanted(lines: seq<string>, j: nat, f: Filter)
    requires j < |lines| && InMatching(lines, j, f) && !IsPending(lines, j, TestsOf(f))
    ensures !Wanted(lines[j], f.target)
  {
    WantedIff(lines[j], f.target);
  }

  lemma {:induction false} OpenedBy(lines: seq<string>, i: nat)
    requires i <= |lines| && SectionAt(lines, i).Some?
    ensures var start := SectionStart(lines, i);
            && 0 < start <= i && "### " <= lines[start - 1] && SectionAt(lines, i) == Some(Strip(lines[start - 1]))
            && forall j :: start <= j < i ==> !Heading(lines[j])
  {
    if !Heading(lines[i - 1]) {
      OpenedBy(lines, i - 1);
    }
  }

  lemma {:induction false} ClosedBy(lines: seq<string>, i: nat)
    requires i <= |lines|
    ensures var end := SectionEnd(lines, i);
            (end < |lines| ==> Heading(lines[end])) && forall j :: i <= j < end ==> !Heading(lines[j])
    decreases |lines| - i
  {
    if i < |lines| && !Heading(lines[i]) {
      ClosedBy(lines, i + 1);
    }
  }

  // ---------------------------------------------------------------- picked lines are in the file

  /** Where line i begins in the file. */
  function Offset(lines: seq<string>, i: nat): nat
    requires i <= |lines|
  {
    if i == 0 then 0 else |lines[0]| + Offset(lines[1..], i - 1)
  }

  lemma {:induction false} LineInFile(content: string, i: nat)
    requires i < |Lines(content)|
    ensures var p := Offset(Lines(content), i);
            p <= |content| && Lines(content)[i] <= content[p..]
    decreases |content|
  {
    var n := LineLen(content);
    if i > 0 {
      var rest := content[n..];
      LineInFile(rest, i - 1);
      var q := Offset(Lines(rest), i - 1);
      assert Lines(content)[1..] == Lines(rest);
      assert rest[q..] == content[n + q..];
    } else {
      assert content[0..] == content;
    }
  }

  /** Where the stripped text of line i begins in the file. */
  function MarkerOffset(lines: seq<string>, i: nat): nat
    requires i < |lines|
  {
    Offset(lines, i) + Lead(lines[i])
  }

  lemma StrippedInFile(content: string, i: nat)
    requires i < |Lines(content)|
    ensures var q := MarkerOffset(Lines(content), i);
            q <= |content| && Strip(Lines(content)[i]) <= content[q..]
  {
    var line, p := Lines(content)[i], Offset(Lines(content), i);
    LineInFile(content, i);
    RStripPrefix(LStrip(line));
    assert content[p..][Lead(line)..] == content[p + Lead(line)..];
    assert line[Lead(line)..] <= content[p..][Lead(line)..];
  }

  /** A picked line can always be reserved, since nobody else writes the file. */
  lemma PickedCanBeReserved(content: string, f: Filter)
    requires Picked(content, f).Some?
    ensures MarkOf(Picked(content, f).value.line) == Some(Pending)
    ensures Replaced(content, Picked(content, f).value.line, Reserved).Some?
  {
    var lines := Lines(content);
    var k := FirstPending(lines, 0, TestsOf(f));
    StrippedInFile(content, k);
    OccursReplaced(content, Strip(lines[k]), Reserved, MarkerOffset(lines, k));
  }

  /** The reservation marks the picked line exactly when its text stands nowhere before it. */
  lemma ReservesPickedIff(content: string, f: Filter)
    requires Picked(content, f).Some?
    ensures var line := Picked(content, f).value.line;
            var q := MarkerOffset(Lines(content), FirstPending(Lines(content), 0, TestsOf(f)));
            && q + |line| <= |content|
            && (Replaced(content, line, Reserved) == Some(MarkedAt(content, q, line, Reserved))
                <==> Find(content, line) == Some(q))
  {
    var k := FirstPending(Lines(content), 0, TestsOf(f));
    StrippedInFile(content, k);
    PickedLineMarkedIff(content, Strip(Lines(content)[k]), Reserved, MarkerOffset(Lines(content), k));
  }

  // ---------------------------------------------------------------- the loop

  class TodoFile {
    var content: string

    /** None stands for a line that is not in the file or does not start with a marker. */
    method ReplaceMarker(itemLine: string, m: Mark) returns (newLine: Option<string>)
      modifies this
      ensures newLine.Some? <==> Replaced(old(content), itemLine, m).Some?
      ensures newLine.Some? ==> newLine.value == Remarked(itemLine, m)
      ensures content == if newLine.Some? then Replaced(old(content), itemLine, m).value else old(content)
    {
      var p := Find(content, itemLine);
      if p.None? || MarkOf(itemLine).None? {
        return None;
      }
      var line := Remarked(itemLine, m);
      newLine := Some(line);
      if line == itemLine {
        Around(content, itemLine, p.value);
        return;
      }
      content := content[..p.value] + line + content[p.value + |itemLine|..];
    }

    method ReserveItem(line: string) returns (reserved: Option<string>)
      modifies this
      ensures reserved.Some? <==> Replaced(old(content), line, Reserved).Some?
      ensures reserved.None? ==> content == old(content)
      ensures reserved.Some? ==>
        && Moved(old(content), content, MarkOf(line).value, Reserved)
        && MarkOf(reserved.value) == Some(Reserved) && Find(content, reserved.value).Some?
        && Erased(content) == old(Erased(content))
    {
      if Replaced(content, line, Reserved).Some? {
        ReplacedErases(content, line, Reserved);
        ReplacedMoves(content, line, Reserved);
        RemarkedOccurs(content, line, Reserved);
      }
      reserved := ReplaceMarker(line, Reserved);
    }

    method FlipReservation(reserved: string, success: bool)
      requires MarkOf(reserved) == Some(Reserved) && Find(content, reserved).Some?
      modifies this
      ensures Moved(old(content), content, Reserved, if success then Done else Failed)
      ensures Erased(content) == old(Erased(content))
    {
      var outcome := if success then Done else Failed;
      ReplacedErases(content, reserved, outcome);
      ReplacedMoves(content, reserved, outcome);
      var _ := ReplaceMarker(reserved, outcome);
    }

    /** One pass: scan, reserve, run the agent, flip the reservation to what became of it. */
    method Pass(f: Filter, round: nat, maxRetries: int, attempt: (nat, nat) -> bool)
        returns (found: bool, success: bool)
      modifies this
      ensures found <==> Picked(old(content), f).Some?
      ensures !found ==> content == old(content)
      ensures found ==> (success <==> exists i :: 1 <= i <= maxRetries && attempt(round, i))
      ensures found ==> Moved(old(content), content, Pending, if success then Done else Failed)
      ensures Erased(content) == old(Erased(content))
    {
      var item := GetNextPendingItem(content, f);
      if item.None? {
        return false, false;
      }
      PickedCanBeReserved(content, f);
      var reserved := ReserveItem(item.value.line);
      success := RunWithRetries(round, maxRetries, attempt);
      FlipReservation(reserved.value, success);
      found := true;
    }

    /**
     Whatever the agent's runs return and whenever a stop is asked for: every pass turns one
     pending marker into one done or failed marker, reservations and the total stay, and a loop
     that is not stopped ends with nothing pending for its filter.
     */
    method RunTierB(f: Filter, maxRetries: int, attempt: (nat, nat) -> bool, stopAfter: nat -> bool)
        returns (completed: nat, failed: nat, stopped: bool)
      modifies this
      ensures Progress(old(content), content, completed, failed)
      ensures TextTally(old(content), content, completed, failed)
      ensures !stopped ==> Picked(content, f).None?
      ensures stopped ==> completed + failed > 0 && stopAfter(completed + failed - 1)
    {
      ghost var start := content;
      completed, failed, stopped := PassUntil(f, maxRetries, attempt, stopAfter);
      TallyByText(start, content, completed, failed);
    }

    /** One more pass and its effect on the tally. */
    method PassOn(ghost start: string, completed: nat, failed: nat,
                  f: Filter, maxRetries: int, attempt: (nat, nat) -> bool) returns (found: bool, success: bool)
      requires Progress(start, content, completed, failed)
      modifies this
      ensures !found ==> content == old(content) && Picked(content, f).None?
      ensures found && success ==> Progress(start, content, completed + 1, failed)
      ensures found && !success ==> Progress(start, content, completed, failed + 1)
    {
      ghost var before := content;
      found, success := Pass(f, completed + failed, maxRetries, attempt);
      if found {
        MovedProgress(start, before, content, completed, failed, success);
      }
    }

    method PassUntil(f: Filter, maxRetries: int, attempt: (nat, nat) -> bool, stopAfter: nat -> bool)
        returns (completed: nat, failed: nat, stopped: bool)
      modifies this
      ensures Progress(old(content), content, completed, failed)
      ensures !stopped ==> Picked(content, f).None?
      ensures stopped ==> completed + failed > 0 && stopAfter(completed + failed - 1)
    {
      completed, failed, stopped := 0, 0, false;
      ghost var start := content;
      ProgressStarts(start);
      while true
        invariant Progress(start, content, completed, failed)
        decreases Count(start, Pending) - completed - failed
      {
        var found, success := PassOn(start, completed, failed, f, maxRetries, attempt);
        if !found {
          return;
        }
        if success {
          completed := completed + 1;
        } else {
          failed := failed + 1;
        }
        if stopAfter(completed + failed - 1) {
          stopped := true;
          return;
        }
      }
    }
  }

  /** The agent is started until a run succeeds, maxRetries times at most. */
  method RunWithRetries(round: nat, maxRetries: int, attempt: (nat, nat) -> bool) returns (success: bool)
    ensures success <==> exists i :: 1 <= i <= maxRetries && attempt(round, i)
  {
    var i := 1;
    while i <= maxRetries
      invariant i >= 1 && forall j :: 1 <= j < i ==> !attempt(round, j)
      decreases maxRetries - i
    {
      success := attempt(round, i);
      if success {
        return;
      }
      i := i + 1;
    }
    return false;
  }

  /** One marker of kind a became one of kind b. */
  ghost predicate Moved(before: string, now: string, a: Mark, b: Mark) {
    forall k :: Count(now, k) == Count(before, k) + Delta(b, k) - Delta(a, k)
  }

  lemma ReplacedMoves(content: string, line: string, m: Mark)
    requires Replaced(content, line, m).Some?
    ensures Moved(content, Replaced(content, line, m).value, MarkOf(line).value, m)
  {
    forall k ensures Count(Replaced(content, line, m).value, k)
                  == Count(content, k) + Delta(m, k) - Delta(MarkOf(line).value, k)
    {
      ReplacedCounts(content, line, m, k);
    }
  }

  /** By how much completed and failed passes change the number of markers of each kind. */
  function Change(k: Mark, completed: nat, failed: nat): int {
    match k
    case Pending => -(completed + failed)
    case Reserved => 0
    case Done => completed
    case Failed => failed
  }

  ghost predicate Tally(start: string, now: string, completed: nat, failed: nat) {
    forall k :: Count(now, k) == Count(start, k) + Change(k, completed, failed)
  }

  /** The tally, by the markers as they stand in the file. */
  ghost predicate TextTally(start: string, now: string, completed: nat, failed: nat) {
    && Occurrences(now, "- [ ]") == Occurrences(start, "- [ ]") - completed - failed
    && Occurrences(now, "- [~][G]") == Occurrences(start, "- [~][G]")
    && Occurrences(now, "- [x][G]") == Occurrences(start, "- [x][G]") + completed
    && Occurrences(now, "- [!][G]") == Occurrences(start, "- [!][G]") + failed
  }

  lemma TallyByText(start: string, now: string, completed: nat, failed: nat)
    requires Progress(start, now, completed, failed)
    ensures TextTally(start, now, completed, failed)
  {
    CountsByText(start);
    CountsByText(now);
    assert Count(now, Reserved) == Count(start, Reserved) + Change(Reserved, completed, failed);
    assert Count(now, Done) == Count(start, Done) + Change(Done, completed, failed);
    assert Count(now, Failed) == Count(start, Failed) + Change(Failed, completed, failed);
    assert Count(now, Pending) == Count(start, Pending) + Change(Pending, completed, failed);
  }

  /** What a number of completed and failed passes have done to the file. */
  ghost predicate Progress(start: string, now: string, completed: nat, failed: nat) {
    && Tally(start, now, completed, failed)
    && Erased(now) == Erased(start)
    && completed + failed <= Count(start, Pending)
  }

  lemma ProgressStarts(start: string)
    ensures Progress(start, start, 0, 0)
  {
  }

  lemma MovedProgress(start: string, before: string, now: string, completed: nat, failed: nat, success: bool)
    requires Progress(start, before, completed, failed) && Erased(now) == Erased(before)
    requires Moved(before, now, Pending, if success then Done else Failed)
    ensures Progress(start, now, if success then completed + 1 else completed, if success then failed else failed + 1)
  {
    MovedTally(start, before, now, completed, failed, success);
  }

  lemma MovedTally(start: string, before: string, now: string, completed: nat, failed: nat, success: bool)
    requires Tally(start, before, completed, failed)
    requires Moved(before, now, Pending, if success then Done else Failed)
    ensures Tally(start, now, if success then completed + 1 else completed, if success then failed else failed + 1)
    ensures completed + failed + 1 <= Count(start, Pending)
  {
    assert Count(now, Pending) == Count(before, Pending) - 1;
  }
}
