/**
 The TODO markers of auto-runner-codex.py: their four forms, and how rewriting one line's marker
 changes the number of each in the whole file.
 */
module TodoMarkers {
  import opened Wrappers
  import opened Strings

  datatype Mark = Pending | Reserved | Done | Failed

  function Prefix(m: Mark): string {
    match m
    case Pending => "- [ ]"
    case Reserved => "- [~][G]"
    case Done => "- [x][G]"
    case Failed => "- [!][G]"
  }

  /** Which marker a line starts with. */
  function MarkOf(line: string): Option<Mark> {
    if Prefix(Pending) <= line then Some(Pending)
    else if Prefix(Reserved) <= line then Some(Reserved)
    else if Prefix(Done) <= line then Some(Done)
    else if Prefix(Failed) <= line then Some(Failed)
    else None
  }

  lemma MarkOfMarked(m: Mark, rest: string)
    ensures MarkOf(Prefix(m) + rest) == Some(m)
  {
    assert (Prefix(m) + rest)[3] == Prefix(m)[3];
  }

  /** How often the marker stands anywhere in s. */
  function Count(s: string, m: Mark): nat {
    if s == "" then 0 else (if Prefix(m) <= s then 1 else 0) + Count(s[1..], m)
  }

  lemma {:induction false} CountNoDash(t: string, s: string, m: Mark)
    requires forall i :: 0 <= i < |t| ==> t[i] != '-'
    ensures Count(t + s, m) == Count(s, m)
  {
    if t == "" {
      assert t + s == s;
    } else {
      assert (t + s)[1..] == t[1..] + s && (t + s)[0] == t[0];
      CountNoDash(t[1..], s, m);
      assert !(Prefix(m) <= t + s);
    }
  }

  lemma CountMarked(k: Mark, s: string, m: Mark)
    ensures Count(Prefix(k) + s, m) == (if m == k then 1 else 0) + Count(s, m)
  {
    var tail := Prefix(k)[1..];
    assert (Prefix(k) + s)[1..] == tail + s;
    CountNoDash(tail, s, m);
    PrefixOfMarked(k, s, m);
  }

  /** The fourth character tells the markers apart. */
  lemma PrefixOfMarked(k: Mark, s: string, m: Mark)
    ensures Prefix(m) <= Prefix(k) + s <==> m == k
  {
    assert (Prefix(k) + s)[3] == Prefix(k)[3];
  }

  /** No marker runs across a dash, since dashes only begin them. */
  lemma NoStraddle(a: string, s: string, m: Mark)
    requires a != "" && s != "" && s[0] == '-'
    ensures Prefix(m) <= a + s <==> Prefix(m) <= a
  {
    assert (a + s)[|a|] == '-';
    if |a| < |Prefix(m)| {
      assert Prefix(m)[|a|] != '-';
    } else {
      assert (a + s)[..|Prefix(m)|] == a[..|Prefix(m)|];
    }
  }

  lemma {:induction false} CountBefore(a: string, s: string, m: Mark)
    requires s != "" && s[0] == '-'
    ensures Count(a + s, m) == Count(a, m) + Count(s, m)
  {
    if a == "" {
      assert a + s == s;
    } else {
      assert (a + s)[1..] == a[1..] + s;
      CountBefore(a[1..], s, m);
      NoStraddle(a, s, m);
    }
  }

  /** What follows the leading marker. */
  function Tail(line: string): string
    requires MarkOf(line).Some?
  {
    line[|Prefix(MarkOf(line).value)|..]
  }

  /** line with its leading marker replaced. */
  function Remarked(line: string, m: Mark): string
    requires MarkOf(line).Some?
  {
    Prefix(m) + Tail(line)
  }

  /** The file with the marker of the line at position q replaced. */
  function MarkedAt(content: string, q: nat, line: string, m: Mark): string
    requires q + |line| <= |content| && MarkOf(line).Some?
  {
    content[..q] + Remarked(line, m) + content[q + |line|..]
  }

  /** The file after content.replace(line, new line, 1), None where the source returns None. */
  function Replaced(content: string, line: string, m: Mark): Option<string> {
    var p := Find(content, line);
    if p.None? || MarkOf(line).None? then None
    else Some(MarkedAt(content, p.value, line, m))
  }

  function Delta(m: Mark, k: Mark): int {
    if m == k then 1 else 0
  }

  lemma CountSpliced(a: string, rest: string, o: Mark, k: Mark)
    ensures Count(a + (Prefix(o) + rest), k) == Count(a, k) + Delta(o, k) + Count(rest, k)
  {
    CountBefore(a, Prefix(o) + rest, k);
    CountMarked(o, rest, k);
  }

  lemma Regroup(a: string, x: string, tail: string, after: string)
    ensures a + (x + tail) + after == a + (x + (tail + after))
  {
  }

  lemma Around(content: string, line: string, p: nat)
    requires p <= |content| && line <= content[p..]
    ensures p + |line| <= |content|
    ensures content == content[..p] + line + content[p + |line|..]
  {
    assert content[p..] == line + content[p + |line|..];
  }

  lemma CountReplaced(a: string, o: Mark, tail: string, after: string, k: Mark)
    ensures Count(a + (Prefix(o) + tail) + after, k) == Count(a, k) + Delta(o, k) + Count(tail + after, k)
  {
    Regroup(a, Prefix(o), tail, after);
    CountSpliced(a, tail + after, o, k);
  }

  lemma CountLine(content: string, p: nat, line: string, k: Mark)
    requires p <= |content| && line <= content[p..] && MarkOf(line).Some?
    ensures Count(content, k)
         == Count(content[..p], k) + Delta(MarkOf(line).value, k) + Count(Tail(line) + content[p + |line|..], k)
  {
    Around(content, line, p);
    assert line == Prefix(MarkOf(line).value) + Tail(line);
    CountReplaced(content[..p], MarkOf(line).value, Tail(line), content[p + |line|..], k);
  }

  lemma CountMarkedAt(content: string, p: nat, line: string, m: Mark, k: Mark)
    requires p + |line| <= |content| && MarkOf(line).Some?
    ensures Count(MarkedAt(content, p, line, m), k)
         == Count(content[..p], k) + Delta(m, k) + Count(Tail(line) + content[p + |line|..], k)
  {
    CountReplaced(content[..p], m, Tail(line), content[p + |line|..], k);
  }

  /** One occurrence of the old marker becomes one of the new; nothing else changes. */
  lemma ReplacedCounts(content: string, line: string, m: Mark, k: Mark)
    requires Replaced(content, line, m).Some?
    ensures Count(Replaced(content, line, m).value, k)
         == Count(content, k) + Delta(m, k) - Delta(MarkOf(line).value, k)
  {
    var p := Find(content, line).value;
    CountLine(content, p, line, k);
    CountMarkedAt(content, p, line, m, k);
  }

  lemma OccursReplaced(content: string, line: string, m: Mark, p: nat)
    requires p <= |content| && line <= content[p..]
    requires MarkOf(line).Some?
    ensures Replaced(content, line, m).Some?
  {
    if Find(content, line).None? {
      FindFirst(content, line, p);
    }
  }

  lemma FindInside(a: string, l: string, c: string)
    ensures Find(a + l + c, l).Some?
  {
    var s := a + l + c;
    assert s[|a|..] == l + c;
    if Find(s, l).None? {
      FindFirst(s, l, |a|);
    }
  }

  /** The rewritten line is in the rewritten file, so that the later flip finds one. */
  lemma RemarkedOccurs(content: string, line: string, m: Mark)
    requires Replaced(content, line, m).Some?
    ensures MarkOf(Remarked(line, m)) == Some(m)
    ensures Find(Replaced(content, line, m).value, Remarked(line, m)).Some?
  {
    var p := Find(content, line).value;
    MarkOfMarked(m, Tail(line));
    FindInside(content[..p], Remarked(line, m), content[p + |line|..]);
  }

  lemma At(s: string, t: string, p: nat, i: nat)
    requires p <= |s| && t <= s[p..] && i < |t|
    ensures p + i < |s| && s[p + i] == t[i]
  {
    assert s[p..][i] == t[i];
  }

  lemma MarkersApart(content: string, line: string, p: nat, q: nat)
    requires p < q <= |content| && line <= content[p..] && line <= content[q..]
    requires MarkOf(line).Some?
    ensures p + 5 <= q
  {
    At(content, line, q, 0);
    if q < p + 5 {
      At(content, line, p, q - p);
    }
  }

  lemma MarkedElsewhere(content: string, line: string, m: Mark, p: nat, q: nat)
    requires p < q <= |content| && line <= content[p..] && line <= content[q..]
    requires MarkOf(line).Some? && MarkOf(line) != Some(m)
    ensures MarkedAt(content, p, line, m) != MarkedAt(content, q, line, m)
  {
    MarkersApart(content, line, p, q);
    At(content, line, p, 3);
    var o := MarkOf(line).value;
    assert line[3] == Prefix(o)[3] != Prefix(m)[3];
    assert MarkedAt(content, p, line, m)[p + 3] == Remarked(line, m)[3] == Prefix(m)[3];
    assert MarkedAt(content, q, line, m)[p + 3] == content[p + 3];
  }

  /**
   replace(…, 1) takes the first place in the file where the line's text stands, even inside a
   longer line or in a section that was filtered out.  The line at q is the one that changes
   exactly when its text stands nowhere before it.
   */
  lemma PickedLineMarkedIff(content: string, line: string, m: Mark, q: nat)
    requires q <= |content| && line <= content[q..]
    requires MarkOf(line).Some? && MarkOf(line) != Some(m)
    ensures Replaced(content, line, m) == Some(MarkedAt(content, q, line, m)) <==> Find(content, line) == Some(q)
  {
    OccursReplaced(content, line, m, q);
    var p := Find(content, line).value;
    if q < p {
      FindFirst(content, line, q);
    } else if p < q {
      MarkedElsewhere(content, line, m, p, q);
    }
  }

  /** A later line can lose its marker change to an earlier, longer one. */
  lemma OtherLineMarked()
    ensures "- [ ] a" <= "- [ ] ab\n- [ ] a"[9..]
    ensures Replaced("- [ ] ab\n- [ ] a", "- [ ] a", Reserved) == Some("- [~][G] ab\n- [ ] a")
  {
    var line, content := "- [ ] a", "- [ ] ab\n- [ ] a";
    assert content[9..] == line && content[..7] == line;
    assert Find(content, line) == Some(0);
    assert line[..5] == Prefix(Pending) && line[5..] == " a";
    assert MarkOf(line) == Some(Pending);
    assert Remarked(line, Reserved) == "- [~][G] a";
    assert content[..0] == "" && content[7..] == "b\n- [ ] a";
    assert "" + "- [~][G] a" + "b\n- [ ] a" == "- [~][G] ab\n- [ ] a";
  }

  // ---------------------------------------------------------------- by their texts

  /** How often t stands anywhere in s. */
  function Occurrences(s: string, t: string): nat {
    if s == "" then 0 else (if t <= s then 1 else 0) + Occurrences(s[1..], t)
  }

  lemma {:induction false} CountIs(s: string, m: Mark)
    ensures Count(s, m) == Occurrences(s, Prefix(m))
  {
    if s != "" {
      CountIs(s[1..], m);
    }
  }

  /** The numbers of the four markers as they stand in the file. */
  lemma CountsByText(s: string)
    ensures Count(s, Pending) == Occurrences(s, "- [ ]")
    ensures Count(s, Reserved) == Occurrences(s, "- [~][G]")
    ensures Count(s, Done) == Occurrences(s, "- [x][G]")
    ensures Count(s, Failed) == Occurrences(s, "- [!][G]")
  {
    CountIs(s, Pending);
    CountIs(s, Reserved);
    CountIs(s, Done);
    CountIs(s, Failed);
  }

  // ---------------------------------------------------------------- everything but the markers

  /** The text with every marker reduced to its dash. */
  function Erased(s: string): string
    decreases |s|
  {
    if s == "" then ""
    else if MarkOf(s).Some? then "-" + Erased(Tail(s))
    else [s[0]] + Erased(s[1..])
  }

  lemma MarkNotAcross(a: string, s: string)
    requires a != "" && s != "" && s[0] == '-'
    ensures MarkOf(a + s) == MarkOf(a)
  {
    NoStraddle(a, s, Pending);
    NoStraddle(a, s, Reserved);
    NoStraddle(a, s, Done);
    NoStraddle(a, s, Failed);
  }

  /** Erasing goes on separately from a dash on. */
  lemma {:induction false} ErasedBefore(a: string, s: string)
    requires s != "" && s[0] == '-'
    ensures Erased(a + s) == Erased(a) + Erased(s)
    decreases |a|
  {
    if a == "" {
      assert a + s == s;
    } else {
      MarkNotAcross(a, s);
      if MarkOf(a).Some? {
        assert Tail(a + s) == Tail(a) + s;
        ErasedBefore(Tail(a), s);
        assert "-" + (Erased(Tail(a)) + Erased(s)) == ("-" + Erased(Tail(a))) + Erased(s);
      } else {
        assert (a + s)[1..] == a[1..] + s && (a + s)[0] == a[0];
        ErasedBefore(a[1..], s);
        assert [a[0]] + (Erased(a[1..]) + Erased(s)) == ([a[0]] + Erased(a[1..])) + Erased(s);
      }
    }
  }

  lemma ErasedMarked(m: Mark, rest: string)
    ensures Erased(Prefix(m) + rest) == "-" + Erased(rest)
  {
    MarkOfMarked(m, rest);
    assert Tail(Prefix(m) + rest) == rest;
  }

  lemma ErasedSpliced(a: string, o: Mark, rest: string)
    ensures Erased(a + (Prefix(o) + rest)) == Erased(a) + ("-" + Erased(rest))
  {
    ErasedBefore(a, Prefix(o) + rest);
    ErasedMarked(o, rest);
  }

  /** A replacement touches nothing but one marker. */
  lemma ReplacedErases(content: string, line: string, m: Mark)
    requires Replaced(content, line, m).Some?
    ensures Erased(Replaced(content, line, m).value) == Erased(content)
  {
    var p, o := Find(content, line).value, MarkOf(line).value;
    var a, rest := content[..p], Tail(line) + content[p + |line|..];
    Around(content, line, p);
    assert line == Prefix(o) + Tail(line);
    Regroup(a, Prefix(o), Tail(line), content[p + |line|..]);
    Regroup(a, Prefix(m), Tail(line), content[p + |line|..]);
    ErasedSpliced(a, o, rest);
    ErasedSpliced(a, m, rest);
  }
}
