/** The CSS font stack splitter of backend/brand_canonical.py. */
module FontStack {
  import opened Wrappers
  import opened Strings

  // The source drives four variables over the characters.  The reference definition is a cut of
  // the text: pieces joined by commas give the text back, no piece holds a separating comma, and
  // every piece but the last leaves quotes and parentheses closed.  There is exactly one such cut.

  /** What the scan remembers besides its buffers. */
  datatype Lexer = Lexer(depth: nat, inSingle: bool, inDouble: bool)

  const CLOSED := Lexer(0, false, false)

  function Next(l: Lexer, ch: char): Lexer {
    if ch == '\'' && !l.inDouble then l.(inSingle := !l.inSingle)
    else if ch == '"' && !l.inSingle then l.(inDouble := !l.inDouble)
    else if l.inSingle || l.inDouble then l
    else if ch == '(' then l.(depth := l.depth + 1)
    else if ch == ')' then l.(depth := if l.depth == 0 then 0 else l.depth - 1)
    else l
  }

  /** A comma separates only outside quotes and parentheses. */
  predicate Separates(l: Lexer, ch: char) {
    ch == ',' && l == CLOSED
  }

  function Run(l: Lexer, s: string): Lexer
    decreases |s|
  {
    if s == "" then l else Run(Next(l, s[0]), s[1..])
  }

  predicate NoSeparator(l: Lexer, s: string)
    decreases |s|
  {
    s != "" ==> !Separates(l, s[0]) && NoSeparator(Next(l, s[0]), s[1..])
  }

  /** ",".join(pieces) */
  function JoinCommas(pieces: seq<string>): string
    requires pieces != []
  {
    if |pieces| == 1 then pieces[0] else pieces[0] + "," + JoinCommas(pieces[1..])
  }

  ghost predicate IsCut(s: string, pieces: seq<string>) {
    && pieces != []
    && JoinCommas(pieces) == s
    && (forall k :: 0 <= k < |pieces| ==> NoSeparator(CLOSED, pieces[k]))
    && (forall k :: 0 <= k < |pieces| - 1 ==> Run(CLOSED, pieces[k]) == CLOSED)
  }

  // ---------------------------------------------------------------- the one cut

  /** Length of the part in front of the first separating comma. */
  function First(l: Lexer, s: string): (n: nat)
    ensures n <= |s|
    decreases |s|
  {
    if s == "" || Separates(l, s[0]) then 0 else 1 + First(Next(l, s[0]), s[1..])
  }

  lemma {:induction false} FirstPart(l: Lexer, s: string)
    ensures var n := First(l, s);
            && NoSeparator(l, s[..n])
            && (n < |s| ==> Separates(Run(l, s[..n]), s[n]))
    decreases |s|
  {
    if s != "" && !Separates(l, s[0]) {
      FirstPart(Next(l, s[0]), s[1..]);
      var n := First(l, s);
      assert s[..n][1..] == s[1..][..n - 1];
    }
  }

  lemma {:induction false} FirstUnique(l: Lexer, p: string, s: string)
    requires NoSeparator(l, p)
    requires s == "" || Separates(Run(l, p), s[0])
    ensures First(l, p + s) == |p|
    decreases |p|
  {
    if p == "" {
      assert p + s == s;
    } else {
      assert (p + s)[1..] == p[1..] + s;
      FirstUnique(Next(l, p[0]), p[1..], s);
    }
  }

  function Cut(s: string): (pieces: seq<string>)
    ensures pieces != []
    decreases |s|
  {
    var n := First(CLOSED, s);
    if n == |s| then [s] else [s[..n]] + Cut(s[n + 1..])
  }

  lemma CutHead(p: string, s: string)
    requires NoSeparator(CLOSED, p) && Run(CLOSED, p) == CLOSED && IsCut(s, Cut(s))
    ensures IsCut(p + "," + s, [p] + Cut(s))
  {
    assert ([p] + Cut(s))[1..] == Cut(s);
  }

  lemma {:induction false} CutIsCut(s: string)
    ensures IsCut(s, Cut(s))
    decreases |s|
  {
    var n := First(CLOSED, s);
    FirstPart(CLOSED, s);
    assert s[..|s|] == s;
    if n < |s| {
      CutIsCut(s[n + 1..]);
      CutHead(s[..n], s[n + 1..]);
      assert s == s[..n] + "," + s[n + 1..];
    }
  }

  /** The defining properties of a cut leave no choice. */
  lemma {:induction false} CutUnique(s: string, pieces: seq<string>)
    requires IsCut(s, pieces)
    ensures pieces == Cut(s)
    decreases |s|
  {
    var p := pieces[0];
    if |pieces| == 1 {
      FirstUnique(CLOSED, p, "");
      assert p + "" == s;
    } else {
      var rest := JoinCommas(pieces[1..]);
      assert s == p + ("," + rest);
      FirstUnique(CLOSED, p, "," + rest);
      assert s[..|p|] == p && s[|p| + 1..] == rest;
      CutUnique(rest, pieces[1..]);
    }
  }

  lemma {:induction false} RunAppend(l: Lexer, s: string, t: string)
    ensures Run(l, s + t) == Run(Run(l, s), t)
    decreases |s|
  {
    if s == "" {
      assert s + t == t;
    } else {
      assert (s + t)[1..] == s[1..] + t;
      RunAppend(Next(l, s[0]), s[1..], t);
    }
  }

  /** No boundary lies inside quotes or parentheses of the whole text. */
  lemma {:induction false} BoundariesOutside(s: string, pieces: seq<string>, k: nat)
    requires IsCut(s, pieces) && k < |pieces| - 1
    ensures var front := JoinCommas(pieces[..k + 1]);
            && |front| < |s| && s[..|front|] == front && s[|front|] == ','
            && Run(CLOSED, s[..|front|]) == CLOSED
    decreases k
  {
    var p, rest := pieces[0], JoinCommas(pieces[1..]);
    var front := JoinCommas(pieces[..k + 1]);
    assert s == p + "," + rest;
    if k > 0 {
      BoundariesOutside(rest, pieces[1..], k - 1);
      assert pieces[..k + 1][1..] == pieces[1..][..k];
      var inner := JoinCommas(pieces[1..][..k]);
      assert front == p + "," + inner;
      RunAppend(CLOSED, p, "," + inner);
      assert p + ("," + inner) == front;
      assert ("," + inner)[1..] == inner;
      assert s[|front|] == rest[|inner|];
    }
  }

  // ---------------------------------------------------------------- outside, without the lexer

  /** The quote that is open after s. */
  function OpenQuote(s: string): Option<char> {
    if s == "" then None
    else
      var open, c := OpenQuote(s[..|s| - 1]), s[|s| - 1];
      match open
      case None => if c == '\'' || c == '"' then Some(c) else None
      case Some(q) => if c == q then None else open
  }

  /** How many more parentheses outside quotes open than close from place i on. */
  function Surplus(s: string, i: nat): int {
    if i >= |s| then 0
    else
      var front, c := s[..|s| - 1], s[|s| - 1];
      Surplus(front, i)
      + (if OpenQuote(front).Some? then 0 else if c == '(' then 1 else if c == ')' then -1 else 0)
  }

  /** No quote is open after s, and no stretch at its end opens more parentheses than it closes. */
  predicate Outside(s: string) {
    OpenQuote(s).None? && forall i :: 0 <= i <= |s| ==> Surplus(s, i) <= 0
  }

  lemma RunSnoc(front: string, c: char)
    ensures Run(CLOSED, front + [c]) == Next(Run(CLOSED, front), c)
  {
    RunAppend(CLOSED, front, [c]);
    assert [c][1..] == "";
  }

  /** The lexer's flags are the open quote, its depth is the largest surplus. */
  lemma {:induction false} LexerMeans(s: string) returns (i: nat)
    ensures var l := Run(CLOSED, s);
            && (l.inSingle <==> OpenQuote(s) == Some('\''))
            && (l.inDouble <==> OpenQuote(s) == Some('"'))
            && (OpenQuote(s).Some? <==> l.inSingle || l.inDouble)
            && (forall j :: 0 <= j <= |s| ==> Surplus(s, j) <= l.depth)
            && i <= |s| && Surplus(s, i) == l.depth
  {
    if s == "" {
      i := 0;
    } else {
      var front, c := s[..|s| - 1], s[|s| - 1];
      i := LexerMeans(front);
      RunSnoc(front, c);
      assert s == front + [c];
      forall j | 0 <= j <= |s| ensures Surplus(s, j) <= Run(CLOSED, s).depth {
        assert j < |s| ==> Surplus(front, j) <= Run(CLOSED, front).depth;
      }
      if Surplus(s, i) != Run(CLOSED, s).depth {
        i := |s|;
      }
    }
  }

  lemma OutsideIff(s: string)
    ensures Run(CLOSED, s) == CLOSED <==> Outside(s)
  {
    var i := LexerMeans(s);
    assert Surplus(s, |s|) == 0;
  }

  /** Where the k-th piece ends in the text. */
  function FrontLen(pieces: seq<string>, k: nat): nat
    requires k < |pieces|
  {
    |JoinCommas(pieces[..k + 1])|
  }

  /** A piece with one behind it ends there. */
  ghost predicate EndsPiece(pieces: seq<string>, n: nat) {
    exists k: nat :: k < |pieces| - 1 && FrontLen(pieces, k) == n
  }

  ghost predicate IsBoundary(s: string, n: nat) {
    EndsPiece(Cut(s), n)
  }

  /** A comma of the text is a boundary of the cut exactly when it lies outside quotes and parentheses. */
  lemma BoundaryIff(s: string, n: nat)
    requires n < |s| && s[n] == ','
    ensures IsBoundary(s, n) <==> Outside(s[..n])
  {
    OutsideIff(s[..n]);
    CutIsCut(s);
    if Outside(s[..n]) {
      BoundaryThere(s, n);
    }
    if k: nat :| k < |Cut(s)| - 1 && FrontLen(Cut(s), k) == n {
      BoundariesOutside(s, Cut(s), k);
    }
  }

  lemma {:induction false} FirstComma(l: Lexer, s: string, n: nat)
    requires n < |s| && s[n] == ',' && Run(l, s[..n]) == CLOSED
    ensures First(l, s) <= n
    decreases |s|
  {
    if n > 0 && !Separates(l, s[0]) {
      assert s[..n][1..] == s[1..][..n - 1];
      FirstComma(Next(l, s[0]), s[1..], n - 1);
    }
  }

  lemma FrontLenCons(p: string, pieces: seq<string>, k: nat)
    requires k < |pieces|
    ensures FrontLen([p] + pieces, 0) == |p|
    ensures FrontLen([p] + pieces, k + 1) == |p| + 1 + FrontLen(pieces, k)
  {
    var all := [p] + pieces;
    assert all[..1] == [p];
    assert all[..k + 2] == [p] + pieces[..k + 1];
    assert ([p] + pieces[..k + 1])[1..] == pieces[..k + 1];
  }

  /** Behind a closed piece and its comma the lexer starts again. */
  lemma RunBehind(p: string, t: string)
    requires Run(CLOSED, p) == CLOSED
    ensures Run(CLOSED, p + ("," + t)) == Run(CLOSED, t)
  {
    RunAppend(CLOSED, p, "," + t);
    assert ("," + t)[1..] == t;
  }

  lemma {:induction false} BoundaryThere(s: string, n: nat)
    requires n < |s| && s[n] == ',' && Run(CLOSED, s[..n]) == CLOSED
    ensures IsBoundary(s, n)
    decreases |s|
  {
    var m := First(CLOSED, s);
    FirstComma(CLOSED, s, n);
    FirstPart(CLOSED, s);
    EndsPieceCons(s[..m], Cut(s[m + 1..]));
    assert Cut(s) == [s[..m]] + Cut(s[m + 1..]);
    if m < n {
      SpliceAt(s, m, n);
      RunBehind(s[..m], s[m + 1..][..n - m - 1]);
      BoundaryThere(s[m + 1..], n - m - 1);
    }
  }

  lemma SpliceAt(s: string, m: nat, n: nat)
    requires m < n < |s| && s[m] == ','
    ensures s[..n] == s[..m] + ("," + s[m + 1..][..n - m - 1])
  {
  }

  lemma EndsPieceCons(p: string, rest: seq<string>)
    requires rest != []
    ensures EndsPiece([p] + rest, |p|)
    ensures forall n: nat :: EndsPiece(rest, n) ==> EndsPiece([p] + rest, |p| + 1 + n)
  {
    FrontLenCons(p, rest, 0);
    forall n: nat | EndsPiece(rest, n) ensures EndsPiece([p] + rest, |p| + 1 + n) {
      var k: nat :| k < |rest| - 1 && FrontLen(rest, k) == n;
      FrontLenCons(p, rest, k);
    }
  }

  // ---------------------------------------------------------------- the splitter

  function Strips(pieces: seq<string>): (r: seq<string>)
    ensures |r| == |pieces|
  {
    if pieces == [] then [] else [Strip(pieces[0])] + Strips(pieces[1..])
  }

  function NonEmpty(pieces: seq<string>): seq<string> {
    if pieces == [] then []
    else (if pieces[0] == "" then [] else [pieces[0]]) + NonEmpty(pieces[1..])
  }

  /** The pieces of the one cut, stripped, without the empty ones. */
  function Split(s: string): seq<string> {
    NonEmpty(Strips(Cut(s)))
  }

  /** The pieces that remain once buf has been read and the lexer is at l. */
  function CutFrom(l: Lexer, buf: string, s: string): (pieces: seq<string>)
    ensures pieces != []
  {
    var n := First(l, s);
    if n == |s| then [buf + s] else [buf + s[..n]] + Cut(s[n + 1..])
  }

  lemma EmptyFront(s: string)
    ensures "" + s == s
  {
  }

  lemma CutFromStart(s: string)
    ensures CutFrom(CLOSED, "", s) == Cut(s)
  {
    var n := First(CLOSED, s);
    EmptyFront(s);
    EmptyFront(s[..n]);
  }

  lemma Shift(buf: string, s: string, n: nat)
    requires 0 < n <= |s|
    ensures (buf + [s[0]]) + s[1..][..n - 1] == buf + s[..n]
    ensures n < |s| ==> s[1..][n..] == s[n + 1..]
  {
    assert [s[0]] + s[1..][..n - 1] == s[..n];
  }

  lemma CutFromStep(l: Lexer, buf: string, s: string)
    requires s != ""
    ensures CutFrom(l, buf, s) ==
            if Separates(l, s[0]) then [buf] + Cut(s[1..]) else CutFrom(Next(l, s[0]), buf + [s[0]], s[1..])
  {
    var n := First(l, s);
    if n == 0 {
      assert buf + s[..0] == buf;
    } else {
      Shift(buf, s, n);
      assert s[..|s|] == s && s[1..][..|s| - 1] == s[1..];
    }
  }

  lemma {:induction false} NonEmptyAppend(a: seq<string>, b: seq<string>)
    ensures NonEmpty(a + b) == NonEmpty(a) + NonEmpty(b)
  {
    if a == [] {
      assert a + b == b;
    } else {
      assert (a + b)[1..] == a[1..] + b;
      NonEmptyAppend(a[1..], b);
    }
  }

  /** The stripped pieces still to come. */
  ghost function ToCome(l: Lexer, buf: string, s: string): seq<string> {
    Strips(CutFrom(l, buf, s))
  }

  /** The scan in front of character i: pieces found so far, lexer and buffer. */
  ghost predicate Scanning(value: string, i: nat, out: seq<string>, l: Lexer, buf: string)
    requires i <= |value|
  {
    out + ToCome(l, buf, value[i..]) == Strips(Cut(value))
  }

  lemma ScanStarts(value: string)
    ensures Scanning(value, 0, [], CLOSED, "")
  {
    assert value[0..] == value;
    CutFromStart(value);
  }

  lemma ScanStep(value: string, i: nat, out: seq<string>, l: Lexer, buf: string)
    requires i < |value| && Scanning(value, i, out, l, buf)
    ensures if Separates(l, value[i]) then Scanning(value, i + 1, out + [Strip(buf)], CLOSED, "")
            else Scanning(value, i + 1, out, Next(l, value[i]), buf + [value[i]])
  {
    ToComeStep(out, l, buf, value, i);
  }

  lemma ScanEnds(value: string, out: seq<string>, l: Lexer, buf: string)
    requires Scanning(value, |value|, out, l, buf)
    ensures NonEmpty(if buf != "" then out + [Strip(buf)] else out) == Split(value)
  {
    assert value[|value|..] == "";
    ToComeEnd(out, l, buf);
  }

  lemma ToComeStep(out: seq<string>, l: Lexer, buf: string, s: string, i: nat)
    requires i < |s|
    ensures out + ToCome(l, buf, s[i..]) ==
            if Separates(l, s[i]) then (out + [Strip(buf)]) + ToCome(CLOSED, "", s[i + 1..])
            else out + ToCome(Next(l, s[i]), buf + [s[i]], s[i + 1..])
  {
    CutFromStep(l, buf, s[i..]);
    assert s[i..][1..] == s[i + 1..];
    if Separates(l, s[i]) {
      CutFromStart(s[i + 1..]);
      assert ([buf] + Cut(s[i + 1..]))[1..] == Cut(s[i + 1..]);
    }
  }

  /** At the end the last buffer counts, unless it is empty. */
  lemma ToComeEnd(out: seq<string>, l: Lexer, buf: string)
    ensures NonEmpty(out + ToCome(l, buf, "")) == NonEmpty(if buf != "" then out + [Strip(buf)] else out)
  {
    assert buf + "" == buf;
    assert ToCome(l, buf, "") == [Strip(buf)];
    NonEmptyAppend(out, [Strip(buf)]);
  }

  method SplitFontStack(value: string) returns (r: seq<string>)
    ensures r == Split(value)
  {
    var out: seq<string> := [];
    var depth, buf := 0, "";
    var inSingle, inDouble := false, false;
    ScanStarts(value);
    for i := 0 to |value|
      invariant depth >= 0
      invariant Scanning(value, i, out, Lexer(depth, inSingle, inDouble), buf)
    {
      var ch := value[i];
      ScanStep(value, i, out, Lexer(depth, inSingle, inDouble), buf);
      if ch == '\'' && !inDouble {
        inSingle := !inSingle;
        buf := buf + [ch];
        continue;
      }
      if ch == '"' && !inSingle {
        inDouble := !inDouble;
        buf := buf + [ch];
        continue;
      }
      if inSingle || inDouble {
        buf := buf + [ch];
        continue;
      }
      if ch == '(' {
        depth := depth + 1;
        buf := buf + [ch];
      } else if ch == ')' {
        depth := if depth - 1 > 0 then depth - 1 else 0;
        buf := buf + [ch];
      } else if ch == ',' && depth == 0 {
        out := out + [Strip(buf)];
        buf := "";
      } else {
        buf := buf + [ch];
      }
    }
    ScanEnds(value, out, Lexer(depth, inSingle, inDouble), buf);
    if buf != "" {
      out := out + [Strip(buf)];
    }
    r := NonEmpty(out);
  }

  // ---------------------------------------------------------------- splitting again

  /** ", ".join(pieces) */
  function JoinStack(pieces: seq<string>): string {
    if pieces == [] then "" else if |pieces| == 1 then pieces[0] else pieces[0] + ", " + JoinStack(pieces[1..])
  }

  lemma {:induction false} LStripKeeps(l: Lexer, s: string)
    ensures Run(l, LStrip(s)) == Run(l, s)
    ensures NoSeparator(l, s) ==> NoSeparator(l, LStrip(s))
  {
    if s != "" && IsSpace(s[0]) {
      LStripKeeps(l, s[1..]);
    }
  }

  lemma {:induction false} NoSeparatorPrefix(l: Lexer, s: string, t: string)
    requires NoSeparator(l, s + t)
    ensures NoSeparator(l, s)
    decreases |s|
  {
    if s != "" {
      assert (s + t)[1..] == s[1..] + t;
      NoSeparatorPrefix(Next(l, s[0]), s[1..], t);
    }
  }

  lemma {:induction false} RStripKeeps(l: Lexer, s: string)
    ensures Run(l, RStrip(s)) == Run(l, s)
    ensures NoSeparator(l, s) ==> NoSeparator(l, RStrip(s))
  {
    if s != "" && IsSpace(s[|s| - 1]) {
      var front, last := s[..|s| - 1], s[|s| - 1..];
      assert s == front + last;
      RStripKeeps(l, front);
      RunAppend(l, front, last);
      if NoSeparator(l, s) {
        NoSeparatorPrefix(l, front, last);
      }
    }
  }

  /** What every piece of a split is: stripped, not empty, free of separating commas. */
  predicate IsPiece(p: string) {
    p != "" && Trimmed(p) && NoSeparator(CLOSED, p)
  }

  /** Every piece but the last leaves quotes and parentheses closed. */
  predicate ClosedButLast(pieces: seq<string>) {
    && (forall k :: 0 <= k < |pieces| ==> IsPiece(pieces[k]))
    && (forall k :: 0 <= k < |pieces| - 1 ==> Run(CLOSED, pieces[k]) == CLOSED)
  }

  lemma StripKeeps(p: string)
    requires NoSeparator(CLOSED, p)
    ensures NoSeparator(CLOSED, Strip(p)) && Trimmed(Strip(p)) && Run(CLOSED, Strip(p)) == Run(CLOSED, p)
  {
    LStripKeeps(CLOSED, p);
    RStripKeeps(CLOSED, LStrip(p));
    StripTrimmed(p);
  }

  lemma {:induction false} PiecesOfCut(cut: seq<string>)
    requires forall k :: 0 <= k < |cut| ==> NoSeparator(CLOSED, cut[k])
    requires forall k :: 0 <= k < |cut| - 1 ==> Run(CLOSED, cut[k]) == CLOSED
    ensures ClosedButLast(NonEmpty(Strips(cut)))
  {
    if cut != [] {
      PiecesOfCut(cut[1..]);
      StripKeeps(cut[0]);
      assert Strips(cut)[1..] == Strips(cut[1..]);
    }
  }

  /** Every piece is stripped and whole, and every piece but the last is closed. */
  lemma SplitPieces(s: string)
    ensures ClosedButLast(Split(s))
  {
    CutIsCut(s);
    PiecesOfCut(Cut(s));
  }

  lemma SplitAfterSpace(s: string)
    ensures Split(" " + s) == Split(s)
  {
    var t := " " + s;
    assert t[1..] == s;
    var n := First(CLOSED, s);
    assert First(CLOSED, t) == n + 1;
    var head := s[..n];
    assert t[..n + 1] == " " + head;
    assert (" " + head)[1..] == head;
    assert s[..|s|] == s;
    if n < |s| {
      assert t[n + 2..] == s[n + 1..];
    }
  }

  lemma SplitOne(p: string)
    requires IsPiece(p)
    ensures Split(p) == [p]
  {
    FirstUnique(CLOSED, p, "");
    assert p + "" == p;
    TrimmedStrip(p);
    assert Strips([p]) == [p] && NonEmpty([p]) == [p];
  }

  lemma CutJoined(p: string, rest: string)
    requires NoSeparator(CLOSED, p) && Run(CLOSED, p) == CLOSED
    ensures Cut(p + ("," + rest)) == [p] + Cut(rest)
  {
    var tail := "," + rest;
    FirstUnique(CLOSED, p, tail);
    assert (p + tail)[..|p|] == p && (p + tail)[|p| + 1..] == rest;
  }

  lemma KeepHead(p: string, pieces: seq<string>)
    requires IsPiece(p)
    ensures NonEmpty(Strips([p] + pieces)) == [p] + NonEmpty(Strips(pieces))
  {
    TrimmedStrip(p);
    assert ([p] + pieces)[1..] == pieces;
    assert Strips([p] + pieces)[1..] == Strips(pieces);
  }

  lemma {:induction false} SplitOfJoin(pieces: seq<string>)
    requires ClosedButLast(pieces)
    ensures Split(JoinStack(pieces)) == pieces
  {
    if pieces == [] {
      assert Strips([""]) == [""];
    } else if |pieces| == 1 {
      SplitOne(pieces[0]);
    } else {
      var p, rest := pieces[0], pieces[1..];
      SplitOfJoin(rest);
      SplitBehind(p, JoinStack(rest));
      JoinStackCons(p, rest);
      assert pieces == [p] + rest;
    }
  }

  lemma JoinStackCons(p: string, rest: seq<string>)
    requires rest != []
    ensures JoinStack([p] + rest) == p + ("," + (" " + JoinStack(rest)))
  {
    assert ([p] + rest)[1..] == rest;
    assert ", " == "," + " ";
    assert p + ", " + JoinStack(rest) == p + ("," + (" " + JoinStack(rest)));
  }

  lemma SplitBehind(p: string, rest: string)
    requires IsPiece(p) && Run(CLOSED, p) == CLOSED
    ensures Split(p + ("," + (" " + rest))) == [p] + Split(rest)
  {
    CutJoined(p, " " + rest);
    KeepHead(p, Cut(" " + rest));
    SplitAfterSpace(rest);
  }

  /** Splitting, joining with ", " and splitting again gives the same pieces, for every input. */
  lemma SplitJoinSplit(s: string)
    ensures Split(JoinStack(Split(s))) == Split(s)
  {
    SplitPieces(s);
    SplitOfJoin(Split(s));
  }
}
