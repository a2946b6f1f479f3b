/**
 The Python string operations that the models share.

 Strings are sequences of characters.  Whitespace is what str.isspace accepts, for strip().
 find is the first place where a text stands, which also decides "in" and replace(…, 1).
 Paths such as "payload.command.0" are joined and split at dots: joining undoes splitting for
 every text, splitting undoes joining for parts that hold no dot.  Decimal numerals are what
 str writes for an index, and reading them gives the number back, so distinct indexes have
 distinct numerals.
 */
module Strings {
  import opened Wrappers

  /** str.isspace() for one character. */
  predicate IsSpace(c: char) {
    var n := c as int;
    || 0x09 <= n <= 0x0d || 0x1c <= n <= 0x20 || n == 0x85 || n == 0xa0 || n == 0x1680
    || 0x2000 <= n <= 0x200a || n == 0x2028 || n == 0x2029 || n == 0x202f || n == 0x205f || n == 0x3000
  }

  function LStrip(s: string): string {
    if s != "" && IsSpace(s[0]) then LStrip(s[1..]) else s
  }

  function RStrip(s: string): string {
    if s != "" && IsSpace(s[|s| - 1]) then RStrip(s[..|s| - 1]) else s
  }

  function Strip(s: string): string {
    RStrip(LStrip(s))
  }

  predicate Trimmed(s: string) {
    s != "" ==> !IsSpace(s[0]) && !IsSpace(s[|s| - 1])
  }

  lemma {:induction false} LStripHead(s: string)
    ensures LStrip(s) != "" ==> !IsSpace(LStrip(s)[0])
  {
    if s != "" && IsSpace(s[0]) {
      LStripHead(s[1..]);
    }
  }

  lemma {:induction false} RStripTrimmed(s: string)
    requires s != "" ==> !IsSpace(s[0])
    ensures Trimmed(RStrip(s))
  {
    if s != "" && IsSpace(s[|s| - 1]) {
      RStripTrimmed(s[..|s| - 1]);
    }
  }

  lemma TrimmedStrip(s: string)
    requires Trimmed(s)
    ensures Strip(s) == s
  {
  }

  lemma StripTrimmed(s: string)
    ensures Trimmed(Strip(s)) && Strip(Strip(s)) == Strip(s)
  {
    LStripHead(s);
    RStripTrimmed(LStrip(s));
  }

  predicate Blank(s: string) {
    forall i :: 0 <= i < |s| ==> IsSpace(s[i])
  }

  lemma {:induction false} LStripBlank(s: string)
    ensures |LStrip(s)| <= |s| && LStrip(s) == s[|s| - |LStrip(s)|..] && Blank(s[..|s| - |LStrip(s)|])
  {
    if s != "" && IsSpace(s[0]) {
      LStripBlank(s[1..]);
    }
  }

  lemma {:induction false} RStripBlank(s: string)
    ensures |RStrip(s)| <= |s| && RStrip(s) == s[..|RStrip(s)|] && Blank(s[|RStrip(s)|..])
  {
    if s != "" && IsSpace(s[|s| - 1]) {
      RStripBlank(s[..|s| - 1]);
    }
  }

  /** Stripping takes blanks off both ends and nothing else. */
  lemma StripBlank(s: string) returns (a: string, b: string)
    ensures s == a + Strip(s) + b && Blank(a) && Blank(b) && Trimmed(Strip(s))
  {
    LStripBlank(s);
    RStripBlank(LStrip(s));
    StripTrimmed(s);
    a, b := s[..|s| - |LStrip(s)|], LStrip(s)[|Strip(s)|..];
  }

  function Lead(s: string): (n: nat)
    ensures n <= |s| && LStrip(s) == s[n..]
  {
    if s != "" && IsSpace(s[0]) then 1 + Lead(s[1..]) else 0
  }

  lemma {:induction false} RStripPrefix(s: string)
    ensures RStrip(s) <= s
  {
    if s != "" && IsSpace(s[|s| - 1]) {
      RStripPrefix(s[..|s| - 1]);
    }
  }

  // ---------------------------------------------------------------- searching

  /** s.find(t), None for -1. */
  function Find(s: string, t: string): (p: Option<nat>)
    ensures p.Some? ==> p.value <= |s| && t <= s[p.value..]
  {
    if t <= s then Some(0)
    else if s == "" then None
    else
      var p := Find(s[1..], t);
      if p.None? then None else Some(p.value + 1)
  }

  /** Nothing before the place found, or anywhere when none is found, matches. */
  lemma {:induction false} FindFirst(s: string, t: string, k: nat)
    requires k <= |s| && (Find(s, t).None? || k < Find(s, t).value)
    ensures !(t <= s[k..])
  {
    if k > 0 {
      FindFirst(s[1..], t, k - 1);
      assert s[1..][k - 1..] == s[k..];
    } else {
      assert s[0..] == s;
    }
  }

  // ---------------------------------------------------------------- dotted paths

  predicate DotFree(s: string) {
    forall i :: 0 <= i < |s| ==> s[i] != '.'
  }

  /** ".".join(parts) */
  function JoinDots(parts: seq<string>): string {
    if parts == [] then "" else if |parts| == 1 then parts[0] else parts[0] + "." + JoinDots(parts[1..])
  }

  /** Length of the part of s in front of its first dot. */
  function FirstDot(s: string): (n: nat)
    ensures n <= |s| && DotFree(s[..n]) && (n < |s| ==> s[n] == '.')
  {
    if s == "" || s[0] == '.' then 0
    else
      var m := FirstDot(s[1..]);
      assert s[..m + 1] == [s[0]] + s[1..][..m];
      m + 1
  }

  /** s.split(".") */
  function SplitDots(s: string): (parts: seq<string>)
    ensures |parts| >= 1
    decreases |s|
  {
    var n := FirstDot(s);
    if n == |s| then [s] else [s[..n]] + SplitDots(s[n + 1..])
  }

  lemma NoDotBefore(s: string, m: nat, n: nat)
    requires m < n <= |s| && DotFree(s[..n])
    ensures s[m] != '.'
  {
    assert s[..n][m] == s[m];
  }

  lemma FirstDotUnique(s: string, n: nat)
    requires n <= |s| && DotFree(s[..n]) && (n < |s| ==> s[n] == '.')
    ensures FirstDot(s) == n
  {
    var m := FirstDot(s);
    if m < n {
      NoDotBefore(s, m, n);
    } else if n < m {
      NoDotBefore(s, n, m);
    }
  }

  /** Splitting undoes joining, for parts without dots. */
  lemma {:induction false} SplitJoin(parts: seq<string>)
    requires parts != [] && forall p :: p in parts ==> DotFree(p)
    ensures SplitDots(JoinDots(parts)) == parts
  {
    var s := JoinDots(parts);
    if |parts| == 1 {
      assert s[..|s|] == s;
      FirstDotUnique(s, |s|);
    } else {
      var n := |parts[0]|;
      assert s[..n] == parts[0] && s[n] == '.' && s[n + 1..] == JoinDots(parts[1..]);
      FirstDotUnique(s, n);
      SplitJoin(parts[1..]);
    }
  }

  lemma JoinCons(p: string, rest: seq<string>)
    requires rest != []
    ensures JoinDots([p] + rest) == p + "." + JoinDots(rest)
  {
    assert ([p] + rest)[1..] == rest;
  }

  /** Joining undoes splitting. */
  lemma {:induction false} JoinSplit(s: string)
    ensures JoinDots(SplitDots(s)) == s
    decreases |s|
  {
    var n := FirstDot(s);
    if n < |s| {
      var rest := SplitDots(s[n + 1..]);
      JoinSplit(s[n + 1..]);
      JoinCons(s[..n], rest);
      assert SplitDots(s) == [s[..n]] + rest;
      assert s == s[..n] + "." + s[n + 1..];
    } else {
      assert SplitDots(s) == [s];
    }
  }

  predicate AllDotFree(parts: seq<string>) {
    forall i :: 0 <= i < |parts| ==> DotFree(parts[i])
  }

  lemma ConsDotFree(p: string, rest: seq<string>)
    requires DotFree(p) && AllDotFree(rest)
    ensures AllDotFree([p] + rest)
  {
  }

  lemma {:induction false} SplitDotFree(s: string)
    ensures AllDotFree(SplitDots(s))
    decreases |s|
  {
    var n := FirstDot(s);
    if n == |s| {
      assert s[..n] == s;
    } else {
      SplitDotFree(s[n + 1..]);
      ConsDotFree(s[..n], SplitDots(s[n + 1..]));
    }
  }

  lemma {:induction false} JoinAppend(parts: seq<string>, last: string)
    requires parts != []
    ensures JoinDots(parts + [last]) == JoinDots(parts) + "." + last
  {
    if |parts| > 1 {
      assert (parts + [last])[1..] == parts[1..] + [last];
      JoinAppend(parts[1..], last);
    } else {
      assert (parts + [last])[1..] == [last];
    }
  }

  // ---------------------------------------------------------------- decimal numbers

  function Digit(n: nat): char
    requires n < 10
  {
    ('0' as int + n) as char
  }

  /** str(n) */
  function Decimal(n: nat): (s: string)
    ensures s != "" && DotFree(s)
  {
    if n < 10 then [Digit(n)] else Decimal(n / 10) + [Digit(n % 10)]
  }

  /** int(s), for a string of decimal digits. */
  function ParseNat(s: string): Option<nat> {
    if s == "" || !('0' <= s[|s| - 1] <= '9') then None
    else
      var d: nat := s[|s| - 1] as int - '0' as int;
      if |s| == 1 then Some(d)
      else
        var rest := ParseNat(s[..|s| - 1]);
        if rest.None? then None else Some(10 * rest.value + d)
  }

  lemma {:induction false} ParseDecimal(n: nat)
    ensures ParseNat(Decimal(n)) == Some(n)
  {
    if n >= 10 {
      ParseDecimal(n / 10);
      assert Decimal(n)[..|Decimal(n)| - 1] == Decimal(n / 10);
    }
  }

  lemma DecimalInjective(m: nat, n: nat)
    requires Decimal(m) == Decimal(n)
    ensures m == n
  {
    ParseDecimal(m);
    ParseDecimal(n);
  }
}
