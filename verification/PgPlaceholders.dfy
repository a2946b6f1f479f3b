/**
 The placeholder rewrite of backend/alembic_pg_compat.py: "?" becomes "%s" outside quotes.

 The source keeps a quote flag and consumes a doubled quote in one step.  The reference
 definition knows neither: it looks only at how many quotes come before a position.
 */
module PgPlaceholders {
  function Quotes(s: string): nat {
    if s == "" then 0 else Quotes(s[..|s| - 1]) + (if s[|s| - 1] == '\'' then 1 else 0)
  }

  predicate Unquoted(s: string, i: nat)
    requires i <= |s|
  {
    Quotes(s[..i]) % 2 == 0
  }

  function Piece(s: string, i: nat): string
    requires i < |s|
  {
    if s[i] == '?' && Unquoted(s, i) then "%s" else [s[i]]
  }

  function Pieces(s: string, n: nat): string
    requires n <= |s|
  {
    if n == 0 then "" else Pieces(s, n - 1) + Piece(s, n - 1)
  }

  /** Every "?" with an even number of quotes before it is replaced, nothing else is. */
  function Translated(s: string): string {
    Pieces(s, |s|)
  }

  lemma QuotesStep(s: string, i: nat)
    requires i < |s|
    ensures Quotes(s[..i + 1]) == Quotes(s[..i]) + (if s[i] == '\'' then 1 else 0)
  {
    assert s[..i + 1][..i] == s[..i];
  }

  lemma DoubledQuote(s: string, i: nat)
    requires i + 1 < |s| && s[i] == '\'' && s[i + 1] == '\''
    ensures Pieces(s, i + 2) == Pieces(s, i) + "''"
    ensures Unquoted(s, i + 2) == Unquoted(s, i)
  {
    QuotesStep(s, i);
    QuotesStep(s, i + 1);
    assert Pieces(s, i + 2) == Pieces(s, i + 1) + "'";
  }

  method TranslateParams(sql: string) returns (r: string)
    ensures r == Translated(sql)
  {
    r := "";
    var i, inSingle := 0, false;
    while i < |sql|
      invariant 0 <= i <= |sql|
      invariant inSingle == !Unquoted(sql, i)
      invariant r == Pieces(sql, i)
    {
      var ch := sql[i];
      QuotesStep(sql, i);
      if ch == '\'' {
        if inSingle && i + 1 < |sql| && sql[i + 1] == '\'' {
          DoubledQuote(sql, i);
          r := r + "''";
          i := i + 2;
          continue;
        }
        inSingle := !inSingle;
        r := r + [ch];
        i := i + 1;
        continue;
      }
      if ch == '?' && !inSingle {
        r := r + "%s";
        i := i + 1;
        continue;
      }
      r := r + [ch];
      i := i + 1;
    }
  }

  // ---------------------------------------------------------------- from the left

  /** The same rewrite read from the left, started inside quotes or not. */
  function Expand(s: string, quoted: bool): string {
    if s == "" then ""
    else if s[0] == '\'' then "'" + Expand(s[1..], !quoted)
    else if s[0] == '?' && !quoted then "%s" + Expand(s[1..], quoted)
    else [s[0]] + Expand(s[1..], quoted)
  }

  lemma Assoc(a: string, b: string, c: string)
    ensures (a + b) + c == a + (b + c)
  {
  }

  lemma ExpandAt(s: string, i: nat)
    requires i < |s|
    ensures Expand(s[i..], !Unquoted(s, i)) == Piece(s, i) + Expand(s[i + 1..], !Unquoted(s, i + 1))
  {
    QuotesStep(s, i);
    assert s[i..][1..] == s[i + 1..];
  }

  lemma {:induction false} PiecesThenExpand(s: string, i: nat)
    requires i <= |s|
    ensures Translated(s) == Pieces(s, i) + Expand(s[i..], !Unquoted(s, i))
    decreases |s| - i
  {
    if i < |s| {
      PiecesThenExpand(s, i + 1);
      ExpandAt(s, i);
      Assoc(Pieces(s, i), Piece(s, i), Expand(s[i + 1..], !Unquoted(s, i + 1)));
    }
  }

  lemma TranslatedIsExpand(s: string)
    ensures Translated(s) == Expand(s, false)
  {
    PiecesThenExpand(s, 0);
    assert s[0..] == s;
  }

  lemma {:induction false} ExpandTwice(s: string, quoted: bool)
    ensures Expand(Expand(s, quoted), quoted) == Expand(s, quoted)
  {
    if s != "" {
      var t := Expand(s[1..], quoted != (s[0] == '\''));
      ExpandTwice(s[1..], quoted != (s[0] == '\''));
      if s[0] == '?' && !quoted {
        var p := "%s" + t;
        assert p[1..] == "s" + t && p[1..][1..] == t;
        assert Expand(p[1..], quoted) == "s" + Expand(t, quoted);
        assert "%" + ("s" + t) == p;
      } else {
        assert ([s[0]] + t)[1..] == t;
      }
    }
  }

  /** Translating a translated statement changes nothing. */
  lemma Idempotent(s: string)
    ensures Translated(Translated(s)) == Translated(s)
  {
    TranslatedIsExpand(s);
    TranslatedIsExpand(Translated(s));
    ExpandTwice(s, false);
  }

  // ---------------------------------------------------------------- quoted text

  /** s.split("'"): the entries at odd places are the quoted ones. */
  function SplitQuotes(s: string): (parts: seq<string>)
    ensures parts != []
  {
    if s == "" then [""]
    else
      var parts := SplitQuotes(s[1..]);
      if s[0] == '\'' then [""] + parts else Prepend([s[0]], parts)
  }

  function Prepend(text: string, parts: seq<string>): (r: seq<string>)
    requires parts != []
    ensures r != []
  {
    [text + parts[0]] + parts[1..]
  }

  /** text.replace("?", "%s") */
  function Replaced(text: string): string {
    if text == "" then "" else (if text[0] == '?' then "%s" else [text[0]]) + Replaced(text[1..])
  }

  /** Part k of the translated text, when the text starts inside quotes or not. */
  function Part(text: string, quoted: bool, k: nat): string {
    if quoted != Odd(k) then text else Replaced(text)
  }

  function Odd(k: nat): bool {
    k != 0 && !Odd(k - 1)
  }

  lemma {:induction false} OddMeans(k: nat)
    ensures Odd(k) <==> k % 2 == 1
  {
    if k > 0 {
      OddMeans(k - 1);
    }
  }

  /** The parts of the translated text, given those of the original. */
  function Parts(parts: seq<string>, quoted: bool): (r: seq<string>)
    ensures |r| == |parts| && forall k :: 0 <= k < |parts| ==> r[k] == Part(parts[k], quoted, k)
  {
    seq(|parts|, k requires 0 <= k < |parts| => Part(parts[k], quoted, k))
  }

  lemma PartsCons(text: string, parts: seq<string>, quoted: bool)
    ensures Parts([text] + parts, quoted) == [Part(text, quoted, 0)] + Parts(parts, !quoted)
  {
    var all, rest := [text] + parts, Parts(parts, !quoted);
    forall k | 0 <= k < |parts| ensures Parts(all, quoted)[k + 1] == rest[k] {
      assert all[k + 1] == parts[k];
      assert Odd(k + 1) == !Odd(k);
    }
  }

  lemma SplitCons(c: char, t: string)
    ensures SplitQuotes([c] + t) == if c == '\'' then [""] + SplitQuotes(t) else Prepend([c], SplitQuotes(t))
  {
    assert ([c] + t)[1..] == t;
  }

  lemma PrependTwice(x: string, y: string, parts: seq<string>)
    requires parts != []
    ensures Prepend(x, Prepend(y, parts)) == Prepend(x + y, parts)
  {
    Assoc(x, y, parts[0]);
  }

  lemma SplitPyformat(t: string)
    ensures SplitQuotes("%s" + t) == Prepend("%s", SplitQuotes(t))
  {
    SplitCons('s', t);
    SplitCons('%', ['s'] + t);
    PrependTwice(['%'], ['s'], SplitQuotes(t));
    Assoc(['%'], ['s'], t);
    assert ['%'] + ['s'] == "%s";
  }

  lemma PartsPrepend(c: char, parts: seq<string>, quoted: bool)
    requires parts != []
    ensures Parts(Prepend([c], parts), quoted)
         == Prepend(if c == '?' && !quoted then "%s" else [c], Parts(parts, quoted))
  {
    assert ([c] + parts[0])[1..] == parts[0];
    PartsCons([c] + parts[0], parts[1..], quoted);
    PartsCons(parts[0], parts[1..], quoted);
    assert parts == [parts[0]] + parts[1..];
  }

  lemma {:induction false} SplitExpand(s: string, quoted: bool)
    ensures SplitQuotes(Expand(s, quoted)) == Parts(SplitQuotes(s), quoted)
  {
    if s != "" {
      var c, t := s[0], s[1..];
      if c == '\'' {
        SplitExpand(t, !quoted);
        SplitCons(c, Expand(t, !quoted));
        PartsCons("", SplitQuotes(t), quoted);
      } else {
        SplitExpand(t, quoted);
        PartsPrepend(c, SplitQuotes(t), quoted);
        if c == '?' && !quoted {
          SplitPyformat(Expand(t, quoted));
        } else {
          SplitCons(c, Expand(t, quoted));
        }
      }
    }
  }

  /** Quoted parts come through character for character, the others have every "?" replaced. */
  lemma LiteralsKept(s: string)
    ensures |SplitQuotes(Translated(s))| == |SplitQuotes(s)|
    ensures forall k :: 0 <= k < |SplitQuotes(s)| ==>
      SplitQuotes(Translated(s))[k] == if k % 2 == 1 then SplitQuotes(s)[k] else Replaced(SplitQuotes(s)[k])
  {
    TranslatedIsExpand(s);
    SplitExpand(s, false);
    forall k | 0 <= k < |SplitQuotes(s)|
      ensures Part(SplitQuotes(s)[k], false, k) == if k % 2 == 1 then SplitQuotes(s)[k] else Replaced(SplitQuotes(s)[k])
    {
      OddMeans(k);
    }
  }

  // ---------------------------------------------------------------- the way back

  /** Every "%s" outside quotes becomes "?" again. */
  function Collapse(s: string, quoted: bool): string {
    if s == "" then ""
    else if s[0] == '\'' then "'" + Collapse(s[1..], !quoted)
    else if !quoted && |s| >= 2 && s[0] == '%' && s[1] == 's' then "?" + Collapse(s[2..], quoted)
    else [s[0]] + Collapse(s[1..], quoted)
  }

  predicate PyformatAt(s: string, i: nat)
    requires i < |s|
  {
    i + 1 < |s| && s[i] == '%' && s[i + 1] == 's' && Unquoted(s, i)
  }

  /** How many "%s" stand outside quotes. */
  function Pyformats(s: string, quoted: bool): nat {
    if s == "" then 0
    else if s[0] == '\'' then Pyformats(s[1..], !quoted)
    else (if !quoted && |s| >= 2 && s[0] == '%' && s[1] == 's' then 1 else 0) + Pyformats(s[1..], quoted)
  }

  lemma {:induction false} PyformatsFrom(s: string, i: nat)
    requires i <= |s|
    ensures Pyformats(s[i..], !Unquoted(s, i)) == 0 <==> forall j :: i <= j < |s| ==> !PyformatAt(s, j)
    decreases |s| - i
  {
    if i < |s| {
      PyformatsFrom(s, i + 1);
      QuotesStep(s, i);
      assert s[i..][1..] == s[i + 1..];
      assert PyformatAt(s, i) <==> !(!Unquoted(s, i)) && |s[i..]| >= 2 && s[i..][0] == '%' && s[i..][1] == 's';
    }
  }

  lemma CollapseHead(c: char, t: string, quoted: bool)
    ensures Collapse([c] + t, quoted) ==
            if c == '\'' then "'" + Collapse(t, !quoted)
            else if c == '%' && !quoted && t != "" && t[0] == 's' then "?" + Collapse(t[1..], quoted)
            else [c] + Collapse(t, quoted)
  {
    var s := [c] + t;
    assert s[1..] == t;
    if t != "" {
      assert s[2..] == t[1..];
    }
  }

  lemma ExpandHead(c: char, t: string, quoted: bool)
    ensures Expand([c] + t, quoted) ==
            if c == '\'' then "'" + Expand(t, !quoted)
            else if c == '?' && !quoted then "%s" + Expand(t, quoted)
            else [c] + Expand(t, quoted)
  {
    assert ([c] + t)[1..] == t;
  }

  lemma PyformatsHead(c: char, t: string, quoted: bool)
    ensures Pyformats([c] + t, quoted) ==
            if c == '\'' then Pyformats(t, !quoted)
            else (if c == '%' && !quoted && t != "" && t[0] == 's' then 1 else 0) + Pyformats(t, quoted)
  {
    assert ([c] + t)[1..] == t;
  }

  /** A translated "?" comes back as it was. */
  lemma BackQuestion(out: string)
    ensures Collapse("%s" + out, false) == "?" + Collapse(out, false)
  {
    CollapseHead('%', ['s'] + out, false);
    Assoc(['%'], ['s'], out);
    assert ['%'] + ['s'] == "%s" && (['s'] + out)[1..] == out;
  }

  /** What is not a translated "?" begins as the original does. */
  lemma ExpandFirst(t: string, quoted: bool)
    ensures Expand(t, quoted) != "" <==> t != ""
    ensures t != "" ==> (Expand(t, quoted)[0] == 's' <==> t[0] == 's')
  {
  }

  /** Translating and reversing shortens s by one for every "%s" that was there already. */
  lemma {:induction false} ThereAndBack(s: string, quoted: bool)
    ensures |Collapse(Expand(s, quoted), quoted)| + Pyformats(s, quoted) == |s|
    ensures Pyformats(s, quoted) == 0 ==> Collapse(Expand(s, quoted), quoted) == s
    decreases |s|
  {
    if s != "" {
      var c, t := s[0], s[1..];
      assert s == [c] + t;
      ExpandHead(c, t, quoted);
      PyformatsHead(c, t, quoted);
      ThereAndBack(t, quoted != (c == '\''));
      if c == '?' && !quoted {
        BackQuestion(Expand(t, quoted));
      } else if c == '%' && !quoted && t != "" && t[0] == 's' {
        BackPyformat(t);
        ThereAndBack(t[1..], quoted);
      } else {
        CollapseHead(c, Expand(t, quoted != (c == '\'')), quoted);
        ExpandFirst(t, quoted);
      }
    }
  }

  /** One that was there already becomes "?". */
  lemma BackPyformat(t: string)
    requires t != "" && t[0] == 's'
    ensures Collapse(['%'] + Expand(t, false), false) == "?" + Collapse(Expand(t[1..], false), false)
    ensures Pyformats(t, false) == Pyformats(t[1..], false)
  {
    ExpandHead('s', t[1..], false);
    assert t == ['s'] + t[1..];
    CollapseHead('%', Expand(t, false), false);
    assert (['s'] + Expand(t[1..], false))[1..] == Expand(t[1..], false);
  }

  /** The reverse rewrite undoes the translation exactly when s had no "%s" outside quotes. */
  lemma ReversedIff(s: string)
    ensures Collapse(Translated(s), false) == s <==> forall i :: 0 <= i < |s| ==> !PyformatAt(s, i)
  {
    TranslatedIsExpand(s);
    ThereAndBack(s, false);
    PyformatsFrom(s, 0);
    assert s[0..] == s;
  }
}
