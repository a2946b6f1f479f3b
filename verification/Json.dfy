/**
 JSON values and the text that json.dumps writes for them.

 Both separator styles used by backend/audit.py are modelled: the compact style of the
 hashed form and the spaced default style of the stored columns.  The text is shown to be
 self-delimiting, which is what makes the hash input of an audit row unambiguous.
 */
module Json {
  datatype List<+T> = Nil | Cons(head: T, tail: List<T>)

  /** Numbers are kept as their literal; objects keep the insertion order of their keys. */
  datatype Json =
    | Null
    | Bool(b: bool)
    | Num(literal: string)
    | Str(s: string)
    | Arr(items: List<Json>)
    | Obj(fields: List<Field>)

  datatype Field = Field(key: string, value: Json)

  predicate NumChar(c: char) {
    '0' <= c <= '9' || c in "+-.eEINafinty"
  }

  /** What int, float, NaN and Infinity are written as. */
  predicate NumLiteral(t: string) {
    && t != ""
    && ('0' <= t[0] <= '9' || t[0] in "-IN")
    && forall i :: 0 <= i < |t| ==> NumChar(t[i])
  }

  ghost predicate Valid(v: Json) {
    match v
    case Num(t) => NumLiteral(t)
    case Arr(items) => ValidItems(items)
    case Obj(fields) => ValidFields(fields)
    case _ => true
  }

  ghost predicate ValidItems(l: List<Json>) {
    l.Cons? ==> Valid(l.head) && ValidItems(l.tail)
  }

  ghost predicate ValidFields(l: List<Field>) {
    l.Cons? ==> Valid(l.head.value) && ValidFields(l.tail)
  }

  // ---------------------------------------------------------------- string literals

  function HexDigit(n: nat): char
    requires n < 16
  {
    if n < 10 then ('0' as int + n) as char else ('a' as int + n - 10) as char
  }

  function EscapeChar(c: char): (t: string)
    ensures t != "" && t[0] != '"'
  {
    if c == '"' then "\\\""
    else if c == '\\' then "\\\\"
    else if c == '\n' then "\\n"
    else if c == '\r' then "\\r"
    else if c == '\t' then "\\t"
    else if c as int == 8 then "\\b"
    else if c as int == 12 then "\\f"
    else if c as int < 32 then "\\u00" + [HexDigit(c as int / 16), HexDigit(c as int % 16)]
    else [c]
  }

  function Escape(s: string): string {
    if s == "" then "" else EscapeChar(s[0]) + Escape(s[1..])
  }

  function Quote(s: string): string {
    "\"" + Escape(s) + "\""
  }

  lemma Cancel(p: string, x: string, y: string)
    requires p + x == p + y
    ensures x == y
  {
    assert x == (p + x)[|p|..] && y == (p + y)[|p|..];
  }

  lemma EscapeCharUnique(c: char, d: char, x: string, y: string)
    requires EscapeChar(c) + x == EscapeChar(d) + y
    ensures c == d && x == y
  {
    var p, q := EscapeChar(c) + x, EscapeChar(d) + y;
    assert p[0] == EscapeChar(c)[0] && q[0] == EscapeChar(d)[0];
    if |EscapeChar(c)| > 1 && |EscapeChar(d)| > 1 {
      assert p[1] == EscapeChar(c)[1] && q[1] == EscapeChar(d)[1];
      if |EscapeChar(c)| == 6 && |EscapeChar(d)| == 6 {
        assert p[4] == EscapeChar(c)[4] && q[4] == EscapeChar(d)[4];
        assert p[5] == EscapeChar(c)[5] && q[5] == EscapeChar(d)[5];
      }
    }
    assert c == d;
    Cancel(EscapeChar(c), x, y);
  }

  /** A string literal's body and closing quote, followed by k. */
  ghost function EscapeThen(s: string, k: string): string {
    if s == "" then "\"" + k else EscapeChar(s[0]) + EscapeThen(s[1..], k)
  }

  lemma {:induction false} EscapeThenIs(s: string, k: string)
    ensures EscapeThen(s, k) == Escape(s) + "\"" + k
  {
    if s != "" {
      EscapeThenIs(s[1..], k);
      assert EscapeChar(s[0]) + (Escape(s[1..]) + "\"" + k) == (EscapeChar(s[0]) + Escape(s[1..])) + "\"" + k;
    }
  }

  lemma EscapeThenHead(s: string, k: string)
    ensures EscapeThen(s, k) != ""
    ensures EscapeThen(s, k)[0] == '"' <==> s == ""
  {
  }

  lemma {:induction false} EscapeUnique(s: string, t: string, x: string, y: string)
    requires EscapeThen(s, x) == EscapeThen(t, y)
    ensures s == t && x == y
  {
    EscapeThenHead(s, x);
    EscapeThenHead(t, y);
    if s == "" {
      Cancel("\"", x, y);
    } else {
      EscapeCharUnique(s[0], t[0], EscapeThen(s[1..], x), EscapeThen(t[1..], y));
      EscapeUnique(s[1..], t[1..], x, y);
      assert s == [s[0]] + s[1..] && t == [t[0]] + t[1..];
    }
  }

  // ---------------------------------------------------------------- dumps

  /** Compact: separators=(",", ":").  Spaced: the default separators. */
  datatype Style = Compact | Spaced

  function Comma(style: Style): (t: string)
    ensures t != "" && t[0] == ','
  {
    if style.Compact? then "," else ", "
  }

  function Colon(style: Style): string {
    if style.Compact? then ":" else ": "
  }

  function Text(v: Json, style: Style): (t: string)
  {
    match v
    case Null => "null"
    case Bool(b) => if b then "true" else "false"
    case Num(literal) => literal
    case Str(s) => Quote(s)
    case Arr(items) => "[" + ItemsText(items, style)
    case Obj(fields) => "{" + FieldsText(fields, style)
  }

  function ItemsText(l: List<Json>, style: Style): string {
    match l
    case Nil => "]"
    case Cons(v, rest) =>
      Text(v, style) + (if rest.Nil? then "]" else Comma(style) + ItemsText(rest, style))
  }

  function FieldsText(l: List<Field>, style: Style): string {
    match l
    case Nil => "}"
    case Cons(f, rest) =>
      Quote(f.key) + Colon(style) + Text(f.value, style)
      + (if rest.Nil? then "}" else Comma(style) + FieldsText(rest, style))
  }

  predicate Stops(x: string) {
    x == "" || !NumChar(x[0])
  }

  /** A number literal ends where its characters end. */
  lemma LiteralGoesOn(s: string, t: string, x: string, y: string)
    requires |s| < |t| && NumLiteral(t) && s + x == t + y
    ensures !Stops(x)
  {
    assert (s + x)[|s|] == (t + y)[|s|];
  }

  lemma NumUnique(s: string, t: string, x: string, y: string)
    requires NumLiteral(s) && NumLiteral(t) && Stops(x) && Stops(y)
    requires s + x == t + y
    ensures s == t && x == y
  {
    if |s| < |t| {
      LiteralGoesOn(s, t, x, y);
    } else if |t| < |s| {
      LiteralGoesOn(t, s, y, x);
    } else {
      assert s == (s + x)[..|s|] && t == (t + y)[..|t|];
      Cancel(s, x, y);
    }
  }

  /** The text of v followed by k, of the rest of a list followed by k, and so on. */
  ghost function TextThen(v: Json, style: Style, k: string): string
    decreases v, 0
  {
    match v
    case Null => "null" + k
    case Bool(b) => if b then "true" + k else "false" + k
    case Num(literal) => literal + k
    case Str(s) => "\"" + EscapeThen(s, k)
    case Arr(items) => "[" + ItemsThen(items, style, k)
    case Obj(fields) => "{" + FieldsThen(fields, style, k)
  }

  ghost function AfterItem(rest: List<Json>, style: Style, k: string): string
    decreases rest, 1
  {
    if rest.Nil? then "]" + k else Comma(style) + ItemsThen(rest, style, k)
  }

  ghost function ItemsThen(l: List<Json>, style: Style, k: string): string
    decreases l, 0
  {
    match l
    case Nil => "]" + k
    case Cons(v, rest) => TextThen(v, style, AfterItem(rest, style, k))
  }

  ghost function AfterField(rest: List<Field>, style: Style, k: string): string
    decreases rest, 1
  {
    if rest.Nil? then "}" + k else Comma(style) + FieldsThen(rest, style, k)
  }

  ghost function FieldsThen(l: List<Field>, style: Style, k: string): string
    decreases l, 0
  {
    match l
    case Nil => "}" + k
    case Cons(f, rest) =>
      "\"" + EscapeThen(f.key, Colon(style) + TextThen(f.value, style, AfterField(rest, style, k)))
  }

  lemma Regroup(a: string, b: string, c: string, d: string, e: string, f: string, k: string)
    ensures a + (b + c + (d + (e + (f + k)))) == ((a + b + c) + d + e + f) + k
  {
  }

  lemma {:induction false} TextThenIs(v: Json, style: Style, k: string)
    ensures TextThen(v, style, k) == Text(v, style) + k
    decreases v
  {
    match v
    case Str(s) =>
      EscapeThenIs(s, k);
      assert "\"" + (Escape(s) + "\"" + k) == Quote(s) + k;
    case Arr(items) =>
      ItemsThenIs(items, style, k);
      assert "[" + (ItemsText(items, style) + k) == ("[" + ItemsText(items, style)) + k;
    case Obj(fields) =>
      FieldsThenIs(fields, style, k);
      assert "{" + (FieldsText(fields, style) + k) == ("{" + FieldsText(fields, style)) + k;
    case _ =>
  }

  lemma {:induction false} ItemsThenIs(l: List<Json>, style: Style, k: string)
    ensures ItemsThen(l, style, k) == ItemsText(l, style) + k
    decreases l
  {
    if l.Cons? {
      var after := AfterItem(l.tail, style, k);
      TextThenIs(l.head, style, after);
      if l.tail.Cons? {
        ItemsThenIs(l.tail, style, k);
      }
      var rest := if l.tail.Nil? then "]" else Comma(style) + ItemsText(l.tail, style);
      assert after == rest + k;
      assert Text(l.head, style) + (rest + k) == (Text(l.head, style) + rest) + k;
    }
  }

  lemma {:induction false} FieldsThenIs(l: List<Field>, style: Style, k: string)
    ensures FieldsThen(l, style, k) == FieldsText(l, style) + k
    decreases l
  {
    if l.Cons? {
      var f, after := l.head, AfterField(l.tail, style, k);
      TextThenIs(f.value, style, after);
      if l.tail.Cons? {
        FieldsThenIs(l.tail, style, k);
      }
      var rest := if l.tail.Nil? then "}" else Comma(style) + FieldsText(l.tail, style);
      assert after == rest + k;
      var value := Text(f.value, style);
      EscapeThenIs(f.key, Colon(style) + (value + (rest + k)));
      Regroup("\"", Escape(f.key), "\"", Colon(style), value, rest, k);
    }
  }

  /** The first character tells the kind of a value. */
  lemma FirstChar(v: Json, style: Style, k: string)
    requires Valid(v)
    ensures TextThen(v, style, k) != ""
    ensures var c := TextThen(v, style, k)[0];
            match v
            case Null => c == 'n'
            case Bool(b) => c == if b then 't' else 'f'
            case Num(_) => '0' <= c <= '9' || c in "-IN"
            case Str(_) => c == '"'
            case Arr(_) => c == '['
            case Obj(_) => c == '{'
  {
  }

  /** No text is a proper prefix of another's, up to what may follow a bare number. */
  lemma {:induction false} TextUnique(a: Json, b: Json, style: Style, x: string, y: string)
    requires Valid(a) && Valid(b)
    requires a.Num? ==> Stops(x)
    requires b.Num? ==> Stops(y)
    requires TextThen(a, style, x) == TextThen(b, style, y)
    ensures a == b && x == y
    decreases a
  {
    FirstChar(a, style, x);
    FirstChar(b, style, y);
    match a
    case Null => Cancel("null", x, y);
    case Bool(t) => Cancel(if t then "true" else "false", x, y);
    case Num(s) => NumUnique(s, b.literal, x, y);
    case Str(s) =>
      Cancel("\"", EscapeThen(s, x), EscapeThen(b.s, y));
      EscapeUnique(s, b.s, x, y);
    case Arr(items) =>
      Cancel("[", ItemsThen(items, style, x), ItemsThen(b.items, style, y));
      ItemsUnique(items, b.items, style, x, y);
    case Obj(fields) =>
      Cancel("{", FieldsThen(fields, style, x), FieldsThen(b.fields, style, y));
      FieldsUnique(fields, b.fields, style, x, y);
  }

  lemma AfterItemHead(rest: List<Json>, style: Style, k: string)
    ensures AfterItem(rest, style, k) != ""
    ensures AfterItem(rest, style, k)[0] == if rest.Nil? then ']' else ','
  {
  }

  /** The first character tells an empty list from any other. */
  lemma ItemsShape(a: List<Json>, b: List<Json>, style: Style, x: string, y: string)
    requires ValidItems(a) && ValidItems(b)
    requires ItemsThen(a, style, x) == ItemsThen(b, style, y)
    ensures a.Nil? <==> b.Nil?
  {
    if a.Cons? {
      FirstChar(a.head, style, AfterItem(a.tail, style, x));
    }
    if b.Cons? {
      FirstChar(b.head, style, AfterItem(b.tail, style, y));
    }
  }

  lemma {:induction false} ItemsUnique(a: List<Json>, b: List<Json>, style: Style, x: string, y: string)
    requires ValidItems(a) && ValidItems(b)
    requires ItemsThen(a, style, x) == ItemsThen(b, style, y)
    ensures a == b && x == y
    decreases a
  {
    ItemsShape(a, b, style, x, y);
    if a.Nil? {
      Cancel("]", x, y);
    } else {
      AfterItemHead(a.tail, style, x);
      AfterItemHead(b.tail, style, y);
      TextUnique(a.head, b.head, style, AfterItem(a.tail, style, x), AfterItem(b.tail, style, y));
      if a.tail.Nil? {
        Cancel("]", x, y);
      } else {
        Cancel(Comma(style), ItemsThen(a.tail, style, x), ItemsThen(b.tail, style, y));
        ItemsUnique(a.tail, b.tail, style, x, y);
      }
    }
  }

  lemma FieldsThenHead(l: List<Field>, style: Style, k: string)
    ensures FieldsThen(l, style, k) != ""
    ensures FieldsThen(l, style, k)[0] == if l.Nil? then '}' else '"'
  {
  }

  lemma KeyUnique(a: string, b: string, style: Style, x: string, y: string)
    requires "\"" + EscapeThen(a, Colon(style) + x) == "\"" + EscapeThen(b, Colon(style) + y)
    ensures a == b && x == y
  {
    Cancel("\"", EscapeThen(a, Colon(style) + x), EscapeThen(b, Colon(style) + y));
    EscapeUnique(a, b, Colon(style) + x, Colon(style) + y);
    Cancel(Colon(style), x, y);
  }

  lemma {:induction false} FieldsUnique(a: List<Field>, b: List<Field>, style: Style, x: string, y: string)
    requires ValidFields(a) && ValidFields(b)
    requires FieldsThen(a, style, x) == FieldsThen(b, style, y)
    ensures a == b && x == y
    decreases a
  {
    FieldsThenHead(a, style, x);
    FieldsThenHead(b, style, y);
    if a.Nil? {
      Cancel("}", x, y);
    } else {
      var ak, bk := AfterField(a.tail, style, x), AfterField(b.tail, style, y);
      KeyUnique(a.head.key, b.head.key, style, TextThen(a.head.value, style, ak), TextThen(b.head.value, style, bk));
      TextUnique(a.head.value, b.head.value, style, ak, bk);
      if a.tail.Nil? {
        Cancel("}", x, y);
      } else {
        Cancel(Comma(style), FieldsThen(a.tail, style, x), FieldsThen(b.tail, style, y));
        FieldsUnique(a.tail, b.tail, style, x, y);
      }
    }
  }

  /** Two object texts, each followed by anything, agree only if the objects and what follows agree. */
  lemma ObjectTextUnique(a: Json, b: Json, style: Style, x: string, y: string)
    requires Valid(a) && Valid(b) && a.Obj? && b.Obj?
    requires Text(a, style) + x == Text(b, style) + y
    ensures a == b && x == y
  {
    TextThenIs(a, style, x);
    TextThenIs(b, style, y);
    TextUnique(a, b, style, x, y);
  }

  /** Distinct values have distinct texts, so a left inverse of dumps exists. */
  lemma DumpsInjective(a: Json, b: Json, style: Style)
    requires Valid(a) && Valid(b) && Text(a, style) == Text(b, style)
    ensures a == b
  {
    TextThenIs(a, style, "");
    TextThenIs(b, style, "");
    assert Text(a, style) + "" == Text(a, style);
    TextUnique(a, b, style, "", "");
  }
}
