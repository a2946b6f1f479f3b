/**
 Reading and writing one place of a JSON tree by a path of keys and list indexes.

 The path updates of backend/block_redaction.py walk a cursor to the end of a path and assign
 there.  A write is a function from tree to tree here; it has no value where the source raises:
 a missing key on the way, an index that is no numeral or out of range, a place inside a text.
 At the end of the path a missing key is added, as a dict does.  A run of writes under one key or
 index acts on that child alone, and a run along parts without dots cannot touch what stands at
 a key with a dot.
 */
module JsonTree {
  import opened Wrappers
  import opened Strings
  import opened Json
  import opened CanonicalJson

  type Path = seq<string>

  function Nth(l: List<Json>, n: nat): Option<Json> {
    if l.Nil? then None else if n == 0 then Some(l.head) else Nth(l.tail, n - 1)
  }

  function Child(v: Json, key: string): Option<Json> {
    match v
    case Obj(fields) => Lookup(fields, key)
    case Arr(items) => if ParseNat(key).None? then None else Nth(items, ParseNat(key).value)
    case _ => None
  }

  function Get(v: Json, q: Path): Option<Json>
    decreases |q|
  {
    if q == [] then Some(v)
    else if Child(v, q[0]).None? then None
    else Get(Child(v, q[0]).value, q[1..])
  }

  // ---------------------------------------------------------------- one write

  /** cursor[…] = x at the end of the path; None where the source raises. */
  function SetParts(v: Json, p: Path, x: Json): Option<Json>
    decreases v, 1
  {
    if p == [] then Some(x)
    else match v
      case Obj(fields) =>
        var r := SetField(fields, p, x);
        if r.None? then None else Some(Obj(r.value))
      case Arr(items) =>
        if ParseNat(p[0]).None? then None
        else
          var r := SetItem(items, ParseNat(p[0]).value, p[1..], x);
          if r.None? then None else Some(Arr(r.value))
      case _ => None
  }

  function SetField(l: List<Field>, p: Path, x: Json): Option<List<Field>>
    requires p != []
    decreases l, 0
  {
    match l
    case Nil => if |p| == 1 then Some(Cons(Field(p[0], x), Nil)) else None
    case Cons(f, rest) =>
      if f.key == p[0] then
        var c := SetParts(f.value, p[1..], x);
        if c.None? then None else Some(Cons(Field(f.key, c.value), rest))
      else
        var r := SetField(rest, p, x);
        if r.None? then None else Some(Cons(f, r.value))
  }

  function SetItem(l: List<Json>, n: nat, p: Path, x: Json): Option<List<Json>>
    decreases l, 0
  {
    match l
    case Nil => None
    case Cons(v, rest) =>
      if n == 0 then
        var c := SetParts(v, p, x);
        if c.None? then None else Some(Cons(c.value, rest))
      else
        var r := SetItem(rest, n - 1, p, x);
        if r.None? then None else Some(Cons(v, r.value))
  }

  /** Neither path leads through the other. */
  predicate Apart(p: Path, q: Path) {
    !(p <= q) && !(q <= p)
  }

  /** Paths that are apart differ at some place. */
  lemma {:induction false} ApartAt(p: Path, q: Path) returns (i: nat)
    requires Apart(p, q)
    ensures i < |p| && i < |q| && p[i] != q[i]
  {
    i := 0;
    if p[0] == q[0] {
      ApartTail(p, q);
      i := ApartAt(p[1..], q[1..]);
      i := i + 1;
    }
  }

  lemma AtApart(p: Path, q: Path, i: nat)
    requires i < |p| && i < |q| && p[i] != q[i]
    ensures Apart(p, q)
  {
  }

  lemma ApartTail(p: Path, q: Path)
    requires p != [] && q != [] && p[0] == q[0] && Apart(p, q)
    ensures Apart(p[1..], q[1..])
  {
    assert p == [p[0]] + p[1..] && q == [q[0]] + q[1..];
  }

  lemma ApartUnder(key: string, p: Path, q: Path)
    requires Apart(p, q)
    ensures Apart([key] + p, [key] + q)
  {
    var i := ApartAt(p, q);
    AtApart([key] + p, [key] + q, i + 1);
  }

  /** Indexes of lists are written in the one way the walk writes them ("0", never "00"). */
  predicate Plain(v: Json, q: Path)
    decreases |q|
  {
    q != [] ==>
      && (v.Arr? && ParseNat(q[0]).Some? ==> q[0] == Decimal(ParseNat(q[0]).value))
      && (Child(v, q[0]).Some? ==> Plain(Child(v, q[0]).value, q[1..]))
  }

  /** Keys of a dict are distinct, at every level. */
  ghost predicate Dicts(v: Json) {
    match v
    case Obj(fields) => DistinctKeys(fields) && DictFields(fields)
    case Arr(items) => DictItems(items)
    case _ => true
  }

  ghost predicate DictFields(l: List<Field>) {
    l.Cons? ==> Dicts(l.head.value) && DictFields(l.tail)
  }

  ghost predicate DictItems(l: List<Json>) {
    l.Cons? ==> Dicts(l.head) && DictItems(l.tail)
  }

  // ---------------------------------------------------------------- writes and dotted keys

  predicate Dotted(q: Path) {
    exists i :: 0 <= i < |q| && !DotFree(q[i])
  }

  lemma {:induction false} NumeralsDotFree(s: string)
    requires ParseNat(s).Some?
    ensures DotFree(s)
  {
    if |s| > 1 {
      NumeralsDotFree(s[..|s| - 1]);
    }
  }

  /** Nothing inside x is reached through a dotted key. */
  ghost predicate Undotted(x: Json) {
    forall q :: Dotted(q) ==> Get(x, q).None?
  }

  /** A write along dot-free parts cannot change what stands at a dotted key, except by removing it. */
  lemma {:induction false} SetMissesDotted(v: Json, p: Path, x: Json, q: Path)
    requires SetParts(v, p, x).Some? && !Dotted(p) && Dotted(q) && Undotted(x)
    ensures Get(SetParts(v, p, x).value, q) == Get(v, q) || Get(SetParts(v, p, x).value, q).None?
    decreases v, 1
  {
    if p != [] {
      match v
      case Obj(fields) => SetFieldMissesDotted(fields, p, x, q);
      case Arr(items) =>
        var m := ParseNat(q[0]);
        if m.Some? {
          NumeralsDotFree(q[0]);
          assert !Dotted(p[1..]);
          SetItemMissesDotted(items, ParseNat(p[0]).value, p[1..], x, m.value, q[1..]);
        }
      case _ =>
    }
  }

  lemma {:induction false} SetFieldMissesDotted(l: List<Field>, p: Path, x: Json, q: Path)
    requires p != [] && SetField(l, p, x).Some? && !Dotted(p) && Dotted(q) && Undotted(x)
    ensures var r := Get(Obj(SetField(l, p, x).value), q); r == Get(Obj(l), q) || r.None?
    decreases l, 0
  {
    assert DotFree(p[0]);
    match l
    case Nil =>
      if p[0] == q[0] {
      }
    case Cons(f, rest) =>
      if f.key != p[0] {
        SetFieldMissesDotted(rest, p, x, q);
      } else if p[0] == q[0] {
        assert !Dotted(p[1..]);
        SetMissesDotted(f.value, p[1..], x, q[1..]);
      }
  }

  function GetItem(l: List<Json>, n: nat, q: Path): Option<Json> {
    if Nth(l, n).None? then None else Get(Nth(l, n).value, q)
  }

  lemma {:induction false} SetItemMissesDotted(l: List<Json>, n: nat, p: Path, x: Json, m: nat, q: Path)
    requires SetItem(l, n, p, x).Some? && !Dotted(p) && Dotted(q) && Undotted(x)
    ensures var r := GetItem(SetItem(l, n, p, x).value, m, q); r == GetItem(l, m, q) || r.None?
    decreases l, 0
  {
    if n == 0 {
      if m == 0 {
        SetMissesDotted(l.head, p, x, q);
      }
    } else if m > 0 {
      SetItemMissesDotted(l.tail, n - 1, p, x, m - 1, q);
    }
  }

  // ---------------------------------------------------------------- runs of writes

  datatype Edit = Edit(parts: Path, value: Json)

  function Apply(v: Json, edits: seq<Edit>): Option<Json>
    decreases |edits|
  {
    if edits == [] then Some(v)
    else
      var r := SetParts(v, edits[0].parts, edits[0].value);
      if r.None? then None else Apply(r.value, edits[1..])
  }

  lemma {:induction false} ApplyAppend(v: Json, a: seq<Edit>, b: seq<Edit>)
    ensures Apply(v, a + b) == if Apply(v, a).None? then None else Apply(Apply(v, a).value, b)
    decreases |a|
  {
    if a == [] {
      assert a + b == b;
    } else {
      assert (a + b)[1..] == a[1..] + b;
      var r := SetParts(v, a[0].parts, a[0].value);
      if r.Some? {
        ApplyAppend(r.value, a[1..], b);
      }
    }
  }

  lemma {:induction false} ApplyMissesDotted(v: Json, edits: seq<Edit>, q: Path)
    requires Apply(v, edits).Some? && Dotted(q)
    requires forall e :: e in edits ==> !Dotted(e.parts) && Undotted(e.value)
    ensures Get(Apply(v, edits).value, q) == Get(v, q) || Get(Apply(v, edits).value, q).None?
    decreases |edits|
  {
    if edits != [] {
      assert edits[0] in edits;
      SetMissesDotted(v, edits[0].parts, edits[0].value, q);
      ApplyMissesDotted(SetParts(v, edits[0].parts, edits[0].value).value, edits[1..], q);
    }
  }

  /** The same writes one level further down. */
  function Under(key: string, edits: seq<Edit>): (r: seq<Edit>)
    ensures |r| == |edits|
    ensures forall i :: 0 <= i < |r| ==> r[i] == Edit([key] + edits[i].parts, edits[i].value)
  {
    if edits == [] then [] else [Edit([key] + edits[0].parts, edits[0].value)] + Under(key, edits[1..])
  }

  function UpdateField(l: List<Field>, key: string, v: Json): List<Field> {
    match l
    case Nil => Nil
    case Cons(f, rest) => if f.key == key then Cons(Field(key, v), rest) else Cons(f, UpdateField(rest, key, v))
  }

  lemma {:induction false} SetUnderField(l: List<Field>, key: string, p: Path, x: Json)
    requires Lookup(l, key).Some?
    ensures var c := SetParts(Lookup(l, key).value, p, x);
            SetParts(Obj(l), [key] + p, x) == if c.None? then None else Some(Obj(UpdateField(l, key, c.value)))
    decreases l
  {
    assert ([key] + p)[1..] == p;
    if l.head.key != key {
      SetUnderField(l.tail, key, p, x);
    }
  }

  lemma {:induction false} UpdateTwice(l: List<Field>, key: string, v: Json, w: Json)
    requires Lookup(l, key).Some?
    ensures Lookup(UpdateField(l, key, v), key) == Some(v)
    ensures UpdateField(UpdateField(l, key, v), key, w) == UpdateField(l, key, w)
  {
    if l.head.key != key {
      UpdateTwice(l.tail, key, v, w);
    }
  }

  lemma {:induction false} UpdateOther(l: List<Field>, key: string, v: Json, other: string)
    requires other != key
    ensures Lookup(UpdateField(l, key, v), other) == Lookup(l, other)
  {
    if l.Cons? && l.head.key != key {
      UpdateOther(l.tail, key, v, other);
    }
  }

  lemma {:induction false} UpdateSame(l: List<Field>, key: string)
    requires Lookup(l, key).Some?
    ensures UpdateField(l, key, Lookup(l, key).value) == l
  {
    if l.head.key != key {
      UpdateSame(l.tail, key);
    }
  }

  lemma {:induction false} UpdateDistinct(l: List<Field>, key: string, v: Json)
    requires DistinctKeys(l)
    ensures DistinctKeys(UpdateField(l, key, v))
  {
    if l.Cons? {
      if l.head.key != key {
        UpdateDistinct(l.tail, key, v);
        UpdateOther(l.tail, key, v, l.head.key);
      }
    }
  }

  /** Writes under one key of an object act on that key's value alone. */
  lemma {:induction false} ApplyUnderField(l: List<Field>, key: string, edits: seq<Edit>)
    requires Lookup(l, key).Some?
    ensures var c := Apply(Lookup(l, key).value, edits);
            Apply(Obj(l), Under(key, edits)) == if c.None? then None else Some(Obj(UpdateField(l, key, c.value)))
    decreases |edits|
  {
    var child := Lookup(l, key).value;
    if edits == [] {
      UpdateSame(l, key);
    } else {
      var c := SetParts(child, edits[0].parts, edits[0].value);
      SetUnderField(l, key, edits[0].parts, edits[0].value);
      assert Under(key, edits)[1..] == Under(key, edits[1..]);
      if c.Some? {
        var l' := UpdateField(l, key, c.value);
        UpdateTwice(l, key, c.value, c.value);
        ApplyUnderField(l', key, edits[1..]);
        var d := Apply(c.value, edits[1..]);
        if d.Some? {
          UpdateTwice(l, key, c.value, d.value);
        }
      }
    }
  }

  function UpdateItem(l: List<Json>, n: nat, v: Json): List<Json> {
    match l
    case Nil => Nil
    case Cons(w, rest) => if n == 0 then Cons(v, rest) else Cons(w, UpdateItem(rest, n - 1, v))
  }

  lemma {:induction false} SetUnderItem(l: List<Json>, n: nat, p: Path, x: Json)
    requires Nth(l, n).Some?
    ensures var c := SetParts(Nth(l, n).value, p, x);
            SetItem(l, n, p, x) == if c.None? then None else Some(UpdateItem(l, n, c.value))
    decreases l
  {
    if n > 0 {
      SetUnderItem(l.tail, n - 1, p, x);
    }
  }

  lemma {:induction false} UpdateItemTwice(l: List<Json>, n: nat, v: Json, w: Json)
    requires Nth(l, n).Some?
    ensures Nth(UpdateItem(l, n, v), n) == Some(v)
    ensures UpdateItem(UpdateItem(l, n, v), n, w) == UpdateItem(l, n, w)
  {
    if n > 0 {
      UpdateItemTwice(l.tail, n - 1, v, w);
    }
  }

  lemma {:induction false} UpdateItemSame(l: List<Json>, n: nat)
    requires Nth(l, n).Some?
    ensures UpdateItem(l, n, Nth(l, n).value) == l
  {
    if n > 0 {
      UpdateItemSame(l.tail, n - 1);
    }
  }

  /** Writes under one index of a list act on that item alone. */
  lemma {:induction false} ApplyUnderItem(l: List<Json>, n: nat, edits: seq<Edit>)
    requires Nth(l, n).Some?
    ensures var c := Apply(Nth(l, n).value, edits);
            Apply(Arr(l), Under(Decimal(n), edits)) == if c.None? then None else Some(Arr(UpdateItem(l, n, c.value)))
    decreases |edits|
  {
    var child := Nth(l, n).value;
    ParseDecimal(n);
    if edits == [] {
      UpdateItemSame(l, n);
    } else {
      var p := edits[0].parts;
      var c := SetParts(child, p, edits[0].value);
      SetUnderItem(l, n, p, edits[0].value);
      assert ([Decimal(n)] + p)[1..] == p;
      assert Under(Decimal(n), edits)[1..] == Under(Decimal(n), edits[1..]);
      if c.Some? {
        var l' := UpdateItem(l, n, c.value);
        UpdateItemTwice(l, n, c.value, c.value);
        ApplyUnderItem(l', n, edits[1..]);
        var d := Apply(c.value, edits[1..]);
        if d.Some? {
          UpdateItemTwice(l, n, c.value, d.value);
        }
      }
    }
  }
}
