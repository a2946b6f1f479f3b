/**
 The canonical serialisation of backend/audit.py: keys sorted at every level, no whitespace.

 Keys are compared by code point, as Python compares strings.  Sorting is an insertion sort over
 the list of fields; what is proved about it does not depend on how it sorts: every key keeps its
 value, the keys come out in increasing order, and two lists of increasing keys with the same
 values are one list.  Hence the text does not show in which order a dict was built, and it
 tells values apart that differ in anything else.
 */
module CanonicalJson {
  import opened Wrappers
  import opened Json

  /** String order by code point. */
  predicate Less(s: string, t: string) {
    if t == "" then false
    else if s == "" then true
    else s[0] < t[0] || (s[0] == t[0] && Less(s[1..], t[1..]))
  }

  lemma {:induction false} LessTotal(s: string, t: string)
    ensures Less(s, t) || s == t || Less(t, s)
  {
    if s != "" && t != "" {
      LessTotal(s[1..], t[1..]);
      assert s == [s[0]] + s[1..] && t == [t[0]] + t[1..];
    }
  }

  lemma {:induction false} LessIrreflexive(s: string)
    ensures !Less(s, s)
  {
    if s != "" {
      LessIrreflexive(s[1..]);
    }
  }

  lemma {:induction false} LessTransitive(s: string, t: string, u: string)
    requires Less(s, t) && Less(t, u)
    ensures Less(s, u)
  {
    if s != "" && s[0] == t[0] && t[0] == u[0] {
      LessTransitive(s[1..], t[1..], u[1..]);
    }
  }

  function Insert(f: Field, l: List<Field>): List<Field> {
    if l.Nil? || Less(f.key, l.head.key) then Cons(f, l) else Cons(l.head, Insert(f, l.tail))
  }

  /** The value with the keys of every object in it in order. */
  function Sort(v: Json): Json {
    match v
    case Arr(items) => Arr(SortItems(items))
    case Obj(fields) => Obj(SortFields(fields))
    case _ => v
  }

  function SortItems(l: List<Json>): List<Json> {
    if l.Nil? then Nil else Cons(Sort(l.head), SortItems(l.tail))
  }

  function SortFields(l: List<Field>): List<Field> {
    if l.Nil? then Nil else Insert(Field(l.head.key, Sort(l.head.value)), SortFields(l.tail))
  }

  function Canonical(v: Json): string {
    Text(Sort(v), Compact)
  }

  lemma {:induction false} InsertValid(f: Field, l: List<Field>)
    requires Valid(f.value) && ValidFields(l)
    ensures ValidFields(Insert(f, l))
  {
    if l.Cons? && !Less(f.key, l.head.key) {
      InsertValid(f, l.tail);
    }
  }

  lemma {:induction false} SortValid(v: Json)
    requires Valid(v)
    ensures Valid(Sort(v))
    decreases v
  {
    match v
    case Arr(items) => SortItemsValid(items);
    case Obj(fields) => SortFieldsValid(fields);
    case _ =>
  }

  lemma {:induction false} SortItemsValid(l: List<Json>)
    requires ValidItems(l)
    ensures ValidItems(SortItems(l))
    decreases l
  {
    if l.Cons? {
      SortValid(l.head);
      SortItemsValid(l.tail);
    }
  }

  lemma {:induction false} SortFieldsValid(l: List<Field>)
    requires ValidFields(l)
    ensures ValidFields(SortFields(l))
    decreases l
  {
    if l.Cons? {
      SortValid(l.head.value);
      SortFieldsValid(l.tail);
      InsertValid(Field(l.head.key, Sort(l.head.value)), SortFields(l.tail));
    }
  }

  /** Equal canonical texts mean equal values up to the order of object keys, and conversely. */
  lemma CanonicalFaithful(a: Json, b: Json)
    requires Valid(a) && Valid(b)
    ensures Canonical(a) == Canonical(b) <==> Sort(a) == Sort(b)
  {
    SortValid(a);
    SortValid(b);
    if Canonical(a) == Canonical(b) {
      DumpsInjective(Sort(a), Sort(b), Compact);
    }
  }

  // ---------------------------------------------------------------- key order does not matter

  function Lookup(l: List<Field>, key: string): Option<Json> {
    if l.Nil? then None
    else if l.head.key == key then Some(l.head.value)
    else Lookup(l.tail, key)
  }

  ghost predicate DistinctKeys(l: List<Field>) {
    l.Cons? ==> Lookup(l.tail, l.head.key).None? && DistinctKeys(l.tail)
  }

  /** Every key of l comes after key. */
  ghost predicate AllAfter(key: string, l: List<Field>) {
    l.Cons? ==> Less(key, l.head.key) && AllAfter(key, l.tail)
  }

  ghost predicate Increasing(l: List<Field>) {
    l.Cons? ==> AllAfter(l.head.key, l.tail) && Increasing(l.tail)
  }

  lemma {:induction false} AllAfterWeaken(j: string, k: string, l: List<Field>)
    requires Less(j, k) && AllAfter(k, l)
    ensures AllAfter(j, l)
  {
    if l.Cons? {
      LessTransitive(j, k, l.head.key);
      AllAfterWeaken(j, k, l.tail);
    }
  }

  lemma {:induction false} AllAfterAbsent(k: string, l: List<Field>)
    requires AllAfter(k, l)
    ensures Lookup(l, k).None?
  {
    if l.Cons? {
      LessIrreflexive(k);
      AllAfterAbsent(k, l.tail);
    }
  }

  lemma {:induction false} AllAfterInsert(k: string, f: Field, l: List<Field>)
    requires Less(k, f.key) && AllAfter(k, l)
    ensures AllAfter(k, Insert(f, l))
  {
    if l.Cons? && !Less(f.key, l.head.key) {
      AllAfterInsert(k, f, l.tail);
    }
  }

  lemma {:induction false} InsertIncreasing(f: Field, l: List<Field>)
    requires Increasing(l) && Lookup(l, f.key).None?
    ensures Increasing(Insert(f, l))
  {
    if l.Cons? {
      if Less(f.key, l.head.key) {
        AllAfterWeaken(f.key, l.head.key, l.tail);
      } else {
        LessTotal(f.key, l.head.key);
        InsertIncreasing(f, l.tail);
        AllAfterInsert(l.head.key, f, l.tail);
      }
    }
  }

  lemma {:induction false} InsertLookup(f: Field, l: List<Field>, key: string)
    requires Lookup(l, f.key).None?
    ensures Lookup(Insert(f, l), key) == if key == f.key then Some(f.value) else Lookup(l, key)
  {
    if l.Cons? && !Less(f.key, l.head.key) {
      InsertLookup(f, l.tail, key);
    }
  }

  function SortedValue(v: Option<Json>): Option<Json> {
    if v.None? then None else Some(Sort(v.value))
  }

  /** Sorting keeps every key with its (sorted) value. */
  lemma {:induction false} SortFieldsLookup(l: List<Field>, key: string)
    requires DistinctKeys(l)
    ensures Lookup(SortFields(l), key) == SortedValue(Lookup(l, key))
  {
    if l.Cons? {
      SortFieldsLookup(l.tail, key);
      SortFieldsLookup(l.tail, l.head.key);
      InsertLookup(Field(l.head.key, Sort(l.head.value)), SortFields(l.tail), key);
    }
  }

  lemma {:induction false} SortFieldsIncreasing(l: List<Field>)
    requires DistinctKeys(l)
    ensures Increasing(SortFields(l))
  {
    if l.Cons? {
      SortFieldsIncreasing(l.tail);
      SortFieldsLookup(l.tail, l.head.key);
      InsertIncreasing(Field(l.head.key, Sort(l.head.value)), SortFields(l.tail));
    }
  }

  lemma IncreasingHead(a: List<Field>, b: List<Field>)
    requires a.Cons? && b.Cons? && Increasing(b) && Less(a.head.key, b.head.key)
    ensures Lookup(b, a.head.key).None?
  {
    AllAfterWeaken(a.head.key, b.head.key, b.tail);
    AllAfterAbsent(a.head.key, b);
  }

  lemma HeadKey(l: List<Field>)
    requires l.Cons?
    ensures Lookup(l, l.head.key) == Some(l.head.value)
  {
  }

  lemma {:induction false} IncreasingUnique(a: List<Field>, b: List<Field>)
    requires Increasing(a) && Increasing(b)
    requires forall k :: Lookup(a, k) == Lookup(b, k)
    ensures a == b
  {
    if a.Nil? {
      if b.Cons? {
        HeadKey(b);
      }
    } else if b.Nil? {
      HeadKey(a);
    } else {
      HeadKey(a);
      HeadKey(b);
      LessTotal(a.head.key, b.head.key);
      if Less(a.head.key, b.head.key) {
        IncreasingHead(a, b);
      } else if Less(b.head.key, a.head.key) {
        IncreasingHead(b, a);
      } else {
        AllAfterAbsent(a.head.key, a.tail);
        AllAfterAbsent(b.head.key, b.tail);
        forall k ensures Lookup(a.tail, k) == Lookup(b.tail, k) {
          assert Lookup(a, k) == Lookup(b, k);
        }
        IncreasingUnique(a.tail, b.tail);
      }
    }
  }

  /** Two dicts with the same items have one canonical text, whatever order they were built in. */
  lemma CanonicalIgnoresKeyOrder(a: List<Field>, b: List<Field>)
    requires DistinctKeys(a) && DistinctKeys(b)
    requires forall k :: Lookup(a, k) == Lookup(b, k)
    ensures Canonical(Obj(a)) == Canonical(Obj(b))
  {
    forall k ensures Lookup(SortFields(a), k) == Lookup(SortFields(b), k) {
      SortFieldsLookup(a, k);
      SortFieldsLookup(b, k);
    }
    SortFieldsIncreasing(a);
    SortFieldsIncreasing(b);
    IncreasingUnique(SortFields(a), SortFields(b));
  }

  // ---------------------------------------------------------------- one document in both styles

  lemma SampleItems(style: Style)
    ensures ItemsText(Cons(Num("1"), Cons(Bool(true), Cons(Null, Nil))), style)
         == "1" + (Comma(style) + ("true" + (Comma(style) + ("null" + "]"))))
  {
    var l3: List<Json> := Cons(Null, Nil);
    var l2 := Cons(Bool(true), l3);
    assert ItemsText(l3, style) == "null" + "]";
    assert ItemsText(l2, style) == "true" + (Comma(style) + ItemsText(l3, style));
  }

  lemma SampleQuotes()
    ensures Quote("a") == "\"a\"" && Quote("b") == "\"b\"" && Quote("x\"y") == "\"x\\\"y\""
  {
    assert Escape("") == "" && "a"[1..] == "" && "b"[1..] == "";
    assert "x\"y"[1..] == "\"y" && "\"y"[1..] == "y" && "y"[1..] == "";
    assert Escape("y") == "y";
    assert Escape("\"y") == "\\\"" + "y" == "\\\"y";
    assert Escape("x\"y") == "x" + "\\\"y";
  }

  lemma PairText(x: Field, y: Field, style: Style)
    ensures Text(Obj(Cons(x, Cons(y, Nil))), style)
         == "{" + (Quote(x.key) + Colon(style) + Text(x.value, style) + (Comma(style)
                   + (Quote(y.key) + Colon(style) + Text(y.value, style) + "}")))
  {
    assert FieldsText(Cons(y, Nil), style) == Quote(y.key) + Colon(style) + Text(y.value, style) + "}";
  }

  lemma PairSorted(x: Field, y: Field)
    requires Less(y.key, x.key) && Sort(x.value) == x.value && Sort(y.value) == y.value
    ensures Sort(Obj(Cons(x, Cons(y, Nil)))) == Obj(Cons(y, Cons(x, Nil)))
  {
    LessIrreflexive(x.key);
    if Less(x.key, y.key) {
      LessTransitive(x.key, y.key, x.key);
    }
    var ys: List<Field> := Cons(y, Nil);
    assert Field(x.key, Sort(x.value)) == x && Field(y.key, Sort(y.value)) == y;
    assert SortFields(ys.tail) == Nil && SortFields(ys) == Insert(y, Nil) == ys;
    assert Insert(x, ys) == Cons(y, Insert(x, Nil));
    assert SortFields(Cons(x, ys)) == Insert(x, ys);
  }

  function SampleB(): Field { Field("b", Arr(Cons(Num("1"), Cons(Bool(true), Cons(Null, Nil))))) }

  function SampleA(): Field { Field("a", Str("x\"y")) }

  lemma SampleSpaced()
    ensures Text(SampleB().value, Spaced) == "[1, true, null]" && Text(SampleB().value, Compact) == "[1,true,null]"
  {
    SampleItems(Spaced);
    SampleItems(Compact);
  }

  lemma SampleSorted()
    ensures Sort(Obj(Cons(SampleB(), Cons(SampleA(), Nil)))) == Obj(Cons(SampleA(), Cons(SampleB(), Nil)))
  {
    assert Less("a", "b");
    PairSorted(SampleB(), SampleA());
  }

  /** Stored with spaces in the order of the dict, hashed without them in the order of the keys. */
  lemma SampleTexts()
    ensures var sample := Obj(Cons(SampleB(), Cons(SampleA(), Nil)));
            && Text(sample, Spaced)
               == "{" + ("\"b\"" + ": " + "[1, true, null]" + (", " + ("\"a\"" + ": " + "\"x\\\"y\"" + "}")))
            && Canonical(sample)
               == "{" + ("\"a\"" + ":" + "\"x\\\"y\"" + ("," + ("\"b\"" + ":" + "[1,true,null]" + "}")))
  {
    SampleQuotes();
    SampleSpaced();
    SampleSorted();
    PairText(SampleB(), SampleA(), Spaced);
    PairText(SampleA(), SampleB(), Compact);
  }
}
