/**
 The walk of backend/block_redaction.py over one JSON value, and the two readings of what the
 redaction does with it: path writes into a copy, one for each visited place that has reasons,
 and one recursive map.  How a place is redacted is a parameter.
 */
module RedactionWalk {
  import opened Wrappers
  import opened Strings
  import opened Json
  import opened CanonicalJson
  import opened JsonTree

  /** The new value and the reasons; without reasons the value stays. */
  datatype Redaction = Redaction(value: Json, reasons: seq<string>)

  type Redactor = (string, Json) -> Redaction

  function KsEnvelopeKeys(): seq<string> {
    ["fmt", "alg", "dek", "tid", "nonce_b64", "ciphertext_b64"]
  }

  predicate IsKsEnvelope(v: Json) {
    v.Obj? && forall key :: key in KsEnvelopeKeys() ==> Lookup(v.fields, key).Some?
  }

  predicate IsKsBoundary(v: Json) {
    v.Obj? && (Lookup(v.fields, "ciphertext").Some? || Lookup(v.fields, "dek_ref").Some?)
  }

  /** Where the walk yields a value instead of going into it. */
  predicate Stops(v: Json) {
    IsKsEnvelope(v) || IsKsBoundary(v) || !(v.Obj? || v.Arr?)
  }

  // ---------------------------------------------------------------- the walk

  datatype Visit = Visit(path: string, value: Json)

  function Walk(path: string, v: Json): seq<Visit>
    decreases v, 1
  {
    if Stops(v) then [Visit(path, v)]
    else match v
      case Obj(fields) => WalkFields(path, fields)
      case Arr(items) => WalkItems(path, items, 0)
  }

  function WalkFields(path: string, l: List<Field>): seq<Visit>
    decreases l, 0
  {
    match l
    case Nil => []
    case Cons(f, rest) => Walk(path + "." + f.key, f.value) + WalkFields(path, rest)
  }

  function WalkItems(path: string, l: List<Json>, n: nat): seq<Visit>
    decreases l, 0
  {
    match l
    case Nil => []
    case Cons(v, rest) => Walk(path + "." + Decimal(n), v) + WalkItems(path, rest, n + 1)
  }

  /** A visited place by its keys and indexes, from the walked value down. */
  datatype Node = Node(parts: Path, value: Json)

  function Nodes(v: Json): seq<Node>
    decreases v, 1
  {
    if Stops(v) then [Node([], v)]
    else match v
      case Obj(fields) => FieldNodes(fields)
      case Arr(items) => ItemNodes(items, 0)
  }

  function FieldNodes(l: List<Field>): seq<Node>
    decreases l, 0
  {
    match l
    case Nil => []
    case Cons(f, rest) => Below(f.key, Nodes(f.value)) + FieldNodes(rest)
  }

  function ItemNodes(l: List<Json>, n: nat): seq<Node>
    decreases l, 0
  {
    match l
    case Nil => []
    case Cons(v, rest) => Below(Decimal(n), Nodes(v)) + ItemNodes(rest, n + 1)
  }

  function Below(key: string, nodes: seq<Node>): (r: seq<Node>)
    ensures |r| == |nodes|
    ensures forall i :: 0 <= i < |r| ==> r[i] == Node([key] + nodes[i].parts, nodes[i].value)
  {
    if nodes == [] then [] else [Node([key] + nodes[0].parts, nodes[0].value)] + Below(key, nodes[1..])
  }

  function VisitsOf(at: Path, nodes: seq<Node>): (r: seq<Visit>)
    ensures |r| == |nodes|
    ensures forall i :: 0 <= i < |r| ==> r[i] == Visit(JoinDots(at + nodes[i].parts), nodes[i].value)
  {
    if nodes == [] then []
    else [Visit(JoinDots(at + nodes[0].parts), nodes[0].value)] + VisitsOf(at, nodes[1..])
  }

  lemma VisitsBelow(at: Path, key: string, nodes: seq<Node>)
    ensures VisitsOf(at, Below(key, nodes)) == VisitsOf(at + [key], nodes)
  {
    forall i | 0 <= i < |nodes| ensures VisitsOf(at, Below(key, nodes))[i] == VisitsOf(at + [key], nodes)[i] {
      assert at + ([key] + nodes[i].parts) == (at + [key]) + nodes[i].parts;
    }
  }

  lemma VisitsAppend(at: Path, a: seq<Node>, b: seq<Node>)
    ensures VisitsOf(at, a + b) == VisitsOf(at, a) + VisitsOf(at, b)
  {
  }

  /** The dotted paths of the walk are the joined keys and indexes. */
  lemma {:induction false} WalkVisits(at: Path, v: Json)
    requires at != []
    ensures Walk(JoinDots(at), v) == VisitsOf(at, Nodes(v))
    decreases v, 1
  {
    if Stops(v) {
      assert at + [] == at;
    } else {
      match v
      case Obj(fields) => WalkFieldVisits(at, fields);
      case Arr(items) => WalkItemVisits(at, items, 0);
    }
  }

  lemma {:induction false} WalkFieldVisits(at: Path, l: List<Field>)
    requires at != []
    ensures WalkFields(JoinDots(at), l) == VisitsOf(at, FieldNodes(l))
    decreases l, 0
  {
    match l
    case Nil =>
    case Cons(f, rest) =>
      JoinAppend(at, f.key);
      WalkVisits(at + [f.key], f.value);
      WalkFieldVisits(at, rest);
      VisitsBelow(at, f.key, Nodes(f.value));
      VisitsAppend(at, Below(f.key, Nodes(f.value)), FieldNodes(rest));
  }

  lemma {:induction false} WalkItemVisits(at: Path, l: List<Json>, n: nat)
    requires at != []
    ensures WalkItems(JoinDots(at), l, n) == VisitsOf(at, ItemNodes(l, n))
    decreases l, 0
  {
    match l
    case Nil =>
    case Cons(v, rest) =>
      JoinAppend(at, Decimal(n));
      WalkVisits(at + [Decimal(n)], v);
      WalkItemVisits(at, rest, n + 1);
      VisitsBelow(at, Decimal(n), Nodes(v));
      VisitsAppend(at, Below(Decimal(n), Nodes(v)), ItemNodes(rest, n + 1));
  }

  // ---------------------------------------------------------------- visited places

  ghost predicate PairwiseApart(nodes: seq<Node>) {
    forall i, j :: 0 <= i < j < |nodes| ==> Apart(nodes[i].parts, nodes[j].parts)
  }

  lemma BelowApart(key: string, nodes: seq<Node>)
    requires PairwiseApart(nodes)
    ensures PairwiseApart(Below(key, nodes))
  {
    var r := Below(key, nodes);
    forall i, j | 0 <= i < j < |r| ensures Apart(r[i].parts, r[j].parts) {
      ApartUnder(key, nodes[i].parts, nodes[j].parts);
    }
  }

  /** None of the nodes is reached through key. */
  ghost predicate Avoids(key: string, nodes: seq<Node>) {
    forall i :: 0 <= i < |nodes| ==> nodes[i].parts != [] && nodes[i].parts[0] != key
  }

  lemma AppendApart(key: string, a: seq<Node>, b: seq<Node>)
    requires PairwiseApart(a) && PairwiseApart(b) && Avoids(key, b)
    ensures PairwiseApart(Below(key, a) + b)
  {
    BelowApart(key, a);
    var c, r := Below(key, a), Below(key, a) + b;
    forall i, j | 0 <= i < j < |r| ensures Apart(r[i].parts, r[j].parts) {
      if i < |c| <= j {
        assert r[i].parts[0] == key && r[j] == b[j - |c|];
      }
    }
  }

  lemma {:induction false} FieldsAvoid(key: string, l: List<Field>)
    requires Lookup(l, key).None?
    ensures Avoids(key, FieldNodes(l))
    decreases l
  {
    if l.Cons? {
      FieldsAvoid(key, l.tail);
    }
  }

  lemma {:induction false} ItemsAvoid(m: nat, l: List<Json>, n: nat)
    requires m < n
    ensures Avoids(Decimal(m), ItemNodes(l, n))
    decreases l
  {
    if l.Cons? {
      ItemsAvoid(m, l.tail, n + 1);
      if Decimal(m) == Decimal(n) {
        DecimalInjective(m, n);
      }
    }
  }

  /** No visited place lies inside another. */
  lemma {:induction false} NodesApart(v: Json)
    requires Dicts(v)
    ensures PairwiseApart(Nodes(v))
    decreases v, 1
  {
    if !Stops(v) {
      match v
      case Obj(fields) => FieldNodesApart(fields);
      case Arr(items) => ItemNodesApart(items, 0);
    }
  }

  lemma {:induction false} FieldNodesApart(l: List<Field>)
    requires DistinctKeys(l) && DictFields(l)
    ensures PairwiseApart(FieldNodes(l))
    decreases l, 0
  {
    if l.Cons? {
      NodesApart(l.head.value);
      FieldNodesApart(l.tail);
      FieldsAvoid(l.head.key, l.tail);
      AppendApart(l.head.key, Nodes(l.head.value), FieldNodes(l.tail));
    }
  }

  lemma {:induction false} ItemNodesApart(l: List<Json>, n: nat)
    requires DictItems(l)
    ensures PairwiseApart(ItemNodes(l, n))
    decreases l, 0
  {
    if l.Cons? {
      NodesApart(l.head);
      ItemNodesApart(l.tail, n + 1);
      ItemsAvoid(n, l.tail, n + 1);
      AppendApart(Decimal(n), Nodes(l.head), ItemNodes(l.tail, n + 1));
    }
  }

  // ---------------------------------------------------------------- the recursive map

  function New(redact: Redactor, path: string, v: Json): Json {
    if redact(path, v).reasons != [] then redact(path, v).value else v
  }

  /** Every visited place below `at` replaced by its redaction, everything else as it was. */
  function MapTree(at: Path, v: Json, redact: Redactor): Json
    decreases v, 1
  {
    if Stops(v) then New(redact, JoinDots(at), v)
    else match v
      case Obj(fields) => Obj(MapFields(at, fields, redact))
      case Arr(items) => Arr(MapItems(at, items, 0, redact))
  }

  function MapFields(at: Path, l: List<Field>, redact: Redactor): List<Field>
    decreases l, 0
  {
    match l
    case Nil => Nil
    case Cons(f, rest) =>
      Cons(Field(f.key, MapTree(at + [f.key], f.value, redact)), MapFields(at, rest, redact))
  }

  function MapItems(at: Path, l: List<Json>, n: nat, redact: Redactor): List<Json>
    decreases l, 0
  {
    match l
    case Nil => Nil
    case Cons(v, rest) =>
      Cons(MapTree(at + [Decimal(n)], v, redact), MapItems(at, rest, n + 1, redact))
  }

  /** One write for every node that has reasons. */
  function EditsOf(at: Path, nodes: seq<Node>, redact: Redactor): seq<Edit> {
    if nodes == [] then []
    else
      var r := redact(JoinDots(at + nodes[0].parts), nodes[0].value);
      (if r.reasons != [] then [Edit(nodes[0].parts, r.value)] else []) + EditsOf(at, nodes[1..], redact)
  }

  lemma {:induction false} EditsAppend(at: Path, a: seq<Node>, b: seq<Node>, redact: Redactor)
    ensures EditsOf(at, a + b, redact) == EditsOf(at, a, redact) + EditsOf(at, b, redact)
    decreases |a|
  {
    if a == [] {
      assert a + b == b;
    } else {
      assert (a + b)[1..] == a[1..] + b;
      EditsAppend(at, a[1..], b, redact);
    }
  }

  lemma {:induction false} EditsBelow(at: Path, key: string, nodes: seq<Node>, redact: Redactor)
    ensures EditsOf(at, Below(key, nodes), redact) == Under(key, EditsOf(at + [key], nodes, redact))
    decreases |nodes|
  {
    if nodes != [] {
      assert at + ([key] + nodes[0].parts) == (at + [key]) + nodes[0].parts;
      assert Below(key, nodes)[1..] == Below(key, nodes[1..]);
      EditsBelow(at, key, nodes[1..], redact);
      var r := redact(JoinDots((at + [key]) + nodes[0].parts), nodes[0].value);
      if r.reasons != [] {
        var rest := EditsOf(at + [key], nodes[1..], redact);
        assert ([Edit(nodes[0].parts, r.value)] + rest)[1..] == rest;
      }
    }
  }

  // ---------------------------------------------------------------- writes refine to the map

  /** Every field of rest is in l. */
  ghost predicate Holds(l: List<Field>, rest: List<Field>) {
    rest.Cons? ==> Lookup(l, rest.head.key) == Some(rest.head.value) && Holds(l, rest.tail)
  }

  function UpdateFields(l: List<Field>, news: List<Field>): List<Field>
    decreases news
  {
    if news.Nil? then l else UpdateFields(UpdateField(l, news.head.key, news.head.value), news.tail)
  }

  lemma {:induction false} HoldsUpdate(l: List<Field>, rest: List<Field>, key: string, v: Json)
    requires Holds(l, rest) && Lookup(rest, key).None?
    ensures Holds(UpdateField(l, key, v), rest)
    decreases rest
  {
    if rest.Cons? {
      UpdateOther(l, key, v, rest.head.key);
      HoldsUpdate(l, rest.tail, key, v);
    }
  }

  lemma {:induction false} HoldsCons(f: Field, l: List<Field>, rest: List<Field>)
    requires Holds(l, rest) && Lookup(rest, f.key).None?
    ensures Holds(Cons(f, l), rest)
    decreases rest
  {
    if rest.Cons? {
      HoldsCons(f, l, rest.tail);
    }
  }

  lemma {:induction false} HoldsItself(l: List<Field>)
    requires DistinctKeys(l)
    ensures Holds(l, l)
  {
    if l.Cons? {
      HoldsItself(l.tail);
      HoldsCons(l.head, l.tail, l.tail);
    }
  }

  lemma {:induction false} UpdatesSkip(f: Field, l: List<Field>, news: List<Field>)
    requires Lookup(news, f.key).None?
    ensures UpdateFields(Cons(f, l), news) == Cons(f, UpdateFields(l, news))
    decreases news
  {
    if news.Cons? {
      UpdatesSkip(f, UpdateField(l, news.head.key, news.head.value), news.tail);
    }
  }

  lemma {:induction false} MapFieldsKeys(at: Path, l: List<Field>, redact: Redactor, key: string)
    ensures Lookup(MapFields(at, l, redact), key) ==
            if Lookup(l, key).None? then None else Some(MapTree(at + [key], Lookup(l, key).value, redact))
    decreases l
  {
    if l.Cons? {
      MapFieldsKeys(at, l.tail, redact, key);
    }
  }

  lemma {:induction false} UpdatesAreMap(at: Path, l: List<Field>, redact: Redactor)
    requires DistinctKeys(l)
    ensures UpdateFields(l, MapFields(at, l, redact)) == MapFields(at, l, redact)
    decreases l
  {
    if l.Cons? {
      var news := MapFields(at, l, redact);
      MapFieldsKeys(at, l.tail, redact, l.head.key);
      UpdatesSkip(news.head, l.tail, news.tail);
      UpdatesAreMap(at, l.tail, redact);
    }
  }

  function UpdateItems(l: List<Json>, n: nat, news: List<Json>): List<Json>
    decreases news
  {
    if news.Nil? then l else UpdateItems(UpdateItem(l, n, news.head), n + 1, news.tail)
  }

  /** The items of rest stand in l from n on. */
  ghost predicate HoldsItems(l: List<Json>, n: nat, rest: List<Json>)
    decreases rest
  {
    rest.Cons? ==> Nth(l, n) == Some(rest.head) && HoldsItems(l, n + 1, rest.tail)
  }

  lemma {:induction false} NthUpdateOther(l: List<Json>, n: nat, v: Json, m: nat)
    requires m != n
    ensures Nth(UpdateItem(l, n, v), m) == Nth(l, m)
  {
    if l.Cons? && n > 0 && m > 0 {
      NthUpdateOther(l.tail, n - 1, v, m - 1);
    }
  }

  lemma {:induction false} HoldsItemsUpdate(l: List<Json>, m: nat, v: Json, n: nat, rest: List<Json>)
    requires m < n && HoldsItems(l, n, rest)
    ensures HoldsItems(UpdateItem(l, m, v), n, rest)
    decreases rest
  {
    if rest.Cons? {
      NthUpdateOther(l, m, v, n);
      HoldsItemsUpdate(l, m, v, n + 1, rest.tail);
    }
  }

  lemma {:induction false} HoldsItemsCons(v: Json, l: List<Json>, n: nat, rest: List<Json>)
    requires HoldsItems(l, n, rest)
    ensures HoldsItems(Cons(v, l), n + 1, rest)
    decreases rest
  {
    if rest.Cons? {
      HoldsItemsCons(v, l, n + 1, rest.tail);
    }
  }

  lemma {:induction false} HoldsItemsItself(l: List<Json>)
    ensures HoldsItems(l, 0, l)
  {
    if l.Cons? {
      HoldsItemsItself(l.tail);
      HoldsItemsCons(l.head, l.tail, 0, l.tail);
    }
  }

  lemma {:induction false} UpdateItemsSkip(v: Json, l: List<Json>, n: nat, news: List<Json>)
    ensures UpdateItems(Cons(v, l), n + 1, news) == Cons(v, UpdateItems(l, n, news))
    decreases news
  {
    if news.Cons? {
      UpdateItemsSkip(v, UpdateItem(l, n, news.head), n + 1, news.tail);
    }
  }

  lemma {:induction false} ItemUpdatesAreMap(at: Path, l: List<Json>, n: nat, redact: Redactor)
    ensures UpdateItems(l, 0, MapItems(at, l, n, redact)) == MapItems(at, l, n, redact)
    decreases l
  {
    if l.Cons? {
      var news := MapItems(at, l, n, redact);
      UpdateItemsSkip(news.head, l.tail, 0, news.tail);
      ItemUpdatesAreMap(at, l.tail, n + 1, redact);
    }
  }

  /** The writes of a walk, made one after the other, amount to the recursive map. */
  lemma {:induction false} WritesAreMap(at: Path, v: Json, redact: Redactor)
    requires Dicts(v)
    ensures Apply(v, EditsOf(at, Nodes(v), redact)) == Some(MapTree(at, v, redact))
    decreases v, 1
  {
    if Stops(v) {
      assert at + [] == at;
      var r := redact(JoinDots(at), v);
      assert Nodes(v) == [Node([], v)] && Nodes(v)[1..] == [];
      assert EditsOf(at, [], redact) == [];
      if r.reasons != [] {
        assert EditsOf(at, Nodes(v), redact) == [Edit([], r.value)];
        assert Apply(v, [Edit([], r.value)]) == Apply(r.value, []);
      }
    } else {
      match v
      case Obj(fields) =>
        HoldsItself(fields);
        FieldWritesAreMap(at, fields, fields, redact);
        UpdatesAreMap(at, fields, redact);
      case Arr(items) =>
        HoldsItemsItself(items);
        ItemWritesAreMap(at, items, 0, items, redact);
        ItemUpdatesAreMap(at, items, 0, redact);
    }
  }

  lemma {:induction false} FieldWritesAreMap(at: Path, rest: List<Field>, l: List<Field>, redact: Redactor)
    requires DistinctKeys(rest) && DictFields(rest) && Holds(l, rest)
    ensures Apply(Obj(l), EditsOf(at, FieldNodes(rest), redact))
         == Some(Obj(UpdateFields(l, MapFields(at, rest, redact))))
    decreases rest, 0
  {
    if rest.Cons? {
      var key, v := rest.head.key, rest.head.value;
      var mapped := MapTree(at + [key], v, redact);
      WritesAreMap(at + [key], v, redact);
      EditsAppend(at, Below(key, Nodes(v)), FieldNodes(rest.tail), redact);
      EditsBelow(at, key, Nodes(v), redact);
      ApplyUnderField(l, key, EditsOf(at + [key], Nodes(v), redact));
      ApplyAppend(Obj(l), EditsOf(at, Below(key, Nodes(v)), redact), EditsOf(at, FieldNodes(rest.tail), redact));
      HoldsUpdate(l, rest.tail, key, mapped);
      FieldWritesAreMap(at, rest.tail, UpdateField(l, key, mapped), redact);
    }
  }

  lemma {:induction false} ItemWritesAreMap(at: Path, rest: List<Json>, n: nat, l: List<Json>, redact: Redactor)
    requires DictItems(rest) && HoldsItems(l, n, rest)
    ensures Apply(Arr(l), EditsOf(at, ItemNodes(rest, n), redact))
         == Some(Arr(UpdateItems(l, n, MapItems(at, rest, n, redact))))
    decreases rest, 0
  {
    if rest.Cons? {
      var key, v := Decimal(n), rest.head;
      var mapped := MapTree(at + [key], v, redact);
      WritesAreMap(at + [key], v, redact);
      EditsAppend(at, Below(key, Nodes(v)), ItemNodes(rest.tail, n + 1), redact);
      EditsBelow(at, key, Nodes(v), redact);
      ApplyUnderItem(l, n, EditsOf(at + [key], Nodes(v), redact));
      ApplyAppend(Arr(l), EditsOf(at, Below(key, Nodes(v)), redact), EditsOf(at, ItemNodes(rest.tail, n + 1), redact));
      HoldsItemsUpdate(l, n, mapped, n + 1, rest.tail);
      ItemWritesAreMap(at, rest.tail, n + 1, UpdateItem(l, n, mapped), redact);
    }
  }

  // ---------------------------------------------------------------- place by place

  lemma {:induction false} FieldNodeThere(l: List<Field>, n: Node)
    requires DistinctKeys(l) && n in FieldNodes(l)
    ensures n.parts != [] && Lookup(l, n.parts[0]).Some?
    ensures Node(n.parts[1..], n.value) in Nodes(Lookup(l, n.parts[0]).value)
    decreases l
  {
    var head := Below(l.head.key, Nodes(l.head.value));
    if n in head {
      var i :| 0 <= i < |head| && head[i] == n;
      assert n.parts[1..] == Nodes(l.head.value)[i].parts;
    } else {
      FieldNodeThere(l.tail, n);
    }
  }

  lemma {:induction false} ItemNodeThere(l: List<Json>, k: nat, n: Node) returns (m: nat)
    requires n in ItemNodes(l, k)
    ensures n.parts != [] && n.parts[0] == Decimal(k + m) && Nth(l, m).Some?
    ensures Node(n.parts[1..], n.value) in Nodes(Nth(l, m).value)
    decreases l
  {
    var head := Below(Decimal(k), Nodes(l.head));
    if n in head {
      var i :| 0 <= i < |head| && head[i] == n;
      assert n.parts[1..] == Nodes(l.head)[i].parts;
      m := 0;
    } else {
      m := ItemNodeThere(l.tail, k + 1, n);
      m := m + 1;
    }
  }

  lemma {:induction false} MapItemsNth(at: Path, l: List<Json>, k: nat, redact: Redactor, m: nat)
    ensures Nth(MapItems(at, l, k, redact), m) ==
            if Nth(l, m).None? then None else Some(MapTree(at + [Decimal(k + m)], Nth(l, m).value, redact))
    decreases l
  {
    if l.Cons? && m > 0 {
      MapItemsNth(at, l.tail, k + 1, redact, m - 1);
    }
  }

  lemma {:induction false} LookupDicts(l: List<Field>, key: string)
    requires DictFields(l) && Lookup(l, key).Some?
    ensures Dicts(Lookup(l, key).value)
    decreases l
  {
    if l.head.key != key {
      LookupDicts(l.tail, key);
    }
  }

  lemma {:induction false} NthDicts(l: List<Json>, n: nat)
    requires DictItems(l) && Nth(l, n).Some?
    ensures Dicts(Nth(l, n).value)
    decreases l
  {
    if n > 0 {
      NthDicts(l.tail, n - 1);
    }
  }

  /** The first step towards a visited place. */
  lemma NodeChild(v: Json, n: Node)
    requires Dicts(v) && n in Nodes(v) && !Stops(v)
    ensures n.parts != [] && Child(v, n.parts[0]).Some?
    ensures Node(n.parts[1..], n.value) in Nodes(Child(v, n.parts[0]).value)
    ensures Plain(v, [n.parts[0]])
  {
    match v
    case Obj(fields) => FieldNodeThere(fields, n);
    case Arr(items) => ItemNodeChild(items, n);
  }

  lemma ItemNodeChild(items: List<Json>, n: Node)
    requires n in ItemNodes(items, 0)
    ensures n.parts != [] && Child(Arr(items), n.parts[0]).Some? && Plain(Arr(items), [n.parts[0]])
    ensures Node(n.parts[1..], n.value) in Nodes(Child(Arr(items), n.parts[0]).value)
  {
    var i := ItemNodeThere(items, 0, n);
    ParseDecimal(i);
    assert Child(Arr(items), n.parts[0]) == Nth(items, i);
  }

  /** The map acts on each child at its own place. */
  lemma MapChild(at: Path, v: Json, redact: Redactor, key: string)
    requires Dicts(v) && !Stops(v) && Plain(v, [key])
    ensures Child(MapTree(at, v, redact), key) ==
            if Child(v, key).None? then None else Some(MapTree(at + [key], Child(v, key).value, redact))
    ensures Child(v, key).Some? ==> Dicts(Child(v, key).value)
  {
    match v
    case Obj(fields) =>
      MapFieldsKeys(at, fields, redact, key);
      if Lookup(fields, key).Some? {
        LookupDicts(fields, key);
      }
    case Arr(items) =>
      if ParseNat(key).Some? {
        var i := ParseNat(key).value;
        MapItemsNth(at, items, 0, redact, i);
        if Nth(items, i).Some? {
          NthDicts(items, i);
        }
      }
  }

  /** A visited place holds what the walk yielded, and its redaction afterwards. */
  lemma {:induction false} NodeMapped(at: Path, v: Json, redact: Redactor, n: Node)
    requires Dicts(v) && n in Nodes(v)
    ensures Get(v, n.parts) == Some(n.value) && Stops(n.value)
    ensures Get(MapTree(at, v, redact), n.parts) == Some(New(redact, JoinDots(at + n.parts), n.value))
    decreases |n.parts|
  {
    if Stops(v) {
      assert at + [] == at;
    } else {
      NodeChild(v, n);
      MapChild(at, v, redact, n.parts[0]);
      var key, m := n.parts[0], Node(n.parts[1..], n.value);
      NodeMapped(at + [key], Child(v, key).value, redact, m);
      assert at + [key] + m.parts == at + n.parts;
    }
  }

  // ---------------------------------------------------------------- places left alone

  predicate Rewritten(redact: Redactor, at: Path, n: Node) {
    redact(JoinDots(at + n.parts), n.value).reasons != []
  }

  ghost predicate Quiet(redact: Redactor, at: Path, nodes: seq<Node>) {
    forall n :: n in nodes ==> !Rewritten(redact, at, n)
  }

  lemma BelowIn(key: string, nodes: seq<Node>, n: Node)
    requires n in nodes
    ensures Node([key] + n.parts, n.value) in Below(key, nodes)
  {
    var i :| 0 <= i < |nodes| && nodes[i] == n;
    assert Below(key, nodes)[i] == Node([key] + n.parts, n.value);
  }

  lemma RewrittenBelow(redact: Redactor, at: Path, key: string, n: Node)
    ensures Rewritten(redact, at, Node([key] + n.parts, n.value)) <==> Rewritten(redact, at + [key], n)
  {
    assert at + ([key] + n.parts) == (at + [key]) + n.parts;
  }

  lemma QuietBelow(redact: Redactor, at: Path, key: string, nodes: seq<Node>)
    requires Quiet(redact, at, Below(key, nodes))
    ensures Quiet(redact, at + [key], nodes)
  {
    forall n | n in nodes ensures !Rewritten(redact, at + [key], n) {
      BelowIn(key, nodes, n);
      RewrittenBelow(redact, at, key, n);
    }
  }

  lemma {:induction false} QuietTree(at: Path, v: Json, redact: Redactor)
    requires Quiet(redact, at, Nodes(v))
    ensures MapTree(at, v, redact) == v
    decreases v, 1
  {
    if Stops(v) {
      assert Node([], v) in Nodes(v) && at + [] == at;
    } else {
      match v
      case Obj(fields) => QuietFields(at, fields, redact);
      case Arr(items) => QuietItems(at, items, 0, redact);
    }
  }

  lemma {:induction false} QuietFields(at: Path, l: List<Field>, redact: Redactor)
    requires Quiet(redact, at, FieldNodes(l))
    ensures MapFields(at, l, redact) == l
    decreases l, 0
  {
    if l.Cons? {
      QuietBelow(redact, at, l.head.key, Nodes(l.head.value));
      QuietTree(at + [l.head.key], l.head.value, redact);
      QuietFields(at, l.tail, redact);
    }
  }

  lemma {:induction false} QuietItems(at: Path, l: List<Json>, n: nat, redact: Redactor)
    requires Quiet(redact, at, ItemNodes(l, n))
    ensures MapItems(at, l, n, redact) == l
    decreases l, 0
  {
    if l.Cons? {
      QuietBelow(redact, at, Decimal(n), Nodes(l.head));
      QuietTree(at + [Decimal(n)], l.head, redact);
      QuietItems(at, l.tail, n + 1, redact);
    }
  }

  lemma {:induction false} FieldNodeIn(l: List<Field>, key: string, n: Node)
    requires Lookup(l, key).Some? && n in Nodes(Lookup(l, key).value)
    ensures Node([key] + n.parts, n.value) in FieldNodes(l)
    decreases l
  {
    if l.head.key == key {
      BelowIn(key, Nodes(l.head.value), n);
    } else {
      FieldNodeIn(l.tail, key, n);
    }
  }

  lemma {:induction false} ItemNodeIn(l: List<Json>, k: nat, m: nat, n: Node)
    requires Nth(l, m).Some? && n in Nodes(Nth(l, m).value)
    ensures Node([Decimal(k + m)] + n.parts, n.value) in ItemNodes(l, k)
    decreases l
  {
    if m == 0 {
      BelowIn(Decimal(k), Nodes(l.head), n);
    } else {
      ItemNodeIn(l.tail, k + 1, m - 1, n);
    }
  }

  lemma ChildNodeIn(v: Json, key: string, n: Node)
    requires !Stops(v) && Plain(v, [key])
    requires Child(v, key).Some? && n in Nodes(Child(v, key).value)
    ensures Node([key] + n.parts, n.value) in Nodes(v)
  {
    match v
    case Obj(fields) => FieldNodeIn(fields, key, n);
    case Arr(items) => ItemNodeIn(items, 0, ParseNat(key).value, n);
  }

  /** A place that no rewritten one leads to, and that leads to none, keeps its value. */
  lemma {:induction false} OtherPlacesKept(at: Path, v: Json, redact: Redactor, q: Path)
    requires Dicts(v) && Plain(v, q)
    requires forall n :: n in Nodes(v) && Rewritten(redact, at, n) ==> Apart(n.parts, q)
    ensures Get(MapTree(at, v, redact), q) == Get(v, q)
    decreases |q|
  {
    if Stops(v) {
      assert Node([], v) in Nodes(v) && at + [] == at;
    } else if q == [] {
      assert Quiet(redact, at, Nodes(v));
      QuietTree(at, v, redact);
    } else {
      var key := q[0];
      MapChild(at, v, redact, key);
      if Child(v, key).Some? {
        var c := Child(v, key).value;
        forall n | n in Nodes(c) && Rewritten(redact, at + [key], n) ensures Apart(n.parts, q[1..]) {
          var m := Node([key] + n.parts, n.value);
          ChildNodeIn(v, key, n);
          RewrittenBelow(redact, at, key, n);
          ApartTail(m.parts, q);
          assert m.parts[1..] == n.parts;
        }
        OtherPlacesKept(at + [key], c, redact, q[1..]);
      }
    }
  }

  // ---------------------------------------------------------------- envelopes

  predicate Confidential(v: Json) {
    IsKsEnvelope(v) || IsKsBoundary(v)
  }

  function KeySet(l: List<Field>): set<string> {
    if l.Nil? then {} else {l.head.key} + KeySet(l.tail)
  }

  lemma {:induction false} LookupIff(l: List<Field>, key: string)
    ensures Lookup(l, key).Some? <==> key in KeySet(l)
  {
    if l.Cons? {
      LookupIff(l.tail, key);
    }
  }

  /** A dict with all keys of an envelope, or with one that only stands at an encryption boundary. */
  lemma ConfidentialIff(v: Json)
    ensures Confidential(v) <==>
            v.Obj? && (EnvelopeKeySet() <= KeySet(v.fields)
                       || "ciphertext" in KeySet(v.fields) || "dek_ref" in KeySet(v.fields))
  {
    if v.Obj? {
      EnvelopeIff(v);
      LookupIff(v.fields, "ciphertext");
      LookupIff(v.fields, "dek_ref");
    }
  }

  function EnvelopeKeySet(): set<string> {
    {"fmt", "alg", "dek", "tid", "nonce_b64", "ciphertext_b64"}
  }

  lemma EnvelopeKeysAre(key: string)
    ensures key in KsEnvelopeKeys() <==> key in EnvelopeKeySet()
  {
  }

  lemma EnvelopeIff(v: Json)
    requires v.Obj?
    ensures IsKsEnvelope(v) <==> EnvelopeKeySet() <= KeySet(v.fields)
  {
    forall key
      ensures key in KsEnvelopeKeys() <==> key in EnvelopeKeySet()
      ensures Lookup(v.fields, key).Some? <==> key in KeySet(v.fields)
    {
      EnvelopeKeysAre(key);
      LookupIff(v.fields, key);
    }
  }

  /** Nothing confidential is in v, at any depth. */
  ghost predicate Clean(v: Json) {
    forall q :: Get(v, q).Some? ==> !Confidential(Get(v, q).value)
  }

  /** Redacted values hold no envelopes. */
  ghost predicate Seals(redact: Redactor) {
    forall path, v :: redact(path, v).reasons != [] ==> Clean(redact(path, v).value)
  }

  lemma {:induction false} GetAppend(v: Json, p: Path, t: Path)
    ensures Get(v, p + t) == if Get(v, p).None? then None else Get(Get(v, p).value, t)
    decreases |p|
  {
    if p == [] {
      assert p + t == t;
    } else {
      assert (p + t)[1..] == p[1..] + t;
      if Child(v, p[0]).Some? {
        GetAppend(Child(v, p[0]).value, p[1..], t);
      }
    }
  }

  /** The visited place that an envelope or a plain value sits at or under: under an envelope only. */
  lemma {:induction false} Covering(v: Json, q: Path) returns (n: Node)
    requires Dicts(v) && Plain(v, q) && Get(v, q).Some? && Stops(Get(v, q).value)
    ensures n in Nodes(v) && n.parts <= q && Stops(n.value)
    ensures Confidential(n.value) || n == Node(q, Get(v, q).value)
    ensures Confidential(Get(v, q).value) ==> Confidential(n.value)
    decreases |q|
  {
    if Stops(v) {
      n := Node([], v);
    } else {
      var key := q[0];
      var c := Child(v, key).value;
      MapChild([], v, (_, w) => Redaction(w, []), key);
      var m := Covering(c, q[1..]);
      ChildNodeIn(v, key, m);
      n := Node([key] + m.parts, m.value);
      assert q == [key] + q[1..];
    }
  }

  /**
   Every envelope sits at or under one visited place, and goes with it: redacted there, nothing
   confidential is left at or under that place; not redacted, the envelope stays as it was.
   */
  lemma EnvelopeFate(at: Path, v: Json, redact: Redactor, q: Path) returns (n: Node)
    requires Dicts(v) && Plain(v, q) && Get(v, q).Some? && Confidential(Get(v, q).value) && Seals(redact)
    ensures n in Nodes(v) && n.parts <= q && Confidential(n.value)
    ensures Rewritten(redact, at, n) ==>
      Get(MapTree(at, v, redact), n.parts).Some? && Clean(Get(MapTree(at, v, redact), n.parts).value)
    ensures !Rewritten(redact, at, n) ==> Get(MapTree(at, v, redact), q) == Get(v, q)
  {
    n := Covering(v, q);
    NodeMapped(at, v, redact, n);
    if !Rewritten(redact, at, n) {
      var t := q[|n.parts|..];
      assert q == n.parts + t;
      GetAppend(v, n.parts, t);
      GetAppend(MapTree(at, v, redact), n.parts, t);
    }
  }

  lemma MapKeepsKind(at: Path, v: Json, redact: Redactor)
    requires !Stops(v)
    ensures !Confidential(MapTree(at, v, redact))
  {
    if v.Obj? {
      forall key ensures Lookup(MapFields(at, v.fields, redact), key).Some? <==> Lookup(v.fields, key).Some? {
        MapFieldsKeys(at, v.fields, redact, key);
      }
    }
  }

  /** The map brings no envelope in: one that is in the result was in the same place before. */
  lemma {:induction false} NoEnvelopeAppears(at: Path, v: Json, redact: Redactor, q: Path)
    requires Dicts(v) && Plain(v, q) && Seals(redact)
    requires Get(MapTree(at, v, redact), q).Some? && Confidential(Get(MapTree(at, v, redact), q).value)
    ensures Get(v, q) == Get(MapTree(at, v, redact), q)
    decreases |q|
  {
    if !Stops(v) {
      if q == [] {
        MapKeepsKind(at, v, redact);
      } else {
        MapChild(at, v, redact, q[0]);
        NoEnvelopeAppears(at + [q[0]], Child(v, q[0]).value, redact, q[1..]);
      }
    }
  }
}
