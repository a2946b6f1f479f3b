/** Share redaction of a whole block, backend/block_redaction.py. */
module BlockRedaction {
  import opened Wrappers
  import opened Strings
  import opened Json
  import opened CanonicalJson
  import opened JsonTree
  import opened RedactionWalk
  import opened RedactionReasons

  // The regions are walked, and every visited value that has reasons is written into a copy of the
  // block under its dotted path.

  // ---------------------------------------------------------------- regions

  const BLOCK_SHARE_REGIONS := ["command", "output", "metadata", "screenshots"]

  function StripAll(items: seq<string>): set<string> {
    set item | item in items :: Strip(item)
  }

  function KeepIn(regions: seq<string>, requested: set<string>): seq<string> {
    if regions == [] then []
    else (if regions[0] in requested then [regions[0]] else []) + KeepIn(regions[1..], requested)
  }

  function NormaliseShareRegions(regions: Option<seq<string>>): seq<string> {
    if regions.None? then BLOCK_SHARE_REGIONS else KeepIn(BLOCK_SHARE_REGIONS, StripAll(regions.value))
  }

  /** The keys of the payload that the selected regions stand for, in the order they are walked. */
  function PayloadKeys(selected: seq<string>): seq<string> {
    (if "command" in selected then ["command", "commands", "argv"] else [])
    + (if "output" in selected then ["output", "stdout", "stderr"] else [])
    + (if "screenshots" in selected then ["screenshot", "screenshots", "image", "images"] else [])
  }

  // ---------------------------------------------------------------- the walk of a block

  function WalkPayload(fields: List<Field>, keys: seq<string>): seq<Visit> {
    if keys == [] then []
    else
      (if Lookup(fields, keys[0]).Some? then Walk("payload." + keys[0], Lookup(fields, keys[0]).value) else [])
      + WalkPayload(fields, keys[1..])
  }

  function ObjectAt(block: List<Field>, key: string): bool {
    Lookup(block, key).Some? && Lookup(block, key).value.Obj?
  }

  function PayloadOf(block: List<Field>): List<Field> {
    if ObjectAt(block, "payload") then Lookup(block, "payload").value.fields else Nil
  }

  predicate WalksMetadata(block: List<Field>, selected: seq<string>) {
    "metadata" in selected && ObjectAt(block, "metadata")
  }

  function WalkBlock(block: List<Field>, selected: seq<string>): seq<Visit> {
    WalkPayload(PayloadOf(block), PayloadKeys(selected))
    + (if WalksMetadata(block, selected) then Walk("metadata", Lookup(block, "metadata").value) else [])
  }

  function PayloadNodes(fields: List<Field>, keys: seq<string>): seq<Node> {
    if keys == [] then []
    else
      (if Lookup(fields, keys[0]).Some? then Below(keys[0], Nodes(Lookup(fields, keys[0]).value)) else [])
      + PayloadNodes(fields, keys[1..])
  }

  function MetadataNodes(block: List<Field>, selected: seq<string>): seq<Node> {
    if WalksMetadata(block, selected) then Nodes(Lookup(block, "metadata").value) else []
  }

  /** The visited places of a block, by keys and indexes. */
  function BlockNodes(block: List<Field>, selected: seq<string>): seq<Node> {
    Below("payload", PayloadNodes(PayloadOf(block), PayloadKeys(selected)))
    + Below("metadata", MetadataNodes(block, selected))
  }

  lemma {:induction false} PayloadVisits(fields: List<Field>, keys: seq<string>)
    ensures WalkPayload(fields, keys) == VisitsOf(["payload"], PayloadNodes(fields, keys))
  {
    if keys != [] {
      PayloadVisits(fields, keys[1..]);
      var key := keys[0];
      if Lookup(fields, key).Some? {
        var nodes := Nodes(Lookup(fields, key).value);
        JoinAppend(["payload"], key);
        assert "payload" + "." + key == "payload." + key;
        WalkVisits(["payload", key], Lookup(fields, key).value);
        VisitsBelow(["payload"], key, nodes);
        assert ["payload"] + [key] == ["payload", key];
        VisitsAppend(["payload"], Below(key, nodes), PayloadNodes(fields, keys[1..]));
      }
    }
  }

  lemma MetadataVisits(block: List<Field>, selected: seq<string>)
    ensures VisitsOf(["metadata"], MetadataNodes(block, selected)) ==
            if WalksMetadata(block, selected) then Walk("metadata", Lookup(block, "metadata").value) else []
  {
    if WalksMetadata(block, selected) {
      WalkVisits(["metadata"], Lookup(block, "metadata").value);
      assert JoinDots(["metadata"]) == "metadata";
    }
  }

  lemma BlockVisits(block: List<Field>, selected: seq<string>)
    ensures WalkBlock(block, selected) == VisitsOf([], BlockNodes(block, selected))
  {
    var a, b := PayloadNodes(PayloadOf(block), PayloadKeys(selected)), MetadataNodes(block, selected);
    PayloadVisits(PayloadOf(block), PayloadKeys(selected));
    MetadataVisits(block, selected);
    VisitsBelow([], "payload", a);
    VisitsBelow([], "metadata", b);
    VisitsAppend([], Below("payload", a), Below("metadata", b));
    assert [] + ["payload"] == ["payload"] && [] + ["metadata"] == ["metadata"];
  }

  // ---------------------------------------------------------------- the loop's writes

  /** _set_path for every visit that has reasons. */
  function PathEdits(visits: seq<Visit>, redact: Redactor): seq<Edit> {
    if visits == [] then []
    else
      var r := redact(visits[0].path, visits[0].value);
      (if r.reasons != [] then [Edit(SplitDots(visits[0].path), r.value)] else []) + PathEdits(visits[1..], redact)
  }

  function MaskReasonValue(reasons: seq<string>): Mark {
    if |reasons| == 1 then OneReason(reasons[0]) else Reasons(reasons)
  }

  /** mask[path] = … for every visit that has reasons. */
  function AddMasks(mask: Marks, visits: seq<Visit>, redact: Redactor): Marks
    decreases |visits|
  {
    if visits == [] then mask
    else
      var r := redact(visits[0].path, visits[0].value);
      AddMasks(if r.reasons != [] then mask[visits[0].path := MaskReasonValue(r.reasons)] else mask,
               visits[1..], redact)
  }

  predicate AnyReasons(visits: seq<Visit>, redact: Redactor) {
    exists i :: 0 <= i < |visits| && redact(visits[i].path, visits[i].value).reasons != []
  }

  datatype RedactionResult = RedactionResult(block: Json, redactionMask: Marks, regions: seq<string>, changed: bool)

  /** What the loop leaves, None when a path write raises. */
  function RedactedVisits(block: Json, visits: seq<Visit>, redact: Redactor, selected: seq<string>)
    : Option<RedactionResult> {
    var written := Apply(block, PathEdits(visits, redact));
    var mask := AddMasks(map[], visits, redact);
    if written.None? then None
    else Some(RedactionResult(written.value, mask, selected, AnyReasons(visits, redact)))
  }

  function Redacted(block: List<Field>, redact: Redactor, selected: seq<string>): Option<RedactionResult> {
    RedactedVisits(Obj(block), WalkBlock(block, selected), redact, selected)
  }

  method RedactVisit(marks: Marks, v: Visit, d: Detectors, ghost redact: Redactor) returns (r: Redaction)
    requires redact == RedactorOf(marks, d)
    ensures r == redact(v.path, v.value)
  {
    var mark := ExplicitReasonForPath(marks, v.path);
    r := RedactValue(mark, v.value, d);
  }

  /** The loop in front of visit i: what it holds leads to the result as the start did. */
  ghost predicate Reached(block: Json, visits: seq<Visit>, redact: Redactor, i: nat,
                          redacted: Json, mask: Marks, changed: bool)
    requires i <= |visits|
  {
    && Apply(block, PathEdits(visits, redact)) == Apply(redacted, PathEdits(visits[i..], redact))
    && AddMasks(map[], visits, redact) == AddMasks(mask, visits[i..], redact)
    && (changed <==> exists k :: 0 <= k < i && redact(visits[k].path, visits[k].value).reasons != [])
  }

  lemma LoopStart(block: Json, visits: seq<Visit>, redact: Redactor)
    ensures Reached(block, visits, redact, 0, block, map[], false)
  {
    assert visits[0..] == visits;
  }

  lemma LoopSkips(block: Json, visits: seq<Visit>, redact: Redactor, i: nat, redacted: Json, mask: Marks, changed: bool)
    requires i < |visits| && Reached(block, visits, redact, i, redacted, mask, changed)
    requires redact(visits[i].path, visits[i].value).reasons == []
    ensures Reached(block, visits, redact, i + 1, redacted, mask, changed)
  {
    assert visits[i..][1..] == visits[i + 1..];
    assert PathEdits(visits[i..], redact) == PathEdits(visits[i + 1..], redact);
  }

  lemma LoopWrites(block: Json, visits: seq<Visit>, redact: Redactor, i: nat,
                   redacted: Json, mask: Marks, changed: bool)
    requires i < |visits| && Reached(block, visits, redact, i, redacted, mask, changed)
    requires redact(visits[i].path, visits[i].value).reasons != []
    ensures var v := visits[i];
            var r := redact(v.path, v.value);
            var written := SetParts(redacted, SplitDots(v.path), r.value);
            if written.None? then Apply(block, PathEdits(visits, redact)).None?
            else Reached(block, visits, redact, i + 1, written.value, mask[v.path := MaskReasonValue(r.reasons)], true)
  {
    assert visits[i..][1..] == visits[i + 1..];
    var r, rest := redact(visits[i].path, visits[i].value), PathEdits(visits[i + 1..], redact);
    var e := Edit(SplitDots(visits[i].path), r.value);
    assert ([e] + rest)[1..] == rest;
  }

  method RedactVisits(block: Json, visits: seq<Visit>, marks: Marks, selected: seq<string>,
                       d: Detectors, ghost redact: Redactor)
      returns (r: Option<RedactionResult>)
    requires redact == RedactorOf(marks, d)
    ensures r == RedactedVisits(block, visits, redact, selected)
  {
    var redacted := block;
    var mask: Marks := map[];
    var changed := false;
    LoopStart(block, visits, redact);
    for i := 0 to |visits|
      invariant Reached(block, visits, redact, i, redacted, mask, changed)
    {
      var next := RedactVisit(marks, visits[i], d, redact);
      if next.reasons != [] {
        LoopWrites(block, visits, redact, i, redacted, mask, changed);
        var written := SetParts(redacted, SplitDots(visits[i].path), next.value);
        if written.None? {
          return None;
        }
        redacted := written.value;
        mask := mask[visits[i].path := MaskReasonValue(next.reasons)];
        changed := true;
      } else {
        LoopSkips(block, visits, redact, i, redacted, mask, changed);
      }
    }
    r := Some(RedactionResult(redacted, mask, selected, changed));
  }

  method RedactBlockForShare(block: List<Field>, marks: Marks, regions: Option<seq<string>>, d: Detectors)
      returns (r: Option<RedactionResult>)
    ensures r == Redacted(block, RedactorOf(marks, d), NormaliseShareRegions(regions))
  {
    var selected := NormaliseShareRegions(regions);
    r := RedactVisits(Obj(block), WalkBlock(block, selected), marks, selected, d, RedactorOf(marks, d));
  }

  // ---------------------------------------------------------------- the map of a block

  /** The payload with every selected key's value mapped, the other keys as they were. */
  function MapPayload(l: List<Field>, keys: seq<string>, redact: Redactor): List<Field> {
    match l
    case Nil => Nil
    case Cons(f, rest) =>
      Cons(Field(f.key, if f.key in keys then MapTree(["payload", f.key], f.value, redact) else f.value),
           MapPayload(rest, keys, redact))
  }

  function MapRegion(key: string, v: Json, selected: seq<string>, redact: Redactor): Json {
    if key == "payload" && v.Obj? then Obj(MapPayload(v.fields, PayloadKeys(selected), redact))
    else if key == "metadata" && "metadata" in selected && v.Obj? then MapTree(["metadata"], v, redact)
    else v
  }

  /** The block with its selected regions mapped, everything else as it was. */
  function MapBlock(l: List<Field>, selected: seq<string>, redact: Redactor): List<Field> {
    match l
    case Nil => Nil
    case Cons(f, rest) => Cons(Field(f.key, MapRegion(f.key, f.value, selected, redact)),
           MapBlock(rest, selected, redact))
  }

  /** Every place that gets a write can be named by a dotted path. */
  ghost predicate WritesUndotted(nodes: seq<Node>, redact: Redactor) {
    forall n :: n in nodes && Rewritten(redact, [], n) ==> !Dotted(n.parts)
  }

  lemma SplitNode(n: Node)
    requires n.parts != [] && !Dotted(n.parts)
    ensures SplitDots(JoinDots([] + n.parts)) == n.parts
  {
    assert [] + n.parts == n.parts;
    SplitJoin(n.parts);
  }

  lemma {:induction false} PathEditsAreEdits(nodes: seq<Node>, redact: Redactor)
    requires WritesUndotted(nodes, redact)
    requires forall n :: n in nodes ==> n.parts != []
    ensures PathEdits(VisitsOf([], nodes), redact) == EditsOf([], nodes, redact)
  {
    if nodes != [] {
      var n := nodes[0];
      assert n in nodes;
      assert VisitsOf([], nodes)[1..] == VisitsOf([], nodes[1..]);
      if Rewritten(redact, [], n) {
        SplitNode(n);
      }
      PathEditsAreEdits(nodes[1..], redact);
    }
  }

  // ---- lists of fields, by key

  function Keys(l: List<Field>): seq<string> {
    if l.Nil? then [] else [l.head.key] + Keys(l.tail)
  }

  lemma {:induction false} AbsentKey(l: List<Field>, key: string)
    requires key in Keys(l)
    ensures Lookup(l, key).Some?
  {
    if l.head.key != key {
      AbsentKey(l.tail, key);
    }
  }

  lemma {:induction false} SameFields(a: List<Field>, b: List<Field>)
    requires Keys(a) == Keys(b) && DistinctKeys(a)
    requires forall key :: key in Keys(a) ==> Lookup(a, key) == Lookup(b, key)
    ensures a == b
  {
    if a.Cons? {
      assert Keys(a)[0] == Keys(b)[0] && Keys(a)[1..] == Keys(a.tail) && Keys(b)[1..] == Keys(b.tail);
      assert a.head.key in Keys(a);
      forall key | key in Keys(a.tail) ensures Lookup(a.tail, key) == Lookup(b.tail, key) {
        assert key in Keys(a);
        AbsentKey(a.tail, key);
      }
      SameFields(a.tail, b.tail);
    }
  }

  lemma {:induction false} UpdateKeys(l: List<Field>, key: string, v: Json)
    ensures Keys(UpdateField(l, key, v)) == Keys(l)
  {
    if l.Cons? && l.head.key != key {
      UpdateKeys(l.tail, key, v);
    }
  }

  lemma {:induction false} MapPayloadFields(l: List<Field>, keys: seq<string>, redact: Redactor, key: string)
    ensures Keys(MapPayload(l, keys, redact)) == Keys(l)
    ensures Lookup(MapPayload(l, keys, redact), key) ==
            if Lookup(l, key).Some? && key in keys then Some(MapTree(["payload", key], Lookup(l, key).value, redact))
            else Lookup(l, key)
  {
    if l.Cons? {
      MapPayloadFields(l.tail, keys, redact, key);
    }
  }

  lemma {:induction false} MapBlockFields(l: List<Field>, selected: seq<string>, redact: Redactor, key: string)
    ensures Keys(MapBlock(l, selected, redact)) == Keys(l)
    ensures Lookup(MapBlock(l, selected, redact), key) ==
            if Lookup(l, key).Some? then Some(MapRegion(key, Lookup(l, key).value, selected, redact)) else None
  {
    if l.Cons? {
      MapBlockFields(l.tail, selected, redact, key);
    }
  }

  // ---- the writes of the payload

  ghost predicate NoRepeats(keys: seq<string>) {
    forall i, j :: 0 <= i < j < |keys| ==> keys[i] != keys[j]
  }

  /** l after the selected keys were mapped one after the other. */
  ghost predicate Mapped(l: List<Field>, original: List<Field>, keys: set<string>, redact: Redactor) {
    && Keys(l) == Keys(original)
    && DistinctKeys(l)
    && forall key :: Lookup(l, key) ==
         if Lookup(original, key).Some? && key in keys
         then Some(MapTree(["payload", key], Lookup(original, key).value, redact)) else Lookup(original, key)
  }

  lemma UpdateMapped(l: List<Field>, original: List<Field>, keys: set<string>, key: string, redact: Redactor)
    requires Mapped(l, original, keys, redact) && Lookup(original, key).Some? && key !in keys
    ensures Mapped(UpdateField(l, key, MapTree(["payload", key], Lookup(original, key).value, redact)),
                   original, keys + {key}, redact)
  {
    var v := MapTree(["payload", key], Lookup(original, key).value, redact);
    UpdateKeys(l, key, v);
    UpdateDistinct(l, key, v);
    UpdateTwice(l, key, v, v);
    forall other | other != key ensures Lookup(UpdateField(l, key, v), other) == Lookup(l, other) {
      UpdateOther(l, key, v, other);
    }
  }

  /** The writes under one key of the payload. */
  lemma KeyWrites(l: List<Field>, original: List<Field>, key: string, redact: Redactor)
    requires DictFields(original) && Lookup(original, key).Some? && Lookup(l, key) == Lookup(original, key)
    ensures var v := Lookup(original, key).value;
            Apply(Obj(l), EditsOf(["payload"], Below(key, Nodes(v)), redact))
            == Some(Obj(UpdateField(l, key, MapTree(["payload", key], v, redact))))
  {
    var v := Lookup(original, key).value;
    assert ["payload"] + [key] == ["payload", key];
    LookupDicts(original, key);
    WritesAreMap(["payload", key], v, redact);
    EditsBelow(["payload"], key, Nodes(v), redact);
    ApplyUnderField(l, key, EditsOf(["payload", key], Nodes(v), redact));
  }

  lemma {:induction false} PayloadWrites(l: List<Field>, original: List<Field>, before: set<string>,
                                      keys: seq<string>, redact: Redactor)
    returns (r: List<Field>)
    requires DictFields(original) && NoRepeats(keys) && (forall key :: key in keys ==> key !in before)
    requires Mapped(l, original, before, redact)
    ensures Apply(Obj(l), EditsOf(["payload"], PayloadNodes(original, keys), redact)) == Some(Obj(r))
    ensures Mapped(r, original, before + (set key | key in keys), redact)
    decreases |keys|
  {
    if keys == [] {
      r := l;
      assert before + (set key | key in keys) == before;
    } else {
      var key, rest := keys[0], PayloadNodes(original, keys[1..]);
      assert before + (set k | k in keys) == before + {key} + (set k | k in keys[1..]);
      if Lookup(original, key).Some? {
        var nodes := Below(key, Nodes(Lookup(original, key).value));
        var next := UpdateField(l, key, MapTree(["payload", key], Lookup(original, key).value, redact));
        KeyWrites(l, original, key, redact);
        EditsAppend(["payload"], nodes, rest, redact);
        ApplyAppend(Obj(l), EditsOf(["payload"], nodes, redact), EditsOf(["payload"], rest, redact));
        UpdateMapped(l, original, before, key, redact);
        r := PayloadWrites(next, original, before + {key}, keys[1..], redact);
      } else {
        assert PayloadNodes(original, keys) == rest;
        r := PayloadWrites(l, original, before + {key}, keys[1..], redact);
      }
    }
  }

  lemma PayloadKeysDistinct(selected: seq<string>)
    ensures NoRepeats(PayloadKeys(selected))
  {
    assert "output"[0] == 'o' && "images"[0] == 'i' && "stdout"[0] == 's' && "stderr"[0] == 's';
    assert "stdout"[3] == 'o' && "stderr"[3] == 'e';
  }

  lemma PayloadWritesAreMap(fields: List<Field>, selected: seq<string>, redact: Redactor)
    requires DistinctKeys(fields) && DictFields(fields)
    ensures Apply(Obj(fields), EditsOf(["payload"], PayloadNodes(fields, PayloadKeys(selected)), redact))
         == Some(Obj(MapPayload(fields, PayloadKeys(selected), redact)))
  {
    var keys := PayloadKeys(selected);
    PayloadKeysDistinct(selected);
    var r := PayloadWrites(fields, fields, {}, keys, redact);
    MapPayloadFields(fields, keys, redact, "");
    forall key ensures Lookup(r, key) == Lookup(MapPayload(fields, keys, redact), key) {
      MapPayloadFields(fields, keys, redact, key);
    }
    SameFields(r, MapPayload(fields, keys, redact));
  }

  // ---------------------------------------------------------------- the whole block

  lemma BlockLists(block: List<Field>)
    requires Dicts(Obj(block))
    ensures DistinctKeys(PayloadOf(block)) && DictFields(PayloadOf(block))
    ensures ObjectAt(block, "metadata") ==> Dicts(Lookup(block, "metadata").value)
  {
    if ObjectAt(block, "payload") {
      LookupDicts(block, "payload");
    }
    if ObjectAt(block, "metadata") {
      LookupDicts(block, "metadata");
    }
  }

  /** The block after the writes of its payload. */
  lemma PayloadPart(block: List<Field>, selected: seq<string>, redact: Redactor) returns (r: List<Field>)
    requires Dicts(Obj(block))
    ensures var nodes := PayloadNodes(PayloadOf(block), PayloadKeys(selected));
            Apply(Obj(block), EditsOf([], Below("payload", nodes), redact))
            == Some(Obj(r))
    ensures Keys(r) == Keys(block) && DistinctKeys(r)
    ensures forall key :: Lookup(r, key) ==
              if key == "payload" && ObjectAt(block, key)
              then Some(MapRegion(key, Lookup(block, key).value, selected, redact))
              else Lookup(block, key)
  {
    var fields, keys := PayloadOf(block), PayloadKeys(selected);
    var nodes := PayloadNodes(fields, keys);
    BlockLists(block);
    EditsBelow([], "payload", nodes, redact);
    assert [] + ["payload"] == ["payload"];
    if ObjectAt(block, "payload") {
      var v := Obj(MapPayload(fields, keys, redact));
      r := UpdateField(block, "payload", v);
      PayloadWritesAreMap(fields, selected, redact);
      ApplyUnderField(block, "payload", EditsOf(["payload"], nodes, redact));
      UpdateKeys(block, "payload", v);
      UpdateDistinct(block, "payload", v);
      UpdateTwice(block, "payload", v, v);
      forall key | key != "payload" ensures Lookup(r, key) == Lookup(block, key) {
        UpdateOther(block, "payload", v, key);
      }
    } else {
      r := block;
      NoPayloadNodes(keys);
    }
  }

  lemma {:induction false} NoPayloadNodes(keys: seq<string>)
    ensures PayloadNodes(Nil, keys) == []
  {
    if keys != [] {
      NoPayloadNodes(keys[1..]);
    }
  }

  /** The block after the writes of its metadata, which leave the payload alone. */
  lemma MetadataPart(block: List<Field>, l: List<Field>, selected: seq<string>, redact: Redactor)
    returns (r: List<Field>)
    requires Dicts(Obj(block)) && DistinctKeys(l) && Lookup(l, "metadata") == Lookup(block, "metadata")
    ensures Apply(Obj(l), EditsOf([], Below("metadata", MetadataNodes(block, selected)), redact)) == Some(Obj(r))
    ensures Keys(r) == Keys(l) && DistinctKeys(r)
    ensures forall key :: Lookup(r, key) ==
              if key == "metadata" && Lookup(l, key).Some?
              then Some(MapRegion(key, Lookup(l, key).value, selected, redact))
              else Lookup(l, key)
  {
    EditsBelow([], "metadata", MetadataNodes(block, selected), redact);
    assert [] + ["metadata"] == ["metadata"];
    r := l;
    if WalksMetadata(block, selected) {
      var v := Lookup(block, "metadata").value;
      var mapped := MapTree(["metadata"], v, redact);
      BlockLists(block);
      WritesAreMap(["metadata"], v, redact);
      ApplyUnderField(l, "metadata", EditsOf(["metadata"], Nodes(v), redact));
      r := UpdateField(l, "metadata", mapped);
      UpdateKeys(l, "metadata", mapped);
      UpdateDistinct(l, "metadata", mapped);
      UpdateTwice(l, "metadata", mapped, mapped);
      forall key | key != "metadata" ensures Lookup(r, key) == Lookup(l, key) {
        UpdateOther(l, "metadata", mapped, key);
      }
    }
  }

  lemma FieldsAreMap(block: List<Field>, r: List<Field>, selected: seq<string>, redact: Redactor)
    requires Keys(r) == Keys(block) && DistinctKeys(r)
    requires forall key :: Lookup(r, key) ==
               if Lookup(block, key).Some? then Some(MapRegion(key, Lookup(block, key).value, selected, redact))
               else None
    ensures r == MapBlock(block, selected, redact)
  {
    var mapped := MapBlock(block, selected, redact);
    MapBlockFields(block, selected, redact, "");
    forall key ensures Lookup(r, key) == Lookup(mapped, key) {
      MapBlockFields(block, selected, redact, key);
    }
    SameFields(r, mapped);
  }

  /** The writes of a whole block, one after the other, amount to one recursive map. */
  lemma BlockWritesAreMap(block: List<Field>, selected: seq<string>, redact: Redactor)
    requires Dicts(Obj(block))
    ensures Apply(Obj(block), EditsOf([], BlockNodes(block, selected), redact))
            == Some(Obj(MapBlock(block, selected, redact)))
  {
    var a := Below("payload", PayloadNodes(PayloadOf(block), PayloadKeys(selected)));
    var b := Below("metadata", MetadataNodes(block, selected));
    var l := PayloadPart(block, selected, redact);
    var r := MetadataPart(block, l, selected, redact);
    FieldsAreMap(block, r, selected, redact);
    EditsAppend([], a, b, redact);
    ApplyAppend(Obj(block), EditsOf([], a, redact), EditsOf([], b, redact));
  }

  /** The loop of path writes is the recursive map, for any block whose written places have no dots in their keys. */
  lemma LoopIsMap(block: List<Field>, selected: seq<string>, redact: Redactor)
    requires Dicts(Obj(block)) && WritesUndotted(BlockNodes(block, selected), redact)
    ensures Redacted(block, redact, selected).Some?
    ensures Redacted(block, redact, selected).value.block == Obj(MapBlock(block, selected, redact))
  {
    BlockVisits(block, selected);
    PathEditsAreEdits(BlockNodes(block, selected), redact);
    BlockWritesAreMap(block, selected, redact);
  }

  // ---------------------------------------------------------------- regions and places

  /** at leads to a value that is walked. */
  predicate IsRegion(block: List<Field>, selected: seq<string>, at: Path) {
    || (at == ["metadata"] && WalksMetadata(block, selected))
    || (|at| == 2 && at[0] == "payload" && at[1] in PayloadKeys(selected) && Lookup(PayloadOf(block), at[1]).Some?)
  }

  lemma RegionMapped(block: List<Field>, selected: seq<string>, redact: Redactor, at: Path)
    requires Dicts(Obj(block)) && IsRegion(block, selected, at)
    ensures Get(Obj(block), at).Some? && Dicts(Get(Obj(block), at).value)
    ensures Get(Obj(MapBlock(block, selected, redact)), at) == Some(MapTree(at, Get(Obj(block), at).value, redact))
  {
    BlockLists(block);
    MapBlockFields(block, selected, redact, at[0]);
    var top := Lookup(block, at[0]).value;
    var mapped := MapRegion(at[0], top, selected, redact);
    if at == ["metadata"] {
      assert Get(top, at[1..]) == Some(top) && Get(mapped, at[1..]) == Some(mapped);
    } else {
      var key, fields := at[1], PayloadOf(block);
      assert at == ["payload", key] && at[1..] == [key] && [key][1..] == [];
      MapPayloadFields(fields, PayloadKeys(selected), redact, key);
      LookupDicts(fields, key);
      assert Get(top, [key]) == Lookup(fields, key);
      assert Get(mapped, [key]) == Child(mapped, key);
    }
  }

  lemma {:induction false} PayloadNodeRegion(fields: List<Field>, keys: seq<string>, n: Node)
    requires n in PayloadNodes(fields, keys)
    ensures n.parts != [] && n.parts[0] in keys && Lookup(fields, n.parts[0]).Some?
    ensures Node(n.parts[1..], n.value) in Nodes(Lookup(fields, n.parts[0]).value)
  {
    var key := keys[0];
    if Lookup(fields, key).Some? && n in Below(key, Nodes(Lookup(fields, key).value)) {
      var nodes := Nodes(Lookup(fields, key).value);
      var i :| 0 <= i < |nodes| && Below(key, nodes)[i] == n;
      assert n.parts[1..] == nodes[i].parts;
    } else {
      PayloadNodeRegion(fields, keys[1..], n);
    }
  }

  lemma RegionGet(block: List<Field>, key: string)
    requires Lookup(PayloadOf(block), key).Some?
    ensures Get(Obj(block), ["payload", key]) == Lookup(PayloadOf(block), key)
  {
    var at := ["payload", key];
    assert at[1..] == [key] && [key][1..] == [];
    assert Get(Obj(PayloadOf(block)), [key]) == Lookup(PayloadOf(block), key);
  }

  lemma BelowHas(key: string, nodes: seq<Node>, n: Node)
    requires n in Below(key, nodes)
    ensures n.parts != [] && n.parts[0] == key && Node(n.parts[1..], n.value) in nodes
  {
    var i :| 0 <= i < |nodes| && Below(key, nodes)[i] == n;
    assert n.parts[1..] == nodes[i].parts;
  }

  lemma PayloadRegion(block: List<Field>, selected: seq<string>, n: Node) returns (at: Path, m: Node)
    requires n.parts != [] && n.parts[0] == "payload"
    requires Node(n.parts[1..], n.value) in PayloadNodes(PayloadOf(block), PayloadKeys(selected))
    ensures IsRegion(block, selected, at) && n == Node(at + m.parts, m.value)
    ensures Get(Obj(block), at).Some? && m in Nodes(Get(Obj(block), at).value)
  {
    PayloadNodeRegion(PayloadOf(block), PayloadKeys(selected), Node(n.parts[1..], n.value));
    var key := n.parts[1];
    at, m := ["payload", key], Node(n.parts[1..][1..], n.value);
    RegionGet(block, key);
    assert at + m.parts == n.parts;
  }

  /** Every visited place is a visited place of one region. */
  lemma NodeRegion(block: List<Field>, selected: seq<string>, n: Node) returns (at: Path, m: Node)
    requires n in BlockNodes(block, selected)
    ensures IsRegion(block, selected, at) && n == Node(at + m.parts, m.value)
    ensures Get(Obj(block), at).Some? && m in Nodes(Get(Obj(block), at).value)
  {
    var a := PayloadNodes(PayloadOf(block), PayloadKeys(selected));
    if n in Below("payload", a) {
      BelowHas("payload", a, n);
      at, m := PayloadRegion(block, selected, n);
    } else {
      BelowHas("metadata", MetadataNodes(block, selected), n);
      at, m := ["metadata"], Node(n.parts[1..], n.value);
      assert at[1..] == [] && at + m.parts == n.parts;
      assert Get(Obj(block), at) == Get(Lookup(block, "metadata").value, []);
    }
  }

  /** A visited place of the block holds what the walk yielded, and its redaction afterwards. */
  lemma BlockNodeMapped(block: List<Field>, selected: seq<string>, redact: Redactor, n: Node)
    requires Dicts(Obj(block)) && n in BlockNodes(block, selected)
    ensures Get(Obj(block), n.parts) == Some(n.value)
    ensures Get(Obj(MapBlock(block, selected, redact)), n.parts) == Some(New(redact, JoinDots(n.parts), n.value))
  {
    var at, m := NodeRegion(block, selected, n);
    RegionMapped(block, selected, redact, at);
    NodeMapped(at, Get(Obj(block), at).value, redact, m);
    GetAppend(Obj(block), at, m.parts);
    GetAppend(Obj(MapBlock(block, selected, redact)), at, m.parts);
  }

  lemma {:induction false} PayloadAvoids(key: string, fields: List<Field>, keys: seq<string>)
    requires key !in keys
    ensures Avoids(key, PayloadNodes(fields, keys))
  {
    if keys != [] {
      PayloadAvoids(key, fields, keys[1..]);
    }
  }

  lemma {:induction false} PayloadNodesApart(fields: List<Field>, keys: seq<string>)
    requires DictFields(fields) && NoRepeats(keys)
    ensures PairwiseApart(PayloadNodes(fields, keys))
  {
    if keys != [] {
      PayloadNodesApart(fields, keys[1..]);
      if Lookup(fields, keys[0]).Some? {
        LookupDicts(fields, keys[0]);
        NodesApart(Lookup(fields, keys[0]).value);
        PayloadAvoids(keys[0], fields, keys[1..]);
        AppendApart(keys[0], Nodes(Lookup(fields, keys[0]).value), PayloadNodes(fields, keys[1..]));
      }
    }
  }

  /** No visited place of a block lies inside another. */
  lemma BlockNodesApart(block: List<Field>, selected: seq<string>)
    requires Dicts(Obj(block))
    ensures PairwiseApart(BlockNodes(block, selected))
  {
    var a, b := PayloadNodes(PayloadOf(block), PayloadKeys(selected)), MetadataNodes(block, selected);
    BlockLists(block);
    PayloadKeysDistinct(selected);
    PayloadNodesApart(PayloadOf(block), PayloadKeys(selected));
    if WalksMetadata(block, selected) {
      NodesApart(Lookup(block, "metadata").value);
    }
    BelowApart("metadata", b);
    AppendApart("payload", a, Below("metadata", b));
  }

  // ---------------------------------------------------------------- keys with dots

  lemma {:induction false} PathEditsPlain(nodes: seq<Node>, redact: Redactor)
    requires forall path, v :: redact(path, v).reasons != [] ==> Undotted(redact(path, v).value)
    ensures forall e :: e in PathEdits(VisitsOf([], nodes), redact) ==> !Dotted(e.parts) && Undotted(e.value)
  {
    if nodes != [] {
      var visits := VisitsOf([], nodes);
      assert visits[1..] == VisitsOf([], nodes[1..]);
      PathEditsPlain(nodes[1..], redact);
      SplitDotFree(visits[0].path);
    }
  }

  /** A place under a dotted key that should change never gets its new value. */
  lemma DottedPlaceMissed(block: List<Field>, selected: seq<string>, redact: Redactor, n: Node)
    requires Dicts(Obj(block)) && n in BlockNodes(block, selected) && Dotted(n.parts)
    requires Rewritten(redact, [], n) && New(redact, JoinDots(n.parts), n.value) != n.value
    requires forall path, v :: redact(path, v).reasons != [] ==> Undotted(redact(path, v).value)
    ensures Redacted(block, redact, selected).Some?
            ==> Redacted(block, redact, selected).value.block != Obj(MapBlock(block, selected, redact))
  {
    var edits := PathEdits(WalkBlock(block, selected), redact);
    BlockVisits(block, selected);
    PathEditsPlain(BlockNodes(block, selected), redact);
    BlockNodeMapped(block, selected, redact, n);
    if Apply(Obj(block), edits).Some? {
      ApplyMissesDotted(Obj(block), edits, n.parts);
    }
  }

  /**
   When every redaction changes its value, the loop gives the recursive map exactly for the
   blocks in which no rewritten place lies under a key with a dot.
   */
  lemma LoopIsMapIff(block: List<Field>, selected: seq<string>, redact: Redactor)
    requires Dicts(Obj(block))
    requires forall n :: n in BlockNodes(block, selected) && Rewritten(redact, [], n) ==>
               redact(JoinDots(n.parts), n.value).value != n.value
    requires forall path, v :: redact(path, v).reasons != [] ==> Undotted(redact(path, v).value)
    ensures (Redacted(block, redact, selected).Some?
             && Redacted(block, redact, selected).value.block == Obj(MapBlock(block, selected, redact)))
       <==> WritesUndotted(BlockNodes(block, selected), redact)
  {
    if WritesUndotted(BlockNodes(block, selected), redact) {
      LoopIsMap(block, selected, redact);
    } else {
      var n :| n in BlockNodes(block, selected) && Rewritten(redact, [], n) && Dotted(n.parts);
      assert [] + n.parts == n.parts;
      DottedPlaceMissed(block, selected, redact, n);
    }
  }

  // ---- two blocks with a dotted key

  function MetadataBlock(fields: List<Field>): List<Field> {
    Cons(Field("metadata", Obj(fields)), Nil)
  }

  lemma MetadataWalk(fields: List<Field>)
    ensures WalkBlock(MetadataBlock(fields), ["metadata"]) == Walk("metadata", Obj(fields))
  {
    var block := MetadataBlock(fields);
    assert Lookup(block, "metadata") == Some(Obj(fields));
    assert Lookup(block, "payload") == Lookup(block.tail, "payload") == None;
    assert PayloadKeys(["metadata"]) == [];
    assert WalkPayload(PayloadOf(block), []) == [];
  }

  lemma {:induction false} UnmarkedPath(parts: Path)
    ensures NearestMark(map[], parts).None?
  {
    if parts != [] {
      UnmarkedPath(parts[..|parts| - 1]);
    }
  }

  lemma Unmarked(d: Detectors, path: string, v: Json)
    requires Confidential(v) || v.Null?
    ensures var r := RedactorOf(map[], d)(path, v);
            if v.Null? then r.reasons == [] else r.reasons != [] && r.value == KS_PLACEHOLDER
  {
    UnmarkedPath(SplitDots(path));
  }

  lemma OneVisit(path: string, key: string, v: Json)
    requires RedactionWalk.Stops(v)
    ensures WalkFields(path, Cons(Field(key, v), Nil)) == [Visit(path + "." + key, v)]
  {
    var fields: List<Field> := Cons(Field(key, v), Nil);
    assert WalkFields(path, fields.tail) == [];
    assert WalkFields(path, fields) == [Visit(path + "." + key, v)] + [];
  }

  lemma OneEdit(d: Detectors, v: Json)
    requires Confidential(v)
    ensures PathEdits([Visit("metadata.a.b", v)], RedactorOf(map[], d))
         == [Edit(["metadata", "a", "b"], KS_PLACEHOLDER)]
  {
    Unmarked(d, "metadata.a.b", v);
    SplitMetadata();
    EditOf(RedactorOf(map[], d), Visit("metadata.a.b", v));
  }

  lemma EditOf(redact: Redactor, visit: Visit)
    requires redact(visit.path, visit.value).reasons != []
    ensures PathEdits([visit], redact) == [Edit(SplitDots(visit.path), redact(visit.path, visit.value).value)]
  {
    assert [visit][1..] == [] && PathEdits([], redact) == [];
  }

  lemma SplitMetadata()
    ensures SplitDots("metadata.a.b") == ["metadata", "a", "b"]
  {
    SplitJoin(["metadata", "a", "b"]);
    assert JoinDots(["a", "b"]) == "a.b";
    assert JoinDots(["metadata", "a", "b"]) == "metadata.a.b";
  }

  lemma FieldPlain(key: string, v: Json, rest: List<Field>)
    requires key in ["a", "a.b"] && Lookup(rest, "ciphertext").None? && Lookup(rest, "dek_ref").None?
             && Lookup(rest, "fmt").None?
    ensures !RedactionWalk.Stops(Obj(Cons(Field(key, v), rest)))
  {
    assert "fmt" in KsEnvelopeKeys();
    assert Lookup(Cons(Field(key, v), rest), "fmt").None?;
  }

  lemma SetMetadata(fields: List<Field>, x: Json)
    ensures var r := SetField(fields, ["a", "b"], x);
            Apply(Obj(MetadataBlock(fields)), [Edit(["metadata", "a", "b"], x)]) ==
            if r.None? then None else Some(Obj(MetadataBlock(r.value)))
  {
    var edits := [Edit(["metadata", "a", "b"], x)];
    var path: Path := ["metadata"] + ["a", "b"];
    assert edits[0] == Edit(path, x) && edits[1..] == [] && path[1..] == ["a", "b"];
    var inner, r := SetField(fields, ["a", "b"], x), SetParts(Obj(MetadataBlock(fields)), path, x);
    assert SetParts(Obj(fields), ["a", "b"], x) == if inner.None? then None else Some(Obj(inner.value));
    SetUnderField(MetadataBlock(fields), "metadata", ["a", "b"], x);
    assert r == if inner.None? then None else Some(Obj(MetadataBlock(inner.value)));
    assert Apply(Obj(MetadataBlock(fields)), edits) == if r.None? then None else Apply(r.value, []);
  }

  /** When the only write goes along metadata, a, b. */
  lemma OneWrite(fields: List<Field>, redact: Redactor, x: Json)
    requires PathEdits(Walk("metadata", Obj(fields)), redact) == [Edit(["metadata", "a", "b"], x)]
    ensures var r, after := Redacted(MetadataBlock(fields), redact, ["metadata"]), SetField(fields, ["a", "b"], x);
            if after.None? then r.None? else r.Some? && r.value.block == Obj(MetadataBlock(after.value))
  {
    MetadataWalk(fields);
    SetMetadata(fields, x);
  }

  lemma NoSuchField(key: string, v: Json, x: Json)
    requires key != "a"
    ensures SetField(Cons(Field(key, v), Nil), ["a", "b"], x).None?
  {
    var fields: List<Field> := Cons(Field(key, v), Nil);
    assert SetField(fields.tail, ["a", "b"], x).None?;
  }

  /** {"a.b": x} for an envelope or boundary x: the write for the one visited place raises. */
  lemma DottedKeyRaises(x: Json, d: Detectors)
    requires Confidential(x)
    ensures Redacted(MetadataBlock(Cons(Field("a.b", x), Nil)), RedactorOf(map[], d), ["metadata"]).None?
  {
    FieldPlain("a.b", x, Nil);
    OneVisit("metadata", "a.b", x);
    assert "metadata" + "." + "a.b" == "metadata.a.b";
    OneEdit(d, x);
    OneWrite(Cons(Field("a.b", x), Nil), RedactorOf(map[], d), KS_PLACEHOLDER);
    NoSuchField("a.b", x, KS_PLACEHOLDER);
  }

  /** x under "a" and then "b", and y under "a.b". */
  function BesideDotted(x: Json, y: Json): List<Field> {
    Cons(Field("a", Obj(Cons(Field("b", x), Nil))), Cons(Field("a.b", y), Nil))
  }

  lemma BesideDottedVisits(y: Json)
    requires Confidential(y)
    ensures Walk("metadata", Obj(BesideDotted(Null, y))) == [Visit("metadata.a.b", Null), Visit("metadata.a.b", y)]
  {
    var inner, last: List<Field> := Cons(Field("b", Null), Nil), Cons(Field("a.b", y), Nil);
    OneVisit("metadata.a", "b", Null);
    OneVisit("metadata", "a.b", y);
    PlainB(Null);
    assert "metadata" + "." + "a" == "metadata.a"
           && "metadata.a" + "." + "b" == "metadata" + "." + "a.b" == "metadata.a.b";
    assert Walk("metadata.a", Obj(inner)) == [Visit("metadata.a.b", Null)];
    assert Lookup(last, "ciphertext") == Lookup(last.tail, "ciphertext") == None;
    assert Lookup(last, "dek_ref") == Lookup(last.tail, "dek_ref") == None;
    assert Lookup(last, "fmt") == Lookup(last.tail, "fmt") == None;
    FieldPlain("a", Obj(inner), last);
    assert WalkFields("metadata", BesideDotted(Null, y))
           == Walk("metadata.a", Obj(inner)) + WalkFields("metadata", last);
  }

  lemma PlainB(v: Json)
    ensures !RedactionWalk.Stops(Obj(Cons(Field("b", v), Nil)))
  {
    var fields: List<Field> := Cons(Field("b", v), Nil);
    assert "fmt" in KsEnvelopeKeys();
    assert Lookup(fields, "fmt") == Lookup(fields.tail, "fmt") == None;
    assert Lookup(fields, "ciphertext") == Lookup(fields.tail, "ciphertext") == None;
    assert Lookup(fields, "dek_ref") == Lookup(fields.tail, "dek_ref") == None;
  }

  /** {"a": {"b": null}, "a.b": y}: the placeholder goes to the other place, and y stays. */
  lemma DottedKeyMissed(y: Json, d: Detectors)
    requires Confidential(y)
    ensures var r := Redacted(MetadataBlock(BesideDotted(Null, y)), RedactorOf(map[], d), ["metadata"]);
            r.Some? && r.value.block == Obj(MetadataBlock(BesideDotted(KS_PLACEHOLDER, y)))
  {
    BesideDottedVisits(y);
    BesideEdits(y, d);
    OneWrite(BesideDotted(Null, y), RedactorOf(map[], d), KS_PLACEHOLDER);
    SetBeside(y, KS_PLACEHOLDER);
  }

  lemma BesideEdits(y: Json, d: Detectors)
    requires Confidential(y)
    ensures PathEdits([Visit("metadata.a.b", Null), Visit("metadata.a.b", y)], RedactorOf(map[], d))
         == [Edit(["metadata", "a", "b"], KS_PLACEHOLDER)]
  {
    var visits := [Visit("metadata.a.b", Null), Visit("metadata.a.b", y)];
    Unmarked(d, "metadata.a.b", Null);
    OneEdit(d, y);
    assert visits[1..] == [visits[1]];
    assert PathEdits(visits, RedactorOf(map[], d)) == [] + PathEdits([visits[1]], RedactorOf(map[], d));
  }

  lemma SetBeside(y: Json, x: Json)
    ensures SetField(BesideDotted(Null, y), ["a", "b"], x) == Some(BesideDotted(x, y))
  {
    var inner: List<Field> := Cons(Field("b", Null), Nil);
    assert ["a", "b"][1..] == ["b"] && ["b"][1..] == [];
    assert SetField(inner, ["b"], x) == Some(Cons(Field("b", x), Nil));
    assert SetParts(Obj(inner), ["b"], x) == Some(Obj(Cons(Field("b", x), Nil)));
  }

  // ---------------------------------------------------------------- the mask

  predicate Hit(redact: Redactor, v: Visit) {
    redact(v.path, v.value).reasons != []
  }

  lemma {:induction false} AddMasksKeeps(mask: Marks, visits: seq<Visit>, redact: Redactor, path: string)
    requires forall v :: v in visits && Hit(redact, v) ==> v.path != path
    ensures path in AddMasks(mask, visits, redact) <==> path in mask
    ensures path in mask ==> AddMasks(mask, visits, redact)[path] == mask[path]
    decreases |visits|
  {
    if visits != [] {
      var v := visits[0];
      assert v in visits;
      var r := redact(v.path, v.value);
      AddMasksKeeps(if r.reasons != [] then mask[v.path := MaskReasonValue(r.reasons)] else mask,
                    visits[1..], redact, path);
    }
  }

  lemma {:induction false} AddMasksHas(mask: Marks, visits: seq<Visit>, redact: Redactor, k: nat)
    requires k < |visits| && Hit(redact, visits[k])
    requires forall j :: k < j < |visits| && Hit(redact, visits[j]) ==> visits[j].path != visits[k].path
    ensures visits[k].path in AddMasks(mask, visits, redact)
    ensures AddMasks(mask, visits, redact)[visits[k].path]
         == MaskReasonValue(redact(visits[k].path, visits[k].value).reasons)
    decreases |visits|
  {
    var r := redact(visits[0].path, visits[0].value);
    var next := if r.reasons != [] then mask[visits[0].path := MaskReasonValue(r.reasons)] else mask;
    if k == 0 {
      forall v | v in visits[1..] && Hit(redact, v) ensures v.path != visits[0].path {
        var j :| 0 <= j < |visits[1..]| && visits[1..][j] == v;
        assert visits[j + 1] == v;
      }
      AddMasksKeeps(next, visits[1..], redact, visits[0].path);
    } else {
      assert visits[1..][k - 1] == visits[k];
      AddMasksHas(next, visits[1..], redact, k - 1);
    }
  }

  lemma PathsDiffer(p: Path, q: Path)
    requires p != [] && q != [] && !Dotted(p) && !Dotted(q) && Apart(p, q)
    ensures JoinDots(p) != JoinDots(q)
  {
    SplitJoin(p);
    SplitJoin(q);
  }

  /** The mask's keys are exactly the rewritten places, each with the reasons for its own value. */
  lemma MaskIsExact(block: List<Field>, selected: seq<string>, redact: Redactor)
    requires Dicts(Obj(block)) && WritesUndotted(BlockNodes(block, selected), redact)
    ensures Redacted(block, redact, selected).Some?
    ensures var mask := Redacted(block, redact, selected).value.redactionMask;
            && (forall n :: n in BlockNodes(block, selected) && Rewritten(redact, [], n) ==>
                  JoinDots(n.parts) in mask
                  && mask[JoinDots(n.parts)] == MaskReasonValue(redact(JoinDots(n.parts), n.value).reasons))
            && (forall path :: path in mask ==>
                  exists n :: n in BlockNodes(block, selected) && Rewritten(redact, [], n) && JoinDots(n.parts) == path)
  {
    LoopIsMap(block, selected, redact);
    var nodes, mask := BlockNodes(block, selected), AddMasks(map[], WalkBlock(block, selected), redact);
    assert Redacted(block, redact, selected).value.redactionMask == mask;
    forall n | n in nodes && Rewritten(redact, [], n)
      ensures JoinDots(n.parts) in mask
      ensures mask[JoinDots(n.parts)] == MaskReasonValue(redact(JoinDots(n.parts), n.value).reasons)
    {
      var k :| 0 <= k < |nodes| && nodes[k] == n;
      MaskHasNode(block, selected, redact, k);
    }
    forall path | path in mask
      ensures exists n :: n in nodes && Rewritten(redact, [], n) && JoinDots(n.parts) == path
    {
      var n := MaskKeyNode(block, selected, redact, path);
    }
  }

  lemma MaskKeyNode(block: List<Field>, selected: seq<string>, redact: Redactor, path: string) returns (n: Node)
    requires path in AddMasks(map[], WalkBlock(block, selected), redact)
    ensures n in BlockNodes(block, selected) && Rewritten(redact, [], n) && JoinDots(n.parts) == path
  {
    var visits := WalkBlock(block, selected);
    BlockVisits(block, selected);
    if forall v :: v in visits && Hit(redact, v) ==> v.path != path {
      AddMasksKeeps(map[], visits, redact, path);
    }
    var k :| 0 <= k < |visits| && Hit(redact, visits[k]) && visits[k].path == path;
    n := BlockNodes(block, selected)[k];
    assert [] + n.parts == n.parts;
  }

  lemma MaskHasNode(block: List<Field>, selected: seq<string>, redact: Redactor, k: nat)
    requires Dicts(Obj(block)) && WritesUndotted(BlockNodes(block, selected), redact)
    requires k < |BlockNodes(block, selected)| && Rewritten(redact, [], BlockNodes(block, selected)[k])
    ensures var n, mask := BlockNodes(block, selected)[k], AddMasks(map[], WalkBlock(block, selected), redact);
            JoinDots(n.parts) in mask
            && mask[JoinDots(n.parts)] == MaskReasonValue(redact(JoinDots(n.parts), n.value).reasons)
  {
    var nodes, visits := BlockNodes(block, selected), WalkBlock(block, selected);
    BlockVisits(block, selected);
    BlockNodesApart(block, selected);
    assert [] + nodes[k].parts == nodes[k].parts;
    forall j | k < j < |visits| && Hit(redact, visits[j]) ensures visits[j].path != visits[k].path {
      assert [] + nodes[j].parts == nodes[j].parts;
      assert nodes[j] in nodes && nodes[k] in nodes;
      PathsDiffer(nodes[k].parts, nodes[j].parts);
    }
    AddMasksHas(map[], visits, redact, k);
  }

  // ---------------------------------------------------------------- envelopes

  /**
   Every KS.1 envelope or boundary in a selected region, at any depth, sits at or under one
   visited place.  Unless an operator exempted that place, nothing confidential is left at or
   under it; if one did, the envelope is there as before.
   */
  lemma EnvelopesReplaced(block: List<Field>, marks: Marks, d: Detectors, selected: seq<string>, at: Path, q: Path)
    returns (n: Node)
    requires Dicts(Obj(block)) && IsRegion(block, selected, at)
    requires Get(Obj(block), at).Some? ==> Plain(Get(Obj(block), at).value, q)
    requires Get(Obj(block), at + q).Some? && Confidential(Get(Obj(block), at + q).value)
    ensures n.parts <= q
    ensures var r := Obj(MapBlock(block, selected, RedactorOf(marks, d)));
            if Exempt(marks, JoinDots(at + n.parts)) then Get(r, at + q) == Get(Obj(block), at + q)
            else Get(r, at + n.parts).Some? && Clean(Get(r, at + n.parts).value)
  {
    var redact, mapped := RedactorOf(marks, d), Obj(MapBlock(block, selected, RedactorOf(marks, d)));
    RegionMapped(block, selected, redact, at);
    GetAppend(Obj(block), at, q);
    var v := Get(Obj(block), at).value;
    RedactorSeals(marks, d);
    n := EnvelopeFate(at, v, redact, q);
    GetAppend(mapped, at, q);
    GetAppend(mapped, at, n.parts);
    EnvelopeRewrittenIff(marks, d, JoinDots(at + n.parts), n.value);
  }

  // ---------------------------------------------------------------- texts

  /** What the redaction leaves of a visited text, by the mark for its path. */
  ghost predicate TextLeft(v: Json, marks: Marks, d: Detectors, path: string, s: string, ok: string -> bool) {
    var mark := NearestMark(marks, SplitDots(path));
    if Exempt(marks, path) then v == Str(s)
    else if Explicit(mark) then v == Placeholder(NormaliseReasons(mark.value))
    else v.Str? && ok(v.s) && (NoHit(s, d) ==> v == Str(s))
  }

  lemma TextNew(marks: Marks, d: Detectors, path: string, s: string, ok: string -> bool)
    requires Honest(d) && Established(ok, d)
    ensures TextLeft(New(RedactorOf(marks, d), path, Str(s)), marks, d, path, s, ok)
  {
    var mark := NearestMark(marks, SplitDots(path));
    assert !Confidential(Str(s));
    TextEstablished(s, d, ok);
    TextReasonsIff(s, d);
    if Explicit(mark) {
      MarkedLeavesReasons(mark, Str(s), d);
    }
  }

  /**
   Every text at any depth of a selected region of the result: under an envelope that is dealt
   with as a whole, or a visited place of its own.  There an exempting mark leaves it alone, any
   other mark leaves only the mark's reasons, and without a mark whatever one of the detectors is
   for holds of what is left, a text that none of them hits being left as it was.
   */
  lemma TextsRedacted(block: List<Field>, marks: Marks, d: Detectors, selected: seq<string>,
                      at: Path, q: Path, s: string, ok: string -> bool) returns (n: Node)
    requires Dicts(Obj(block)) && WritesUndotted(BlockNodes(block, selected), RedactorOf(marks, d))
    requires IsRegion(block, selected, at) && Get(Obj(block), at + q) == Some(Str(s))
    requires Get(Obj(block), at).Some? ==> Plain(Get(Obj(block), at).value, q)
    requires Honest(d) && Established(ok, d)
    ensures n.parts <= q && Get(Obj(block), at + n.parts) == Some(n.value)
    ensures Confidential(n.value) || n.parts == q
    ensures Redacted(block, RedactorOf(marks, d), selected).Some?
    ensures var r := Redacted(block, RedactorOf(marks, d), selected).value.block;
            n.parts == q ==> Get(r, at + q).Some? && TextLeft(Get(r, at + q).value, marks, d, JoinDots(at + q), s, ok)
  {
    var redact := RedactorOf(marks, d);
    var mapped := Obj(MapBlock(block, selected, redact));
    LoopIsMap(block, selected, redact);
    RegionMapped(block, selected, redact, at);
    GetAppend(Obj(block), at, q);
    var v := Get(Obj(block), at).value;
    n := Covering(v, q);
    NodeMapped(at, v, redact, n);
    GetAppend(Obj(block), at, n.parts);
    GetAppend(mapped, at, n.parts);
    if n.parts == q {
      TextNew(marks, d, JoinDots(at + q), s, ok);
    }
  }

  /** The mask names each stage that hit an unmarked text, and no other. */
  lemma TextReasonsInMask(block: List<Field>, marks: Marks, d: Detectors, selected: seq<string>, n: Node)
    requires Dicts(Obj(block)) && WritesUndotted(BlockNodes(block, selected), RedactorOf(marks, d))
    requires n in BlockNodes(block, selected) && n.value.Str? && !Dotted(n.parts)
    requires !Explicit(NearestMark(marks, SplitDots(JoinDots(n.parts))))
    ensures Redacted(block, RedactorOf(marks, d), selected).Some?
    ensures var mask, path := Redacted(block, RedactorOf(marks, d), selected).value.redactionMask, JoinDots(n.parts);
            && (path in mask <==> !NoHit(n.value.s, d))
            && (path in mask ==>
                  && (REDACTION_SECRET in Texts(mask[path]) <==> SecretHit(n.value.s, d))
                  && (REDACTION_CUSTOMER_IP in Texts(mask[path]) <==> IpHit(n.value.s, d))
                  && (REDACTION_PII in Texts(mask[path]) <==> PiiHit(n.value.s, d)))
  {
    var redact, path, s := RedactorOf(marks, d), JoinDots(n.parts), n.value.s;
    NodeInMask(block, selected, redact, n);
    TextReasonsIff(s, d);
    assert redact(path, n.value) == RedactText(s, d) by {
      assert !Confidential(Str(s));
    }
    MaskTexts(RedactText(s, d).reasons);
  }

  lemma MaskTexts(reasons: seq<string>)
    ensures forall x :: x in Texts(MaskReasonValue(reasons)) <==> x in reasons
  {
  }

  /** A visited place has a mask entry exactly when it was rewritten, with its own reasons. */
  lemma NodeInMask(block: List<Field>, selected: seq<string>, redact: Redactor, n: Node)
    requires Dicts(Obj(block)) && WritesUndotted(BlockNodes(block, selected), redact)
    requires n in BlockNodes(block, selected) && !Dotted(n.parts)
    ensures Redacted(block, redact, selected).Some?
    ensures var mask, r := Redacted(block, redact, selected).value.redactionMask, redact(JoinDots(n.parts), n.value);
            && (JoinDots(n.parts) in mask <==> r.reasons != [])
            && (JoinDots(n.parts) in mask ==> mask[JoinDots(n.parts)] == MaskReasonValue(r.reasons))
  {
    MaskIsExact(block, selected, redact);
    assert [] + n.parts == n.parts;
    var mask, path := Redacted(block, redact, selected).value.redactionMask, JoinDots(n.parts);
    if path in mask {
      var m :| m in BlockNodes(block, selected) && Rewritten(redact, [], m) && JoinDots(m.parts) == path;
      assert [] + m.parts == m.parts;
      SameNode(block, selected, m, n);
    }
  }

  /** Visited places whose keys have no dots are told apart by their paths. */
  lemma SameNode(block: List<Field>, selected: seq<string>, m: Node, n: Node)
    requires Dicts(Obj(block)) && m in BlockNodes(block, selected) && n in BlockNodes(block, selected)
    requires !Dotted(m.parts) && !Dotted(n.parts) && JoinDots(m.parts) == JoinDots(n.parts)
    ensures m == n
  {
    if m != n {
      BlockNodesApart(block, selected);
      PathsDiffer(m.parts, n.parts);
    }
  }

  /** A result that says it changed nothing has an empty mask, and conversely. */
  lemma ChangedIff(block: List<Field>, selected: seq<string>, redact: Redactor)
    requires Redacted(block, redact, selected).Some?
    ensures var r := Redacted(block, redact, selected).value;
            (r.changed <==> r.redactionMask != map[]) && r.regions == selected
  {
    var visits := WalkBlock(block, selected);
    if exists k :: 0 <= k < |visits| && Hit(redact, visits[k]) {
      var k := LastHit(visits, redact);
      AddMasksHas(map[], visits, redact, k);
    } else {
      NothingMasked(map[], visits, redact);
    }
  }

  lemma {:induction false} LastHit(visits: seq<Visit>, redact: Redactor) returns (k: nat)
    requires exists j :: 0 <= j < |visits| && Hit(redact, visits[j])
    ensures k < |visits| && Hit(redact, visits[k]) && forall j :: k < j < |visits| ==> !Hit(redact, visits[j])
  {
    k := |visits| - 1;
    if !Hit(redact, visits[k]) {
      k := LastHit(visits[..k], redact);
    }
  }

  lemma {:induction false} NothingMasked(mask: Marks, visits: seq<Visit>, redact: Redactor)
    requires forall j :: 0 <= j < |visits| ==> !Hit(redact, visits[j])
    ensures AddMasks(mask, visits, redact) == mask
    decreases |visits|
  {
    if visits != [] {
      assert !Hit(redact, visits[0]);
      NothingMasked(mask, visits[1..], redact);
    }
  }

  // ---------------------------------------------------------------- what the regions stand for

  /** The region that a key of the payload belongs to. */
  function RegionOf(key: string): Option<string> {
    if key in {"command", "commands", "argv"} then Some("command")
    else if key in {"output", "stdout", "stderr"} then Some("output")
    else if key in {"screenshot", "screenshots", "image", "images"} then Some("screenshots")
    else None
  }

  lemma PayloadKeysIff(selected: seq<string>, key: string)
    ensures key in PayloadKeys(selected) <==> RegionOf(key).Some? && RegionOf(key).value in selected
  {
  }

  /** Where a region stands in the canonical order. */
  function Rank(region: string): int {
    if region == "command" then 0
    else if region == "output" then 1
    else if region == "metadata" then 2
    else if region == "screenshots" then 3
    else -1
  }

  /**
   The known regions asked for, whatever blanks are around their names, once each in canonical
   order; all of them without a request.
   */
  lemma RegionsAre(regions: Option<seq<string>>)
    ensures var r := NormaliseShareRegions(regions);
            && (forall x :: x in r <==>
                  Rank(x) >= 0 && (regions.None? || exists y :: y in regions.value && Strip(y) == x))
            && Ranked(r)
  {
    var l := BLOCK_SHARE_REGIONS;
    assert forall x :: x in l <==> Rank(x) >= 0 by {
      assert l[0] == "command" && l[1] == "output" && l[2] == "metadata" && l[3] == "screenshots";
    }
    if regions.Some? {
      KeepsRequested(l, StripAll(regions.value));
    }
  }

  ghost predicate Ranked(l: seq<string>) {
    forall i, j :: 0 <= i < j < |l| ==> Rank(l[i]) < Rank(l[j])
  }

  lemma RankedCons(x: string, rest: seq<string>)
    requires Ranked(rest) && forall y :: y in rest ==> Rank(x) < Rank(y)
    ensures Ranked([x] + rest)
  {
    var l := [x] + rest;
    forall i, j | 0 <= i < j < |l| ensures Rank(l[i]) < Rank(l[j]) {
      assert l[j] == rest[j - 1] && rest[j - 1] in rest;
    }
  }

  lemma {:induction false} KeepsRequested(l: seq<string>, requested: set<string>)
    requires Ranked(l)
    ensures forall x :: x in KeepIn(l, requested) <==> x in l && x in requested
    ensures Ranked(KeepIn(l, requested))
  {
    if l != [] {
      var rest := KeepIn(l[1..], requested);
      KeepsRequested(l[1..], requested);
      if l[0] in requested {
        assert KeepIn(l, requested) == [l[0]] + rest;
        forall y | y in rest ensures Rank(l[0]) < Rank(y) {
          var j :| 0 <= j < |l[1..]| && l[1..][j] == y;
          assert l[j + 1] == y;
        }
        RankedCons(l[0], rest);
      } else {
        assert KeepIn(l, requested) == [] + rest;
      }
    }
  }
}
