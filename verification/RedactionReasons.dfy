/** Why and how one visited value is redacted, in backend/block_redaction.py. */
module RedactionReasons {
  import opened Wrappers
  import opened Strings
  import opened Json
  import opened CanonicalJson
  import opened JsonTree
  import opened RedactionWalk

  // Operator marks are looked up at the path and its ancestors; KS.1 envelopes are replaced; the
  // detectors for text are parameters.

  /** A value of the mask: one reason, or a list of them. */
  datatype Mark = OneReason(text: string) | Reasons(texts: seq<string>)

  type Marks = map<string, Mark>

  const REDACTION_SECRET := "secret"
  const REDACTION_PII := "pii"
  const REDACTION_CUSTOMER_IP := "customer_ip"
  const REDACTION_KS_ENVELOPE := "ks_envelope"
  const REDACTION_REASONS := [REDACTION_SECRET, REDACTION_PII, REDACTION_CUSTOMER_IP, REDACTION_KS_ENVELOPE]

  // ---------------------------------------------------------------- reasons of a mark

  function Stripped(texts: seq<string>): seq<string> {
    if texts == [] then []
    else (if Strip(texts[0]) == "" then [] else [Strip(texts[0])]) + Stripped(texts[1..])
  }

  function Allowed(reasons: seq<string>): seq<string> {
    if reasons == [] then []
    else (if reasons[0] in REDACTION_REASONS then [reasons[0]] else []) + Allowed(reasons[1..])
  }

  /** Each reason once, in order of first appearance. */
  function Dedupe(reasons: seq<string>): seq<string> {
    if reasons == [] then []
    else
      var front, last := Dedupe(reasons[..|reasons| - 1]), reasons[|reasons| - 1];
      if last in front || last == "" then front else front + [last]
  }

  function Texts(m: Mark): seq<string> {
    match m
    case OneReason(text) => [text]
    case Reasons(texts) => texts
  }

  function NormaliseReasons(m: Mark): seq<string> {
    var reasons := Stripped(Texts(m));
    if "none" in reasons then []
    else Dedupe(if Allowed(reasons) == [] then [REDACTION_SECRET] else Allowed(reasons))
  }

  lemma {:induction false} DedupeKeeps(reasons: seq<string>)
    ensures forall x :: x in Dedupe(reasons) <==> x in reasons && x != ""
    ensures forall i, j :: 0 <= i < j < |Dedupe(reasons)| ==> Dedupe(reasons)[i] != Dedupe(reasons)[j]
  {
    if reasons != [] {
      DedupeKeeps(reasons[..|reasons| - 1]);
      assert reasons == reasons[..|reasons| - 1] + [reasons[|reasons| - 1]];
    }
  }

  lemma {:induction false} AllowedKeeps(reasons: seq<string>)
    ensures forall x :: x in Allowed(reasons) <==> x in reasons && x in REDACTION_REASONS
  {
    if reasons != [] {
      AllowedKeeps(reasons[1..]);
    }
  }

  /** The texts of a mark without the blanks around them, empty ones left out. */
  lemma {:induction false} StrippedIff(texts: seq<string>)
    ensures forall x :: x in Stripped(texts) <==> x != "" && exists i :: 0 <= i < |texts| && Strip(texts[i]) == x
  {
    if texts != [] {
      var rest := Stripped(texts[1..]);
      StrippedIff(texts[1..]);
      forall x ensures x in Stripped(texts) <==> x != "" && exists i :: 0 <= i < |texts| && Strip(texts[i]) == x {
        if i :| 0 <= i < |texts[1..]| && Strip(texts[1..][i]) == x {
          assert Strip(texts[i + 1]) == x;
        }
        if i :| 0 < i < |texts| && Strip(texts[i]) == x {
          assert Strip(texts[1..][i - 1]) == x;
        }
        assert x in Stripped(texts) <==> (x != "" && x == Strip(texts[0])) || x in rest;
      }
    }
  }

  /**
   A mark exempts exactly when it lists "none"; otherwise its reasons are the known ones it
   lists, or "secret" when it lists no known one, each once.
   */
  lemma ReasonsOfMark(m: Mark)
    ensures var listed, r := Stripped(Texts(m)), NormaliseReasons(m);
            && (r == [] <==> "none" in listed)
            && (forall i, j :: 0 <= i < j < |r| ==> r[i] != r[j])
            && (r != [] ==> forall x :: x in r <==>
                  if exists y :: y in listed && y in REDACTION_REASONS
                  then x in listed && x in REDACTION_REASONS else x == REDACTION_SECRET)
  {
    var listed := Stripped(Texts(m));
    var allowed := if Allowed(listed) == [] then [REDACTION_SECRET] else Allowed(listed);
    AllowedKeeps(listed);
    DedupeKeeps(allowed);
    assert Allowed(listed) != [] ==> Allowed(listed)[0] in listed && Allowed(listed)[0] in REDACTION_REASONS;
    assert allowed[0] in allowed;
    assert forall x :: x in REDACTION_REASONS ==> x != "";
    assert allowed[0] in Dedupe(allowed);
  }

  // ---------------------------------------------------------------- the mark for a path

  /** The mark of the path itself or of its nearest marked ancestor. */
  function NearestMark(marks: Marks, parts: Path): Option<Mark> {
    if parts == [] then None
    else if JoinDots(parts) in marks then Some(marks[JoinDots(parts)])
    else NearestMark(marks, parts[..|parts| - 1])
  }

  /** Nearest means longest: no longer prefix is marked, and none at all when there is no mark. */
  lemma {:induction false} NearestIsLongest(marks: Marks, parts: Path) returns (k: nat)
    ensures k <= |parts|
    ensures NearestMark(marks, parts) ==
            if k == 0 then None
            else if JoinDots(parts[..k]) in marks then Some(marks[JoinDots(parts[..k])]) else None
    ensures k > 0 ==> JoinDots(parts[..k]) in marks
    ensures forall j :: k < j <= |parts| ==> JoinDots(parts[..j]) !in marks
  {
    k := |parts|;
    assert parts[..k] == parts;
    if parts != [] && JoinDots(parts) !in marks {
      var front := parts[..|parts| - 1];
      k := NearestIsLongest(marks, front);
      assert forall j :: 0 <= j <= |front| ==> front[..j] == parts[..j];
    }
  }

  method ExplicitReasonForPath(marks: Marks, path: string) returns (mark: Option<Mark>)
    ensures mark == NearestMark(marks, SplitDots(path))
  {
    JoinSplit(path);
    if path in marks {
      return Some(marks[path]);
    }
    var parts := SplitDots(path);
    assert parts[..|parts|] == parts;
    for idx := |parts| downto 1
      invariant NearestMark(marks, parts) == NearestMark(marks, parts[..idx])
      invariant JoinDots(parts[..idx]) !in marks
    {
      assert parts[..idx + 1][..idx] == parts[..idx];
      if JoinDots(parts[..idx]) in marks {
        return Some(marks[JoinDots(parts[..idx])]);
      }
    }
    assert parts[..1][..0] == [];
    return None;
  }

  // ---------------------------------------------------------------- redacting a value

  /** Rewriters of text: secrets and PII report a hit, the IP rewrite shows in its result. */
  datatype Detectors = Detectors(secrets: string -> (string, bool), maskIps: string -> string,
                                pii: string -> (string, bool))

  function JoinReasons(reasons: seq<string>): string {
    if reasons == [] then "" else if |reasons| == 1 then reasons[0] else reasons[0] + "+" + JoinReasons(reasons[1..])
  }

  function Placeholder(reasons: seq<string>): Json {
    Str("[REDACTED:" + JoinReasons(reasons) + "]")
  }

  const KS_PLACEHOLDER := Obj(
    Cons(Field("redacted", Bool(true)), Cons(Field("reason", Str(REDACTION_KS_ENVELOPE)), Nil)))

  /** None and the falsy marks give no explicit reason. */
  predicate Explicit(mark: Option<Mark>) {
    mark.Some? && mark.value != OneReason("") && mark.value != Reasons([])
  }

  function RedactText(s: string, d: Detectors): Redaction {
    var (out, secretHit) := d.secrets(s);
    var afterIp := d.maskIps(out);
    var (afterPii, piiHit) := d.pii(afterIp);
    Redaction(Str(if piiHit then afterPii else afterIp),
              Dedupe((if secretHit then [REDACTION_SECRET] else [])
                     + (if afterIp != out then [REDACTION_CUSTOMER_IP] else [])
                     + (if piiHit then [REDACTION_PII] else [])))
  }

  function RedactValue(mark: Option<Mark>, v: Json, d: Detectors): Redaction {
    if Explicit(mark) then
      var reasons := NormaliseReasons(mark.value);
      if reasons == [] then Redaction(v, []) else Redaction(Placeholder(reasons), reasons)
    else if Confidential(v) then Redaction(KS_PLACEHOLDER, [REDACTION_KS_ENVELOPE])
    else if v.Str? then RedactText(v.s, d)
    else Redaction(v, [])
  }

  function RedactorOf(marks: Marks, d: Detectors): Redactor {
    (path, v) => RedactValue(NearestMark(marks, SplitDots(path)), v, d)
  }

  /** An operator's "none" at the path or at its nearest marked ancestor. */
  predicate Exempt(marks: Marks, path: string) {
    var mark := NearestMark(marks, SplitDots(path));
    Explicit(mark) && NormaliseReasons(mark.value) == []
  }

  lemma KsPlaceholderShallow(q: Path)
    requires q != [] && Get(KS_PLACEHOLDER, q).Some?
    ensures |q| == 1 && q[0] in ["redacted", "reason"]
    ensures Get(KS_PLACEHOLDER, q).value.Bool? || Get(KS_PLACEHOLDER, q).value.Str?
  {
    var reason: List<Field> := Cons(Field("reason", Str(REDACTION_KS_ENVELOPE)), Nil);
    assert Lookup(reason.tail, q[0]).None?;
    assert Lookup(reason, q[0]) == if q[0] == "reason" then Some(reason.head.value) else None;
    assert Lookup(KS_PLACEHOLDER.fields, q[0]) == if q[0] == "redacted" then Some(Bool(true)) else Lookup(reason, q[0]);
    var c := Child(KS_PLACEHOLDER, q[0]).value;
    assert c.Bool? || c.Str?;
  }

  lemma KsPlaceholderClean()
    ensures Clean(KS_PLACEHOLDER) && Undotted(KS_PLACEHOLDER)
  {
    assert !Confidential(KS_PLACEHOLDER) by {
      assert "fmt" in KsEnvelopeKeys();
    }
    forall q | Get(KS_PLACEHOLDER, q).Some? ensures !Confidential(Get(KS_PLACEHOLDER, q).value) {
      if q != [] {
        KsPlaceholderShallow(q);
      }
    }
    forall q | Dotted(q) ensures Get(KS_PLACEHOLDER, q).None? {
      assert DotFree("redacted") && DotFree("reason");
      if Get(KS_PLACEHOLDER, q).Some? {
        KsPlaceholderShallow(q);
      }
    }
  }

  /** What replaces a value holds no envelope, and nothing that is reached through a dotted key. */
  lemma RedactorSeals(marks: Marks, d: Detectors)
    ensures Seals(RedactorOf(marks, d))
    ensures forall path, v :: RedactorOf(marks, d)(path, v).reasons != []
              ==> Undotted(RedactorOf(marks, d)(path, v).value)
  {
    var redact := RedactorOf(marks, d);
    forall path, v | redact(path, v).reasons != []
      ensures Clean(redact(path, v).value) && Undotted(redact(path, v).value)
    {
      KsPlaceholderClean();
      if redact(path, v).value.Str? {
      }
    }
  }

  /** An envelope the walk yields is replaced, unless an operator exempted it. */
  lemma EnvelopeRewrittenIff(marks: Marks, d: Detectors, path: string, v: Json)
    requires Confidential(v)
    ensures RedactorOf(marks, d)(path, v).reasons != [] <==> !Exempt(marks, path)
  {
  }

  lemma TextReasonsKnown(s: string, d: Detectors)
    ensures var r := RedactText(s, d).reasons;
            && (forall x :: x in r ==> x in REDACTION_REASONS)
            && (forall i, j :: 0 <= i < j < |r| ==> r[i] != r[j])
  {
    var (out, secretHit) := d.secrets(s);
    var afterIp := d.maskIps(out);
    var secret := if secretHit then [REDACTION_SECRET] else [];
    var ip := if afterIp != out then [REDACTION_CUSTOMER_IP] else [];
    var pii := if d.pii(afterIp).1 then [REDACTION_PII] else [];
    DedupeKeeps(secret + ip + pii);
    assert RedactText(s, d).reasons == Dedupe(secret + ip + pii);
    forall x | x in secret + ip + pii ensures x in REDACTION_REASONS {
      assert x in secret || x in ip || x in pii;
    }
  }

  /** Every reason given is a known one, and none is given twice. */
  lemma ReasonsKnown(marks: Marks, d: Detectors, path: string, v: Json)
    ensures var r := RedactorOf(marks, d)(path, v).reasons;
            && (forall x :: x in r ==> x in REDACTION_REASONS)
            && (forall i, j :: 0 <= i < j < |r| ==> r[i] != r[j])
  {
    var mark := NearestMark(marks, SplitDots(path));
    if Explicit(mark) {
      ReasonsOfMark(mark.value);
    } else if !Confidential(v) && v.Str? {
      TextReasonsKnown(v.s, d);
    }
  }

  // ---------------------------------------------------------------- what becomes of a text

  /** Secrets are reported whenever they are rewritten. */
  ghost predicate Honest(d: Detectors) {
    forall t :: !d.secrets(t).1 ==> d.secrets(t).0 == t
  }

  /** The last stage's text, which counts when it reports a hit. */
  function MaskPii(t: string, d: Detectors): string {
    if d.pii(t).1 then d.pii(t).0 else t
  }

  /** Some stage brings the property about, and the stages after it keep it. */
  ghost predicate Established(ok: string -> bool, d: Detectors) {
    || (&& (forall t :: ok(d.secrets(t).0))
        && (forall t :: ok(t) ==> ok(d.maskIps(t)))
        && (forall t :: ok(t) ==> ok(MaskPii(t, d))))
    || ((forall t :: ok(d.maskIps(t))) && (forall t :: ok(t) ==> ok(MaskPii(t, d))))
    || (forall t :: ok(MaskPii(t, d)))
  }

  predicate SecretHit(s: string, d: Detectors) {
    d.secrets(s).1
  }

  predicate IpHit(s: string, d: Detectors) {
    d.maskIps(d.secrets(s).0) != d.secrets(s).0
  }

  predicate PiiHit(s: string, d: Detectors) {
    d.pii(d.maskIps(d.secrets(s).0)).1
  }

  predicate NoHit(s: string, d: Detectors) {
    !SecretHit(s, d) && !IpHit(s, d) && !PiiHit(s, d)
  }

  /** Each stage's reason is given exactly when the stage hit. */
  lemma TextReasonsIff(s: string, d: Detectors)
    ensures var r := RedactText(s, d).reasons;
            && (REDACTION_SECRET in r <==> SecretHit(s, d))
            && (REDACTION_CUSTOMER_IP in r <==> IpHit(s, d))
            && (REDACTION_PII in r <==> PiiHit(s, d))
            && (r == [] <==> NoHit(s, d))
  {
    var secret := if SecretHit(s, d) then [REDACTION_SECRET] else [];
    var ip := if IpHit(s, d) then [REDACTION_CUSTOMER_IP] else [];
    var pii := if PiiHit(s, d) then [REDACTION_PII] else [];
    assert RedactText(s, d).reasons == Dedupe(secret + ip + pii);
    DedupeThree(secret, ip, pii);
    ReasonsDiffer();
  }

  lemma ReasonsDiffer()
    ensures REDACTION_SECRET != REDACTION_PII && REDACTION_SECRET != REDACTION_CUSTOMER_IP
    ensures REDACTION_PII != REDACTION_CUSTOMER_IP
    ensures REDACTION_SECRET != "" && REDACTION_PII != "" && REDACTION_CUSTOMER_IP != ""
  {
  }

  lemma DedupeThree(a: seq<string>, b: seq<string>, c: seq<string>)
    ensures forall x :: x in Dedupe(a + b + c) <==> x != "" && (x in a || x in b || x in c)
    ensures a == [] && b == [] && c == [] ==> Dedupe(a + b + c) == []
  {
    DedupeKeeps(a + b + c);
    forall x ensures x in a + b + c <==> x in a || x in b || x in c {
    }
  }

  /** Whatever a stage is for holds of the text that is handed on, and a text without a hit is handed on as it is. */
  lemma TextEstablished(s: string, d: Detectors, ok: string -> bool)
    requires Honest(d) && Established(ok, d)
    ensures var r := RedactText(s, d);
            r.value.Str? && ok(r.value.s) && (NoHit(s, d) ==> r.value == Str(s))
  {
    var out := d.secrets(s).0;
    var afterIp := d.maskIps(out);
    assert RedactText(s, d).value == Str(MaskPii(afterIp, d));
  }

  // ---------------------------------------------------------------- what becomes of a marked value

  /** A value under a mark that does not exempt it leaves no trace: all that is left is the mark's reasons. */
  lemma MarkedLeavesReasons(mark: Option<Mark>, v: Json, d: Detectors)
    requires Explicit(mark)
    ensures var r, reasons := RedactValue(mark, v, d), NormaliseReasons(mark.value);
            r == if reasons == [] then Redaction(v, []) else Redaction(Placeholder(reasons), reasons)
    ensures forall w :: NormaliseReasons(mark.value) != [] ==> RedactValue(mark, w, d) == RedactValue(mark, v, d)
  {
  }

  predicate PlusFree(s: string) {
    forall i :: 0 <= i < |s| ==> s[i] != '+'
  }

  lemma {:induction false} JoinReasonsUnique(a: seq<string>, b: seq<string>)
    requires a != [] && b != [] && (forall x :: x in a ==> PlusFree(x)) && (forall x :: x in b ==> PlusFree(x))
    requires JoinReasons(a) == JoinReasons(b)
    ensures a == b
    decreases |a|
  {
    var s, t := JoinReasons(a), JoinReasons(b);
    var x, y := a[0], b[0];
    assert x in a && y in b;
    assert |a| > 1 ==> s == x + ("+" + JoinReasons(a[1..])) && s[|x|] == '+';
    assert |b| > 1 ==> t == y + ("+" + JoinReasons(b[1..])) && t[|y|] == '+';
    assert |a| > 1 <==> |b| > 1;
    if |a| > 1 {
      assert |x| == |y|;
      assert x == s[..|x|] && y == t[..|y|];
      Cancel(x, "+" + JoinReasons(a[1..]), "+" + JoinReasons(b[1..]));
      Cancel("+", JoinReasons(a[1..]), JoinReasons(b[1..]));
      JoinReasonsUnique(a[1..], b[1..]);
      assert a == [x] + a[1..] && b == [y] + b[1..];
    } else {
      assert a == [x] && b == [y];
    }
  }

  /** A placeholder tells its reasons: no other reasons have the same one. */
  lemma PlaceholderTells(a: seq<string>, b: seq<string>)
    requires a != [] && b != []
    requires (forall x :: x in a ==> x in REDACTION_REASONS) && (forall x :: x in b ==> x in REDACTION_REASONS)
    requires Placeholder(a) == Placeholder(b)
    ensures a == b
  {
    var open := "[REDACTED:";
    assert open + (JoinReasons(a) + "]") == Placeholder(a).s && open + (JoinReasons(b) + "]") == Placeholder(b).s;
    Cancel(open, JoinReasons(a) + "]", JoinReasons(b) + "]");
    assert JoinReasons(a) == (JoinReasons(a) + "]")[..|JoinReasons(a)|];
    assert JoinReasons(b) == (JoinReasons(b) + "]")[..|JoinReasons(b)|];
    assert forall x :: x in REDACTION_REASONS ==> PlusFree(x);
    JoinReasonsUnique(a, b);
  }
}
