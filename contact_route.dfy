/**
 * The submission endpoint (`POST /api/contact`): the structural email check and
 * the validation that turns a parsed request body into a response.
 *
 * Parsing the request as JSON is abstracted into `Body`; the logging done on
 * success has no effect on the response and is not modelled.
 */
module ContactRoute {
  import opened Wrappers
  import opened JsText

  // ---------------------------------------------------------------------------
  // isValidEmail: /^[^\s@]+@[^\s@]+\.[^\s@]+$/
  // ---------------------------------------------------------------------------

  /** The character class `[^\s@]`. */
  predicate InClass(c: CodeUnit) {
    !IsWs(c) && c != At
  }

  predicate AllInClass(s: JsString) {
    forall k | 0 <= k < |s| :: InClass(s[k])
  }

  /**
   * The pattern read as a set of strings: three non-empty runs of `[^\s@]`,
   * the first two separated by `@` at `i`, the last two by `.` at `j`.
   */
  ghost predicate SplitsAt(s: JsString, i: int, j: int) {
    && 0 < i && i + 1 < j && j + 1 < |s|
    && s[i] == At && s[j] == Dot
    && AllInClass(s[..i]) && AllInClass(s[i + 1..j]) && AllInClass(s[j + 1..])
  }

  ghost predicate MatchesPattern(s: JsString) {
    exists i, j :: SplitsAt(s, i, j)
  }

  /** Position of the first `@`, or `|s|` when there is none. */
  function IndexOfAt(s: JsString): (k: nat)
    ensures k <= |s|
    ensures k < |s| ==> s[k] == At
    ensures forall t | 0 <= t < k :: s[t] != At
  {
    if s == [] || s[0] == At then 0 else 1 + IndexOfAt(s[1..])
  }

  /** `isValidEmail(email)`: the pattern test, decided by a single scan for `@`. */
  predicate IsValidEmail(s: JsString): (r: bool)
    ensures r ==> |s| >= 5 && At in s && Dot in s
  {
    var k := IndexOfAt(s);
    && 0 < k < |s|
    && AllInClass(s[..k])
    && var d := s[k + 1..];
       AllInClass(d) && 3 <= |d| && Dot in d[1..|d| - 1]
  }

  /** Two different positions holding `@` make it occur at least twice. */
  lemma TwoAts(s: JsString, a: nat, b: nat)
    requires a < b < |s| && s[a] == At && s[b] == At
    ensures multiset(s)[At] >= 2
  {
    assert s == s[..b] + s[b..];
    assert s[..b][a] == At && s[b..][0] == At;
    assert At in multiset(s[..b]) && At in multiset(s[b..]);
  }

  lemma {:induction false} ValidEmailMatches(s: JsString)
    requires IsValidEmail(s)
    ensures MatchesPattern(s)
  {
    var k := IndexOfAt(s);
    var d := s[k + 1..];
    var p :| 0 <= p < |d[1..|d| - 1]| && d[1..|d| - 1][p] == Dot;
    var j := k + 2 + p;
    assert s[k + 1..j] == d[..p + 1];
    assert s[j + 1..] == d[p + 2..];
    assert SplitsAt(s, k, j);
  }

  lemma {:induction false} MatchIsValidEmail(s: JsString, i: int, j: int)
    requires SplitsAt(s, i, j)
    ensures IsValidEmail(s)
  {
    forall t | 0 <= t < i ensures s[t] != At { assert s[..i][t] == s[t]; }
    assert IndexOfAt(s) == i;
    var d := s[i + 1..];
    assert d == s[i + 1..j] + [Dot] + s[j + 1..];
    assert d[1..|d| - 1][j - i - 2] == Dot;
  }

  /** The decision procedure accepts exactly the strings the pattern matches. */
  lemma {:induction false} EmailMatchesPattern(s: JsString)
    ensures IsValidEmail(s) <==> MatchesPattern(s)
  {
    if IsValidEmail(s) {
      ValidEmailMatches(s);
    }
    if MatchesPattern(s) {
      var i, j :| SplitsAt(s, i, j);
      MatchIsValidEmail(s, i, j);
    }
  }

  /** `s` has no whitespace, one `@`, and a `.` strictly inside what follows it. */
  ghost predicate EmailLike(s: JsString) {
    && NoWs(s)
    && multiset(s)[At] == 1
    && exists i, j | 0 < i && i + 1 < j < |s| - 1 :: s[i] == At && s[j] == Dot
  }

  lemma {:induction false} ValidEmailIsEmailLike(s: JsString)
    requires IsValidEmail(s)
    ensures EmailLike(s)
  {
    var k := IndexOfAt(s);
    var d := s[k + 1..];
    assert s == s[..k] + [At] + d;
    assert At !in multiset(s[..k]) && At !in multiset(d);
    forall t | 0 <= t < |s| ensures !IsWs(s[t]) {
      if t < k { assert s[..k][t] == s[t]; }
      else if t > k { assert d[t - k - 1] == s[t]; }
    }
    var p :| 0 <= p < |d[1..|d| - 1]| && d[1..|d| - 1][p] == Dot;
    assert s[k + 2 + p] == Dot;
  }

  lemma {:induction false} EmailLikeIsValidEmail(s: JsString, i: nat, j: nat)
    requires NoWs(s) && multiset(s)[At] == 1
    requires 0 < i && i + 1 < j < |s| - 1 && s[i] == At && s[j] == Dot
    ensures IsValidEmail(s)
  {
    var k := IndexOfAt(s);
    if k < i { TwoAts(s, k, i); }
    assert k == i;
    forall t | 0 <= t < |s| && t != i ensures InClass(s[t]) {
      if t > i && s[t] == At { TwoAts(s, i, t); }
    }
    var d := s[i + 1..];
    assert AllInClass(s[..i]) by {
      forall t | 0 <= t < i ensures InClass(s[..i][t]) { assert s[..i][t] == s[t]; }
    }
    assert AllInClass(d) by {
      forall t | 0 <= t < |d| ensures InClass(d[t]) { assert d[t] == s[i + 1 + t]; }
    }
    assert d[1..|d| - 1][j - i - 2] == Dot;
  }

  /**
   * The structural reading: no whitespace, exactly one `@`, something before
   * it, and a `.` after it that is neither the first nor the last unit of the
   * part after `@`.
   */
  lemma {:induction false} EmailShape(s: JsString)
    ensures IsValidEmail(s) <==>
      && NoWs(s)
      && multiset(s)[At] == 1
      && exists i, j | 0 < i && i + 1 < j < |s| - 1 :: s[i] == At && s[j] == Dot
  {
    if IsValidEmail(s) {
      ValidEmailIsEmailLike(s);
    }
    if EmailLike(s) {
      var i, j :| 0 < i && i + 1 < j < |s| - 1 && s[i] == At && s[j] == Dot;
      EmailLikeIsValidEmail(s, i, j);
    }
  }

  /** For any units `x`, `y`, `z` of `[^\s@]`, "x@y.z" matches. */
  lemma EmailExampleAccepted(x: CodeUnit, y: CodeUnit, z: CodeUnit)
    requires InClass(x) && InClass(y) && InClass(z)
    ensures IsValidEmail([x, At, y, Dot, z])
  {
    var s := [x, At, y, Dot, z];
    assert SplitsAt(s, 1, 3) by {
      assert s[..1] == [x] && s[2..3] == [y] && s[4..] == [z];
    }
    EmailMatchesPattern(s);
  }

  /**
   * For any units `x`, `y`, `z` of `[^\s@]`: "x@y" (no dot) does not match,
   * nor does "x y@z.x" (inner whitespace) or " x@y.z " (outer whitespace).
   */
  lemma EmailExamplesRejected(x: CodeUnit, y: CodeUnit, z: CodeUnit)
    requires InClass(x) && InClass(y) && InClass(z)
    ensures !IsValidEmail([x, At, y])
    ensures !IsValidEmail([x, Space, y, At, z, Dot, x])
    ensures !IsValidEmail([Space, x, At, y, Dot, z, Space])
  {
    EmailShape([x, At, y]);
    var spaced := [x, Space, y, At, z, Dot, x];
    assert !NoWs(spaced) by { assert IsWs(spaced[1]); }
    EmailShape(spaced);
    var padded := [Space, x, At, y, Dot, z, Space];
    assert !NoWs(padded) by { assert IsWs(padded[0]); }
    EmailShape(padded);
  }

  // ---------------------------------------------------------------------------
  // POST
  // ---------------------------------------------------------------------------

  /**
   * The request body after `await request.json().catch(() => null)`.
   * `Invalid` stands for every body the handler rejects up front: unparseable
   * JSON (null), any other falsy value and any value that is not of type
   * object. `Obj` is an object (arrays included); a field is `None` when it is
   * missing or null, and otherwise holds the string `String(value)` gives,
   * for a value whose conversion to a string does not throw.
   */
  datatype Body =
    | Invalid
    | Obj(name: Option<JsString>, email: Option<JsString>, message: Option<JsString>)

  /** The JSON object the handler answers with. */
  datatype ResponseBody =
    | ErrorBody(error: string)                                  // { error }
    | ValidationBody(error: string, errors: map<string, string>) // { error, errors }
    | MessageBody(message: string)                              // { message }

  datatype Response = Response(status: nat, body: ResponseBody)

  const MinNameLength := 2
  const MinMessageLength := 10

  const NameError := "Name must be at least 2 characters"
  const EmailError := "Enter a valid email"
  const MessageError := "Message must be at least 10 characters"

  const InvalidJson := "Invalid JSON body"
  const ValidationFailed := "Validation failed"
  const Received := "Your message has been received."

  /** `String(v ?? "").trim()`: a missing field reads as empty, a present one is trimmed. */
  function Field(v: Option<JsString>): (r: JsString)
    ensures v.None? ==> r == []
    ensures v.Some? ==> |r| <= |v.value| && IsTrimOf(r, v.value)
  {
    Trim(v.GetOr([]))
  }

  /**
   * The `errors` record, built by three independent conditional insertions
   * into an empty map, in the handler's order.
   */
  function FieldErrors(name: JsString, email: JsString, message: JsString): (errors: map<string, string>)
    ensures errors.Keys <= {"name", "email", "message"}
    ensures "name" in errors <==> |name| < MinNameLength
    ensures "email" in errors <==> !IsValidEmail(email)
    ensures "message" in errors <==> |message| < MinMessageLength
    ensures "name" in errors ==> errors["name"] == NameError
    ensures "email" in errors ==> errors["email"] == EmailError
    ensures "message" in errors ==> errors["message"] == MessageError
  {
    var e0: map<string, string> := map[];
    var e1 := if |name| < MinNameLength then e0["name" := NameError] else e0;
    var e2 := if !IsValidEmail(email) then e1["email" := EmailError] else e1;
    var e3 := if |message| < MinMessageLength then e2["message" := MessageError] else e2;
    e3
  }

  /** How many of the three rules the (trimmed) fields break. */
  function ViolationCount(name: JsString, email: JsString, message: JsString): nat {
    (if |name| < MinNameLength then 1 else 0)
    + (if IsValidEmail(email) then 0 else 1)
    + (if |message| < MinMessageLength then 1 else 0)
  }

  /** All three rules hold of the (trimmed) fields. */
  predicate Acceptable(name: JsString, email: JsString, message: JsString) {
    |name| >= MinNameLength && IsValidEmail(email) && |message| >= MinMessageLength
  }

  /** Every broken rule is reported: one entry per violation, not only the first. */
  lemma {:induction false} ErrorsCountViolations(name: JsString, email: JsString, message: JsString)
    ensures |FieldErrors(name, email, message)| == ViolationCount(name, email, message) <= 3
    ensures FieldErrors(name, email, message) == map[] <==> Acceptable(name, email, message)
  {
    // Each insertion uses a key the map does not hold yet, so each one adds one entry.
    var e0: map<string, string> := map[];
    var e1 := if |name| < MinNameLength then e0["name" := NameError] else e0;
    assert |e1| == if |name| < MinNameLength then 1 else 0;
    assert "email" !in e1;
    var e2 := if !IsValidEmail(email) then e1["email" := EmailError] else e1;
    assert |e2| == |e1| + if IsValidEmail(email) then 0 else 1;
    assert "message" !in e2;
    var e3 := if |message| < MinMessageLength then e2["message" := MessageError] else e2;
    assert |e3| == |e2| + if |message| < MinMessageLength then 1 else 0;
    assert FieldErrors(name, email, message) == e3;
  }

  /**
   * The handler's answer once the fields are read and trimmed: the error map
   * is built, and a non-empty one is returned with 400, while an empty one
   * gives 200 and the confirmation. Exactly one of the two happens.
   */
  function Validate(name: JsString, email: JsString, message: JsString): (r: Response)
    ensures Acceptable(name, email, message) ==> r == Response(200, MessageBody(Received))
    ensures !Acceptable(name, email, message) ==>
      && r.status == 400
      && r.body == ValidationBody(ValidationFailed, FieldErrors(name, email, message))
      && 1 <= |r.body.errors| == ViolationCount(name, email, message)
  {
    var errors := FieldErrors(name, email, message);
    ErrorsCountViolations(name, email, message);
    if |errors| > 0 then
      Response(400, ValidationBody(ValidationFailed, errors))
    else
      Response(200, MessageBody(Received))
  }

  /**
   * The handler's answer to a request whose body parsed to `body`: a body
   * that is not an object is refused before any field is read; otherwise the
   * three fields, `""` when missing, are trimmed and validated.
   */
  function Post(body: Body): (r: Response)
    ensures body.Invalid? ==> r == Response(400, ErrorBody(InvalidJson))
    ensures body.Obj? ==> r == Validate(Field(body.name), Field(body.email), Field(body.message))
    ensures body.Obj? ==>
      (r.status == 200 <==> Acceptable(Field(body.name), Field(body.email), Field(body.message)))
    ensures r.status == 200 || r.status == 400
  {
    match body
    case Invalid => Response(400, ErrorBody(InvalidJson))
    case Obj(n, e, m) => Validate(Field(n), Field(e), Field(m))
  }

  /**
   * Whitespace around any field never counts: not toward the name and message
   * lengths, and not against the email, which is trimmed before the test.
   * Each field has its own padding, so padding only one field is covered.
   */
  lemma PostIgnoresSurroundingWs(
    pn: JsString, qn: JsString, pe: JsString, qe: JsString, pm: JsString, qm: JsString,
    name: JsString, email: JsString, message: JsString)
    requires AllWs(pn) && AllWs(qn) && AllWs(pe) && AllWs(qe) && AllWs(pm) && AllWs(qm)
    ensures Post(Obj(Some(pn + name + qn), Some(pe + email + qe), Some(pm + message + qm)))
         == Post(Obj(Some(name), Some(email), Some(message)))
  {
    TrimSurrounding(pn, name, qn);
    TrimSurrounding(pe, email, qe);
    TrimSurrounding(pm, message, qm);
  }

  /** Fields breaking all three rules get 400 with all three keys and no other. */
  lemma AllRulesBroken(name: JsString, email: JsString, message: JsString)
    requires |name| < MinNameLength && !IsValidEmail(email) && |message| < MinMessageLength
    ensures Validate(name, email, message).status == 400
    ensures var errors := Validate(name, email, message).body.errors;
      "name" in errors && "email" in errors && "message" in errors && |errors| == 3
  {
    assert ViolationCount(name, email, message) == 3;
  }

  /** An object without any of the three fields breaks all three rules. */
  lemma NoFieldsBreaksAllRules()
    ensures var r := Post(Obj(None, None, None));
      r.status == 400 && "name" in r.body.errors && "email" in r.body.errors && "message" in r.body.errors
  {
    assert Field(None) == [] by { assert Trim([]) == []; }
    assert !IsValidEmail([]);
    AllRulesBroken([], [], []);
  }

  /**
   * For any unit `x` of `[^\s@]`, the body { name: "x", email: "xxx",
   * message: "xx" } breaks all three rules.
   */
  lemma ShortFieldsBreakAllRules(x: CodeUnit)
    requires InClass(x)
    ensures var r := Post(Obj(Some([x]), Some([x, x, x]), Some([x, x])));
      r.status == 400 && "name" in r.body.errors && "email" in r.body.errors && "message" in r.body.errors
  {
    assert NoWs([x]) && NoWs([x, x, x]) && NoWs([x, x]);
    TrimNoWs([x]);
    TrimNoWs([x, x, x]);
    TrimNoWs([x, x]);
    EmailShape([x, x, x]);
    AllRulesBroken([x], [x, x, x], [x, x]);
  }
}
