/**
 * The client's request helper (web/src/api.js): where requests go, the
 * `Authorization` header it attaches, and the message of the error it
 * throws for a response that is not ok. The `fetch` itself is not modelled.
 */
module ApiClient {
  import opened Wrappers
  import opened Text
  import opened Tokens
  import OrderService
  import CatalogService

  // ---------------------------------------------------------------------------
  // API base
  // ---------------------------------------------------------------------------

  /** The address used when there is neither an environment setting nor a window origin. */
  const FallbackBase: string := "https://34.128.184.43.nip.io/api"

  /** `s.replace(/\/$/, '')`: one trailing slash removed. */
  function StripTrailingSlash(s: string): string {
    if |s| > 0 && s[|s| - 1] == '/' then s[..|s| - 1] else s
  }

  /**
   * resolveApiBase. The environment settings are "" when undefined; the
   * origin is None outside a browser or when the window has none.
   */
  function ResolveApiBase(viteApiBase: string, viteApiUrl: string, origin: Option<string>): string {
    var envBase := if viteApiBase != "" then viteApiBase else viteApiUrl;
    if envBase != "" then StripTrailingSlash(envBase)
    else if origin.Some? && origin.value != "" then origin.value + "/api"
    else FallbackBase
  }

  /**
   * An explicit base loses exactly one trailing slash (so `x//` keeps one)
   * and `VITE_API_BASE` wins over `VITE_API_URL`; without either the base is
   * the origin followed by `/api`.
   */
  lemma ResolveApiBaseSpec(viteApiBase: string, viteApiUrl: string, origin: Option<string>)
    ensures var envBase := if viteApiBase != "" then viteApiBase else viteApiUrl;
      var r := ResolveApiBase(viteApiBase, viteApiUrl, origin);
      && (envBase != "" ==> r + (if envBase[|envBase| - 1] == '/' then "/" else "") == envBase)
      && (envBase != "" && envBase[|envBase| - 1] == '/' ==> |r| == |envBase| - 1)
      && (envBase != "" && envBase[|envBase| - 1] != '/' ==> r == envBase)
      && (envBase == "" && origin.Some? && origin.value != "" ==> r == origin.value + "/api")
      && (envBase == "" && (origin.None? || origin.value == "") ==> r == FallbackBase)
  {
    var envBase := if viteApiBase != "" then viteApiBase else viteApiUrl;
    if envBase != "" && envBase[|envBase| - 1] == '/' {
      assert envBase[..|envBase| - 1] + "/" == envBase;
    }
  }

  // ---------------------------------------------------------------------------
  // Authorization header
  // ---------------------------------------------------------------------------

  /** The header a request carries: present only for a non-empty token. */
  function AuthorizationHeader(token: string): (h: Option<string>)
    ensures h.Some? <==> token != ""
  {
    if token != "" then Some(BearerPrefix + token) else None
  }

  /** The `Authorization` value a service receives: "" when the header is absent. */
  function Received(h: Option<string>): string {
    if h.Some? then h.value else ""
  }

  /**
   * The header round-trips: the order service's getUser and the catalog's
   * admin check both read back exactly the token the client sent, and a
   * request without a token identifies nobody.
   */
  lemma AuthorizationRoundTrip(token: string, decode: string -> Option<Claims>)
    ensures token != "" ==> OrderService.GetUser(Received(AuthorizationHeader(token)), decode) == decode(token)
    ensures token != "" ==> CatalogService.AdminToken(Received(AuthorizationHeader(token))) == token
    ensures token == "" ==> OrderService.GetUser(Received(AuthorizationHeader(token)), decode) == None
  {
    if token != "" {
      var h := BearerPrefix + token;
      assert h[..|BearerPrefix|] == BearerPrefix;
      assert h[|BearerPrefix|..] == token;
    }
  }

  // ---------------------------------------------------------------------------
  // Error messages
  // ---------------------------------------------------------------------------

  const NameMessage: string := "Medicine name must be at least 2 characters long"
  const PriceMessage: string := "Price must be a positive number"
  const StockMessage: string := "Stock must be a positive number"
  const CredentialsMessage: string := "Invalid email or password"
  const ForbiddenMessage: string := "Access denied"
  const LoginMessage: string := "Please log in again"

  /** The if/else chain over a non-empty `error` string. */
  function Classify(error: string): string {
    if Contains(error, "minimum") && Contains(error, "name") then NameMessage
    else if Contains(error, "nonnegative") && Contains(error, "price") then PriceMessage
    else if Contains(error, "nonnegative") && Contains(error, "stock") then StockMessage
    else if Contains(error, "invalid credentials") then CredentialsMessage
    else if Contains(error, "forbidden") then ForbiddenMessage
    else if Contains(error, "unauthorized") then LoginMessage
    else error
  }

  /** A rule of the chain: every needle must occur in the error for the message to be chosen. */
  datatype Rule = Rule(needles: seq<string>, message: string)

  const Rules: seq<Rule> := [
    Rule(["minimum", "name"], NameMessage),
    Rule(["nonnegative", "price"], PriceMessage),
    Rule(["nonnegative", "stock"], StockMessage),
    Rule(["invalid credentials"], CredentialsMessage),
    Rule(["forbidden"], ForbiddenMessage),
    Rule(["unauthorized"], LoginMessage)
  ]

  predicate Matches(error: string, rule: Rule) {
    forall i :: 0 <= i < |rule.needles| ==> Contains(error, rule.needles[i])
  }

  /** The message of the first matching rule, or the error itself when none matches. */
  function FirstMatch(error: string, rules: seq<Rule>): string {
    if |rules| == 0 then error
    else if Matches(error, rules[0]) then rules[0].message
    else FirstMatch(error, rules[1..])
  }

  /** The first-match reading: the earliest matching rule decides, and with no match the error is kept verbatim. */
  lemma {:induction false} FirstMatchSpec(error: string, rules: seq<Rule>)
    ensures (forall k :: 0 <= k < |rules| ==> !Matches(error, rules[k])) ==> FirstMatch(error, rules) == error
    ensures forall k :: 0 <= k < |rules| && Matches(error, rules[k]) && (forall j :: 0 <= j < k ==> !Matches(error, rules[j])) ==>
      FirstMatch(error, rules) == rules[k].message
    decreases |rules|
  {
    if |rules| > 0 {
      FirstMatchSpec(error, rules[1..]);
      forall k | 0 <= k < |rules| && Matches(error, rules[k]) && (forall j :: 0 <= j < k ==> !Matches(error, rules[j]))
        ensures FirstMatch(error, rules) == rules[k].message
      {
        if k > 0 {
          assert !Matches(error, rules[0]);
          assert rules[1..][k - 1] == rules[k];
          forall j | 0 <= j < k - 1 ensures !Matches(error, rules[1..][j]) {
            assert rules[1..][j] == rules[j + 1];
          }
        }
      }
      if forall k :: 0 <= k < |rules| ==> !Matches(error, rules[k]) {
        assert !Matches(error, rules[0]);
        forall j | 0 <= j < |rules| - 1 ensures !Matches(error, rules[1..][j]) {
          assert rules[1..][j] == rules[j + 1];
        }
      }
    }
  }

  lemma MatchesPair(error: string, a: string, b: string, message: string)
    ensures Matches(error, Rule([a, b], message)) <==> Contains(error, a) && Contains(error, b)
  {
    var r := Rule([a, b], message);
    assert r.needles[0] == a && r.needles[1] == b && |r.needles| == 2;
  }

  lemma MatchesOne(error: string, a: string, message: string)
    ensures Matches(error, Rule([a], message)) <==> Contains(error, a)
  {
    var r := Rule([a], message);
    assert r.needles[0] == a && |r.needles| == 1;
  }

  /** The if/else chain is the fixed-order rule table, first match winning. */
  lemma ClassifyIsFirstMatch(error: string)
    ensures Classify(error) == FirstMatch(error, Rules)
  {
    var t1 := Rules[1..];
    var t2 := t1[1..];
    var t3 := t2[1..];
    var t4 := t3[1..];
    var t5 := t4[1..];
    MatchesPair(error, "minimum", "name", NameMessage);
    MatchesPair(error, "nonnegative", "price", PriceMessage);
    MatchesPair(error, "nonnegative", "stock", StockMessage);
    MatchesOne(error, "invalid credentials", CredentialsMessage);
    MatchesOne(error, "forbidden", ForbiddenMessage);
    MatchesOne(error, "unauthorized", LoginMessage);
    assert t5 == [Rule(["unauthorized"], LoginMessage)];
    assert FirstMatch(error, t5) == if Contains(error, "unauthorized") then LoginMessage else error by {
      assert FirstMatch(error, t5[1..]) == error;
    }
    assert FirstMatch(error, t4) == if Contains(error, "forbidden") then ForbiddenMessage else FirstMatch(error, t5);
    assert FirstMatch(error, t3) == if Contains(error, "invalid credentials") then CredentialsMessage else FirstMatch(error, t4);
    assert FirstMatch(error, t2) ==
      if Contains(error, "nonnegative") && Contains(error, "stock") then StockMessage else FirstMatch(error, t3);
    assert FirstMatch(error, t1) ==
      if Contains(error, "nonnegative") && Contains(error, "price") then PriceMessage else FirstMatch(error, t2);
    assert FirstMatch(error, Rules) ==
      if Contains(error, "minimum") && Contains(error, "name") then NameMessage else FirstMatch(error, t1);
  }

  /** The `error` property of a parsed JSON body. */
  datatype ErrorField =
    | NoError             // missing, or a falsy value
    | TextError(s: string)
    | NonTextError        // a truthy value that is not a string: `.includes` throws

  /** What `JSON.parse(text)` makes of the response text. */
  datatype ErrorBody = NotJson | JsonNull | JsonValue(error: ErrorField)

  function StatusMessage(status: nat): string {
    "HTTP " + NatToString(status)
  }

  /**
   * The message of the thrown error. Any exception inside the `try` (a body
   * that is not JSON, a `null` body, a non-string `error`) falls back to the
   * raw text, or to `HTTP <status>` when the text is empty.
   */
  function ErrorMessage(status: nat, text: string, body: ErrorBody): string {
    match body
    case JsonValue(NoError) => StatusMessage(status)
    case JsonValue(TextError(s)) => if s == "" then StatusMessage(status) else Classify(s)
    case _ => if text == "" then StatusMessage(status) else text
  }

  /**
   * A JSON body without an `error` yields `HTTP <status>`; a non-JSON body its
   * text, or `HTTP <status>` for an empty one; a string `error` is classified
   * by the first matching rule and otherwise kept verbatim.
   */
  lemma ErrorMessageSpec(status: nat, text: string, body: ErrorBody)
    ensures body == JsonValue(NoError) ==> ErrorMessage(status, text, body) == StatusMessage(status)
    ensures body == NotJson ==> ErrorMessage(status, text, body) == (if text == "" then StatusMessage(status) else text)
    ensures body.JsonValue? && body.error.TextError? && body.error.s != "" ==>
      ErrorMessage(status, text, body) == FirstMatch(body.error.s, Rules)
    ensures body.JsonValue? && body.error.TextError? && body.error.s != ""
      && (forall k :: 0 <= k < |Rules| ==> !Matches(body.error.s, Rules[k]))
      ==> ErrorMessage(status, text, body) == body.error.s
  {
    if body.JsonValue? && body.error.TextError? && body.error.s != "" {
      var s := body.error.s;
      assert ErrorMessage(status, text, body) == Classify(s);
      ClassifyIsFirstMatch(s);
      FirstMatchSpec(s, Rules);
    }
  }

  /** `HTTP <status>` names the status: distinct statuses give distinct messages. */
  lemma StatusMessageInjective(a: nat, b: nat)
    requires StatusMessage(a) == StatusMessage(b)
    ensures a == b
  {
    assert StatusMessage(a)[5..] == NatToString(a);
    assert StatusMessage(b)[5..] == NatToString(b);
    NatToStringInjective(a, b);
  }
}
