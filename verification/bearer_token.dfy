/** Hugging Face token resolution in server.py: `_extract_hf_token_from_headers`
    and the precedence and error branch at the top of `generate_tool`. The
    request headers, as the HTTP framework returns them, and the `HF_TOKEN`
    environment variable are parameters.
 */
module BearerToken {
  import opened Wrappers
  import opened Text

  /** What `get_http_headers()` yields: the headers in dict order, or an
      exception (no HTTP context), which the extractor swallows. */
  datatype HeaderSource = Unavailable | Headers(items: seq<(string, string)>)

  const AuthorizationName: string := "authorization"
  const BearerPrefix: string := "bearer "

  /** The value of the first header whose lower-cased name is
      `authorization` (the loop `break`s on the first match). */
  function AuthorizationHeader(items: seq<(string, string)>): (r: Option<string>)
    ensures r.None? <==> forall i :: 0 <= i < |items| ==> Lower(items[i].0) != AuthorizationName
    ensures r.Some? ==> exists i :: 0 <= i < |items| && Lower(items[i].0) == AuthorizationName &&
                                    items[i].1 == r.value &&
                                    forall j :: 0 <= j < i ==> Lower(items[j].0) != AuthorizationName
  {
    if |items| == 0 then None
    else if Lower(items[0].0) == AuthorizationName then Some(items[0].1)
    else
      var r := AuthorizationHeader(items[1..]);
      assert forall i :: 1 <= i < |items| ==> items[i] == items[1..][i - 1];
      if r.Some? then
        var i :| 0 <= i < |items[1..]| && Lower(items[1..][i].0) == AuthorizationName &&
                 items[1..][i].1 == r.value &&
                 forall j :: 0 <= j < i ==> Lower(items[1..][j].0) != AuthorizationName;
        assert forall j :: 0 <= j < i + 1 ==> Lower(items[j].0) != AuthorizationName by {
          forall j | 0 <= j < i + 1 ensures Lower(items[j].0) != AuthorizationName {
            if j > 0 { assert items[j] == items[1..][j - 1]; }
          }
        }
        r
      else r
  }

  /** `_extract_hf_token_from_headers`: for an authorization value whose
      lower-cased form starts with `bearer `, the rest of it stripped of
      surrounding whitespace (possibly empty); None otherwise. */
  function ExtractToken(src: HeaderSource): (r: Option<string>)
    ensures src.Unavailable? ==> r.None?
    ensures r.Some? <==>
              src.Headers? && AuthorizationHeader(src.items).Some? &&
              StartsWith(Lower(AuthorizationHeader(src.items).value), BearerPrefix)
    ensures r.Some? ==>
              var header := AuthorizationHeader(src.items).value;
              |header| >= 7 && r.value == Strip(header[7..])
  {
    match src
    case Unavailable => None
    case Headers(items) =>
      if |items| == 0 then None
      else
        match AuthorizationHeader(items)
        case None => None
        case Some(header) =>
          if |header| > 0 && StartsWith(Lower(header), BearerPrefix) then Some(Strip(header[7..]))
          else None
  }

  /** `_extract_hf_token_from_headers() or hf_token`: an empty token from the
      header counts as none. */
  function ResolveToken(fromHeader: Option<string>, hfToken: Option<string>): (r: Option<string>)
    ensures fromHeader.Some? && |fromHeader.value| > 0 ==> r == fromHeader
    ensures fromHeader.None? || fromHeader == Some("") ==> r == hfToken
  {
    if fromHeader.Some? && |fromHeader.value| > 0 then fromHeader else hfToken
  }

  /** A Python truthy string: present and non-empty. */
  predicate Given(s: Option<string>) {
    s.Some? && |s.value| > 0
  }

  /** What `generate_tool` does once the token is resolved: the error
      document, or the call to `generate` with the resolved token (which may
      still be None or empty when the server's own `HF_TOKEN` is set). */
  datatype ToolOutcome = MissingToken | CallGenerate(token: Option<string>)

  function GenerateToolAuth(src: HeaderSource, hfToken: Option<string>, envToken: Option<string>): (r: ToolOutcome)
    ensures r == MissingToken <==> !Given(ExtractToken(src)) && !Given(hfToken) && !Given(envToken)
    ensures Given(ExtractToken(src)) ==> r == CallGenerate(ExtractToken(src))
    ensures !Given(ExtractToken(src)) && r.CallGenerate? ==> r.token == hfToken
  {
    var token := ResolveToken(ExtractToken(src), hfToken);
    if !Given(token) && !Given(envToken) then MissingToken else CallGenerate(token)
  }

  // -------------------------------------------------------------------------
  // Properties

  /** The header token beats the parameter, which beats the environment:
      a bearer value with a non-blank token decides the call, whatever
      follows it. */
  lemma Precedence(name: string, value: string, rest: seq<(string, string)>, param: Option<string>, env: Option<string>)
    requires Lower(name) == AuthorizationName
    requires StartsWith(Lower(value), BearerPrefix) && Given(Some(Strip(value[7..])))
    ensures GenerateToolAuth(Headers([(name, value)] + rest), param, env) == CallGenerate(Some(Strip(value[7..])))
    ensures Given(param) ==> GenerateToolAuth(Unavailable, param, env) == CallGenerate(param)
  {
    var items := [(name, value)] + rest;
    assert ExtractToken(Headers(items)) == Some(Strip(value[7..])) by {
      assert items[0] == (name, value);
      assert AuthorizationHeader(items) == Some(value);
    }
  }

  /** A bearer value with nothing but blanks after the scheme yields the
      empty token, which falls through to the parameter. */
  lemma BlankBearerFallsThrough(name: string, value: string, rest: seq<(string, string)>, param: Option<string>)
    requires Lower(name) == AuthorizationName
    requires StartsWith(Lower(value), BearerPrefix)
    requires forall i :: 7 <= i < |value| ==> IsSpace(value[i])
    ensures ExtractToken(Headers([(name, value)] + rest)) == Some("")
    ensures ResolveToken(ExtractToken(Headers([(name, value)] + rest)), param) == param
  {
    assert ([(name, value)] + rest)[0] == (name, value);
    assert forall i :: 0 <= i < |value[7..]| ==> IsSpace(value[7..][i]);
  }

  /** Only the first authorization header counts: if its scheme is not
      bearer, later authorization headers are never looked at. */
  lemma FirstAuthorizationHeaderWins(name: string, value: string, rest: seq<(string, string)>)
    requires Lower(name) == AuthorizationName
    requires !StartsWith(Lower(value), BearerPrefix)
    ensures ExtractToken(Headers([(name, value)] + rest)).None?
  {
    assert ([(name, value)] + rest)[0] == (name, value);
  }

  /** The header name is matched without regard to case: a name selects
      the header exactly when it spells `authorization` with any of its
      letters in upper case. */
  lemma HeaderNameCaseInsensitive(name: string)
    ensures Lower(name) == AuthorizationName <==>
              && |name| == |AuthorizationName|
              && forall i :: 0 <= i < |name| ==>
                   name[i] == AuthorizationName[i] || name[i] as int == AuthorizationName[i] as int - 32
  {
    var a := AuthorizationName;
    assert forall i :: 0 <= i < |a| ==> 'a' <= a[i] <= 'z';
    if |name| == |a| {
      forall i | 0 <= i < |name|
        ensures LowerChar(name[i]) == a[i] <==> name[i] == a[i] || name[i] as int == a[i] as int - 32
      {
        LowerCharMatches(name[i], a[i]);
      }
      if forall i :: 0 <= i < |name| ==> LowerChar(name[i]) == a[i] {
        assert Lower(name) == a;
      }
    }
  }

  /** Lower-casing gives the letter `a` exactly from `a` itself or its
      upper-case form. */
  lemma LowerCharMatches(c: char, a: char)
    requires 'a' <= a <= 'z'
    ensures LowerChar(c) == a <==> c == a || c as int == a as int - 32
  {
  }
}
