/** Gated delivery: keys and prefixes, the minted ticket, and the URL it makes. */
module Delivery {
  import opened Wrappers

  const GATED := "_gated/"
  const MAX_COMPOSED := 512
  const UUID_LENGTH := 36
  const MAX_PREFIX := MAX_COMPOSED - (|"apps/"| + UUID_LENGTH + |"/"| + UUID_LENGTH + |"/"|)

  // ---------------------------------------------------------------- characters

  predicate IsAlnum(c: char) {
    'A' <= c <= 'Z' || 'a' <= c <= 'z' || '0' <= c <= '9'
  }

  predicate IsKeyChar(c: char) {
    IsAlnum(c) || c == '.' || c == '_' || c == '/' || c == '-'
  }

  predicate IsParamChar(c: char) {
    IsAlnum(c) || c == '_' || c == '-'
  }

  predicate IsTokenChar(c: char) {
    IsAlnum(c) || c == '.' || c == '_' || c == '~' || c == '-'
  }

  predicate IsKeyText(s: string) {
    s != "" && forall i :: 0 <= i < |s| ==> IsKeyChar(s[i])
  }

  predicate IsParam(s: string) {
    1 <= |s| <= 32 && forall i :: 0 <= i < |s| ==> IsParamChar(s[i])
  }

  predicate IsToken(s: string) {
    s != "" && forall i :: 0 <= i < |s| ==> IsTokenChar(s[i])
  }

  predicate EndsWith(s: string, tail: string) {
    |tail| <= |s| && s[|s| - |tail|..] == tail
  }

  /** Two equal characters in a row. */
  predicate HasTwin(s: string, c: char) {
    exists i :: 0 < i < |s| && s[i - 1] == c && s[i] == c
  }

  // ---------------------------------------------------------------- validation

  datatype KeyError =
    | Missing
    | NotGated
    | NotAPrefix
    | NotAnObject
    | Absolute
    | TooLong
    | DotDot
    | DoubleSlash
    | BadCharacter

  function CheckPrefix(prefix: string): Option<KeyError> {
    if prefix == "" then Some(Missing)
    else if !(GATED <= prefix) then Some(NotGated)
    else if !EndsWith(prefix, "/") then Some(NotAPrefix)
    else if |prefix| > MAX_PREFIX then Some(TooLong)
    else if HasTwin(prefix, '.') then Some(DotDot)
    else if HasTwin(prefix, '/') then Some(DoubleSlash)
    else if !IsKeyText(prefix) then Some(BadCharacter)
    else None
  }

  function CheckKey(key: string): Option<KeyError> {
    if key == "" then Some(Missing)
    else if "/" <= key then Some(Absolute)
    else if EndsWith(key, "/") then Some(NotAnObject)
    else if HasTwin(key, '.') then Some(DotDot)
    else if HasTwin(key, '/') then Some(DoubleSlash)
    else if !IsKeyText(key) then Some(BadCharacter)
    else None
  }

  /** strings.LastIndex(s, c) + 1 */
  function PastLast(s: string, c: char): (n: nat)
    ensures n <= |s|
    ensures n > 0 ==> s[n - 1] == c
    ensures forall i :: n <= i < |s| ==> s[i] != c
  {
    if s == "" then 0 else if s[|s| - 1] == c then |s| else PastLast(s[..|s| - 1], c)
  }

  /** The prefix a token is minted for, and the object's name within it. */
  function SplitKey(key: string): Result<(string, string), KeyError> {
    match CheckKey(key)
    case Some(e) => Err(e)
    case None =>
      var cut := PastLast(key, '/');
      match CheckPrefix(key[..cut])
      case Some(e) => Err(e)
      case None => Ok((key[..cut], key[cut..]))
  }

  lemma {:induction false} PartHasNoTwin(s: string, n: nat, m: nat, c: char)
    requires n <= m <= |s| && !HasTwin(s, c)
    ensures !HasTwin(s[n..m], c)
  {
    var part := s[n..m];
    forall i | 0 < i < |part|
      ensures !(part[i - 1] == c && part[i] == c)
    {
      assert part[i - 1] == s[n + i - 1] && part[i] == s[n + i];
      assert !(s[n + i - 1] == c && s[n + i] == c);
    }
  }

  /** A key splits exactly when it is a valid key under the gated prefix whose directory is short enough. */
  lemma {:induction false} SplitsExactly(key: string)
    ensures SplitKey(key).Ok? <==> CheckKey(key).None? && GATED <= key && PastLast(key, '/') <= MAX_PREFIX
  {
    if CheckKey(key).None? {
      var cut := PastLast(key, '/');
      var prefix := key[..cut];
      PartHasNoTwin(key, 0, cut, '.');
      PartHasNoTwin(key, 0, cut, '/');
      assert key[0..cut] == prefix;
      if GATED <= key {
        assert key[6] == GATED[6];
        assert cut >= 7;
        assert prefix[|prefix| - 1..] == "/";
      }
    }
  }

  /** The parts of a split make up the key; the name is one path segment and the prefix a valid one. */
  lemma {:induction false} SplitIsKey(key: string)
    requires SplitKey(key).Ok?
    ensures var (prefix, name) := SplitKey(key).value;
            && prefix + name == key && EndsWith(prefix, "/")
            && name != "" && '/' !in name && CheckKey(name).None?
            && CheckPrefix(prefix).None?
  {
    var cut := PastLast(key, '/');
    var name := key[cut..];
    assert key[..cut] + name == key;
    LastChar(key);
    PartHasNoTwin(key, cut, |key|, '.');
    PartHasNoTwin(key, cut, |key|, '/');
    assert key[cut..|key|] == name;
    LastChar(name);
  }

  lemma LastChar(s: string)
    requires s != ""
    ensures EndsWith(s, "/") <==> s[|s| - 1] == '/'
  {
    assert s[|s| - 1..] == [s[|s| - 1]];
  }

  /** The prefix the platform composes: apps/<app>/<module>/ and the module's own. */
  function Composed(app: string, moduleId: string, prefix: string): string {
    "apps/" + app + "/" + moduleId + "/" + prefix
  }

  /** Among well-shaped prefixes the local bound is exactly the platform's. */
  lemma ComposedFitsExactly(app: string, moduleId: string, prefix: string)
    requires |app| == UUID_LENGTH && |moduleId| == UUID_LENGTH && CheckPrefix(prefix) in {None, Some(TooLong)}
    ensures CheckPrefix(prefix).None? ==> |Composed(app, moduleId, prefix)| <= MAX_COMPOSED
    ensures CheckPrefix(prefix) == Some(TooLong) ==> |Composed(app, moduleId, prefix)| > MAX_COMPOSED
  {
  }

  // ---------------------------------------------------------------- the ticket

  datatype MintResponse = MintResponse(token: string, param: string, prefix: string, urlPrefix: string, expiresIn: int)

  datatype Ticket = Ticket(prefix: string, urlPrefix: string, expiresIn: int, param: string, token: string)

  datatype DeliveryError =
    | BadKey(key: KeyError)
    | NoToken
    | UnsafeToken
    | BadParam
    | BadLifetime
    | ResponseNotAPrefix
    | OtherPrefix
    | NoOrigin
    | OriginMismatch
    | Unarmed

  function NewTicket(resp: MintResponse, requested: string): Result<Ticket, DeliveryError> {
    if resp.token == "" then Err(NoToken)
    else if !IsToken(resp.token) then Err(UnsafeToken)
    else if !IsParam(resp.param) then Err(BadParam)
    else if resp.expiresIn <= 0 then Err(BadLifetime)
    else if !EndsWith(resp.prefix, "/") then Err(ResponseNotAPrefix)
    else if !EndsWith(resp.prefix, requested) then Err(OtherPrefix)
    else if !("http://" <= resp.urlPrefix) && !("https://" <= resp.urlPrefix) then Err(NoOrigin)
    else if !EndsWith(resp.urlPrefix, resp.prefix) then Err(OriginMismatch)
    else Ok(Ticket(resp.prefix, resp.urlPrefix, resp.expiresIn, resp.param, resp.token))
  }

  function URL(t: Ticket, relativeKey: string): Result<string, DeliveryError> {
    if t.token == "" || t.param == "" || t.urlPrefix == "" then Err(Unarmed)
    else if CheckKey(relativeKey).Some? then Err(BadKey(CheckKey(relativeKey).value))
    else Ok(t.urlPrefix + relativeKey + "?" + t.param + "=" + t.token)
  }

  /** DeliveryURL, with what the platform answers to the mint as a parameter. */
  function DeliveryURL(key: string, resp: MintResponse): Result<string, DeliveryError> {
    match SplitKey(key)
    case Err(e) => Err(BadKey(e))
    case Ok((prefix, name)) =>
      match NewTicket(resp, prefix)
      case Err(e) => Err(e)
      case Ok(ticket) => URL(ticket, name)
  }

  // ---------------------------------------------------------------- what a URL is

  /** What stands before and after the last question mark. */
  function CutQuery(url: string): Option<(string, string)> {
    var n := PastLast(url, '?');
    if n == 0 then None else Some((url[..n - 1], url[n..]))
  }

  /** What stands before and after the first equals sign. */
  function CutEquals(query: string): Option<(string, string)> {
    if query == "" then None
    else if query[0] == '=' then Some(("", query[1..]))
    else
      var (param, token) :- CutEquals(query[1..]);
      Some(([query[0]] + param, token))
  }

  lemma {:induction false} CutsAtQuery(path: string, query: string)
    requires '?' !in query
    ensures CutQuery(path + ("?" + query)) == Some((path, query))
  {
    var url := path + ("?" + query);
    var n := PastLast(url, '?');
    assert url[|path|] == '?';
    assert forall i :: |path| < i < |url| ==> url[i] == query[i - |path| - 1];
    assert n == |path| + 1;
    assert url[..n - 1] == path && url[n..] == query;
  }

  lemma {:induction false} CutsAtEquals(param: string, token: string)
    requires '=' !in param
    ensures CutEquals(param + ("=" + token)) == Some((param, token))
  {
    if param == "" {
      assert param + ("=" + token) == "=" + token;
    } else {
      assert (param + ("=" + token))[1..] == param[1..] + ("=" + token);
      CutsAtEquals(param[1..], token);
      assert param == [param[0]] + param[1..];
    }
  }

  lemma {:induction false} SuffixConcat(s: string, tail: string, more: string)
    requires EndsWith(s, tail)
    ensures EndsWith(s + more, tail + more)
  {
    assert (s + more)[|s| - |tail|..] == s[|s| - |tail|..] + more;
  }

  lemma {:induction false} SuffixTransitive(a: string, b: string, c: string)
    requires EndsWith(a, b) && EndsWith(b, c)
    ensures EndsWith(a, c)
  {
    assert a[|a| - |c|..] == a[|a| - |b|..][|b| - |c|..];
  }

  lemma {:induction false} QueryShape(param: string, token: string)
    requires IsParam(param) && IsToken(token)
    ensures '?' !in param + ("=" + token) && '=' !in param
  {
  }

  lemma {:induction false} UrlCuts(path: string, param: string, token: string)
    requires IsParam(param) && IsToken(token)
    ensures CutQuery(path + "?" + param + "=" + token) == Some((path, param + ("=" + token)))
    ensures CutEquals(param + ("=" + token)) == Some((param, token))
  {
    var query := param + ("=" + token);
    QueryShape(param, token);
    CutsAtQuery(path, query);
    CutsAtEquals(param, token);
    Spelled(path, param, token);
  }

  lemma Spelled(path: string, param: string, token: string)
    ensures path + "?" + param + "=" + token == path + ("?" + (param + ("=" + token)))
  {
  }

  lemma {:induction false} PathEnds(urlPrefix: string, composed: string, prefix: string, name: string, key: string)
    requires EndsWith(urlPrefix, composed) && EndsWith(composed, prefix) && prefix + name == key
    ensures EndsWith(urlPrefix + name, key)
  {
    SuffixTransitive(urlPrefix, composed, prefix);
    SuffixConcat(urlPrefix, prefix, name);
  }

  lemma {:induction false} UrlText(key: string, resp: MintResponse)
    requires DeliveryURL(key, resp).Ok?
    ensures SplitKey(key).Ok?
    ensures DeliveryURL(key, resp).value == resp.urlPrefix + SplitKey(key).value.1 + "?" + resp.param + "=" + resp.token
    ensures IsParam(resp.param) && IsToken(resp.token)
    ensures EndsWith(resp.urlPrefix, resp.prefix) && EndsWith(resp.prefix, SplitKey(key).value.0)
  {
  }

  /**
   Whatever key is asked for and whatever the platform answers, a URL that
   comes back addresses exactly that key and carries exactly the parameter and
   the non-empty token of the answer.
   */
  lemma {:induction false} UrlIsKeyAndToken(key: string, resp: MintResponse)
    requires DeliveryURL(key, resp).Ok?
    ensures var url := DeliveryURL(key, resp).value;
            && CutQuery(url).Some?
            && var (path, query) := CutQuery(url).value;
               && EndsWith(path, key)
               && CutEquals(query) == Some((resp.param, resp.token))
    ensures resp.param != "" && resp.token != ""
    ensures CheckKey(key).None? && GATED <= key
  {
    UrlText(key, resp);
    SplitIsKey(key);
    SplitsExactly(key);
    var (prefix, name) := SplitKey(key).value;
    UrlCuts(resp.urlPrefix + name, resp.param, resp.token);
    PathEnds(resp.urlPrefix, resp.prefix, prefix, name, key);
  }

  lemma {:induction false} TicketExactly(resp: MintResponse, requested: string)
    requires EndsWith(requested, "/")
    ensures NewTicket(resp, requested).Ok? <==>
              && IsToken(resp.token) && IsParam(resp.param) && resp.expiresIn > 0
              && EndsWith(resp.prefix, requested)
              && ("http://" <= resp.urlPrefix || "https://" <= resp.urlPrefix)
              && EndsWith(resp.urlPrefix, resp.prefix)
  {
    if EndsWith(resp.prefix, requested) {
      SuffixTransitive(resp.prefix, requested, "/");
    }
  }

  lemma {:induction false} TicketIsArmed(resp: MintResponse, requested: string, name: string)
    requires NewTicket(resp, requested).Ok? && CheckKey(name).None?
    ensures URL(NewTicket(resp, requested).value, name).Ok?
  {
  }

  /** There is a URL exactly when the key splits and the answer's token, name, lifetime and prefixes are all usable. */
  lemma {:induction false} UrlExactly(key: string, resp: MintResponse)
    ensures DeliveryURL(key, resp).Ok? <==>
              && SplitKey(key).Ok?
              && IsToken(resp.token) && IsParam(resp.param) && resp.expiresIn > 0
              && EndsWith(resp.prefix, SplitKey(key).value.0)
              && ("http://" <= resp.urlPrefix || "https://" <= resp.urlPrefix)
              && EndsWith(resp.urlPrefix, resp.prefix)
  {
    if SplitKey(key).Ok? {
      SplitIsKey(key);
      var (prefix, name) := SplitKey(key).value;
      TicketExactly(resp, prefix);
      if NewTicket(resp, prefix).Ok? {
        TicketIsArmed(resp, prefix, name);
      }
    }
  }
}
