/** Which keys, prefixes and answers gated delivery accepts, told by path segments and plain character sets. */
module DeliveryKeys {
  import opened Wrappers
  import opened Delivery

  predicate Alphanumeric(c: char) {
    '0' <= c <= '9' || 'A' <= c <= 'Z' || 'a' <= c <= 'z'
  }

  predicate OnlyWith(s: string, others: set<char>) {
    forall c :: c in s ==> Alphanumeric(c) || c in others
  }

  /** The parts of a path between its slashes, empty ones included. */
  function Segments(s: string): (parts: seq<string>)
    ensures parts != []
  {
    if s == "" then [""]
    else if s[0] == '/' then [""] + Segments(s[1..])
    else [[s[0]] + Segments(s[1..])[0]] + Segments(s[1..])[1..]
  }

  /** A segment that says a name and no way upwards, or nothing. */
  predicate Soft(segment: string) {
    OnlyWith(segment, {'.', '_', '-'}) && !HasTwin(segment, '.')
  }

  predicate Name(segment: string) {
    segment != "" && Soft(segment)
  }

  predicate AllNames(parts: seq<string>) {
    forall part :: part in parts ==> Name(part)
  }

  /** What CheckKey asks of a text that may be empty or start with a slash. */
  predicate Tail(s: string) {
    s == "" || (s[|s| - 1] != '/' && !HasTwin(s, '.') && !HasTwin(s, '/') && IsKeyText(s))
  }

  lemma {:induction false} TwinCons(c: char, s: string, x: char)
    ensures HasTwin([c] + s, x) <==> HasTwin(s, x) || (s != "" && c == x && s[0] == x)
  {
    var t := [c] + s;
    if HasTwin(s, x) {
      var i :| 0 < i < |s| && s[i - 1] == x && s[i] == x;
      assert t[i + 1 - 1] == x && t[i + 1] == x;
    }
    if s != "" && c == x && s[0] == x {
      assert t[1 - 1] == x && t[1] == x;
    }
    if HasTwin(t, x) && !(s != "" && c == x && s[0] == x) {
      var i :| 0 < i < |t| && t[i - 1] == x && t[i] == x;
      assert s[i - 1 - 1] == x && s[i - 1] == x;
    }
  }

  lemma {:induction false} KeyTextCons(c: char, s: string)
    ensures IsKeyText([c] + s) <==> IsKeyChar(c) && (s == "" || IsKeyText(s))
  {
    var t := [c] + s;
    assert forall i :: 0 <= i < |s| ==> s[i] == t[i + 1];
    assert forall i :: 0 < i < |t| ==> t[i] == s[i - 1];
    assert t[0] == c;
  }

  lemma {:induction false} TailCons(c: char, s: string)
    ensures Tail([c] + s) <==>
            && IsKeyChar(c) && Tail(s) && (s == "" ==> c != '/')
            && !(s != "" && c == '.' && s[0] == '.') && !(s != "" && c == '/' && s[0] == '/')
  {
    TwinCons(c, s, '.');
    TwinCons(c, s, '/');
    KeyTextCons(c, s);
    NoTwinInEmpty('.');
    NoTwinInEmpty('/');
    var t := [c] + s;
    assert s != "" ==> t[|t| - 1] == s[|s| - 1];
  }

  lemma NoTwinInEmpty(x: char)
    ensures !HasTwin("", x)
  {
  }

  lemma {:induction false} SoftCons(c: char, s: string)
    ensures Soft([c] + s) <==> (Alphanumeric(c) || c in {'.', '_', '-'}) && Soft(s) && !(s != "" && c == '.' && s[0] == '.')
  {
    TwinCons(c, s, '.');
    var t := [c] + s;
    assert forall d :: d in t <==> d == c || d in s;
  }

  lemma {:induction false} FirstSegment(s: string)
    ensures Segments(s)[0] == "" <==> s == "" || s[0] == '/'
    ensures Segments(s)[0] != "" ==> Segments(s)[0][0] == s[0]
  {
    if s != "" && s[0] != '/' {
      assert Segments(s)[0] == [s[0]] + Segments(s[1..])[0];
    }
  }

  lemma {:induction false} TailBySegments(s: string)
    ensures Tail(s) <==> Soft(Segments(s)[0]) && AllNames(Segments(s)[1..])
  {
    if s == "" {
      NoTwinInEmpty('.');
    } else {
      var c, rest := s[0], s[1..];
      assert s == [c] + rest;
      var parts := Segments(rest);
      TailBySegments(rest);
      TailCons(c, rest);
      FirstSegment(rest);
      assert s[|s| - 1] == if rest == "" then c else rest[|rest| - 1];
      if c == '/' {
        assert Segments(s) == [""] + parts;
        assert Segments(s)[1..] == parts && Segments(s)[0] == "";
        assert parts == [parts[0]] + parts[1..];
        NoTwinInEmpty('.');
        assert Soft("");
        assert AllNames(parts) <==> Name(parts[0]) && AllNames(parts[1..]);
      } else {
        assert Segments(s)[0] == [c] + parts[0] && Segments(s)[1..] == parts[1..];
        SoftCons(c, parts[0]);
      }
    }
  }

  lemma FirstChar(s: string)
    requires s != ""
    ensures "/" <= s <==> s[0] == '/'
  {
    var slash := "/";
    assert slash[0] == '/';
    if s[0] == '/' {
      assert s[..1] == slash;
    }
  }

  /** A key is accepted exactly when it is a path of non-empty names over letters, digits, dots, underscores and dashes, none with two dots in a row. */
  lemma {:induction false} KeyExactly(key: string)
    ensures CheckKey(key).None? <==> AllNames(Segments(key))
  {
    var parts := Segments(key);
    assert parts == [parts[0]] + parts[1..];
    TailBySegments(key);
    FirstSegment(key);
    assert AllNames(parts) <==> Name(parts[0]) && AllNames(parts[1..]);
    assert AllNames(parts) <==> parts[0] != "" && Tail(key);
    if key != "" {
      LastChar(key);
      FirstChar(key);
    }
  }

  /** A prefix is accepted exactly when it is a path of names and a slash, of at most 433 characters, under the gated prefix. */
  lemma {:induction false} PrefixExactly(prefix: string)
    ensures CheckPrefix(prefix).None? <==>
            "_gated/" <= prefix && |prefix| <= 433 && prefix[|prefix| - 1] == '/' && AllNames(Segments(prefix[..|prefix| - 1]))
  {
    if "_gated/" <= prefix && prefix[|prefix| - 1] == '/' {
      LastChar(prefix);
      WithoutSlash(prefix);
    } else if prefix != "" {
      LastChar(prefix);
    }
  }

  lemma {:induction false} WithoutSlash(prefix: string)
    requires "_gated/" <= prefix && prefix[|prefix| - 1] == '/'
    ensures !HasTwin(prefix, '.') && !HasTwin(prefix, '/') && IsKeyText(prefix) <==> AllNames(Segments(prefix[..|prefix| - 1]))
  {
    var n := |prefix| - 1;
    var path := prefix[..n];
    assert prefix[0] == "_gated/"[0] == '_' && prefix[5] == "_gated/"[5] == 'd';
    assert n >= 6 && path[0] == '_';
    assert prefix[..6] == "_gated";
    KeyExactly(path);
    LastChar(path);
    if CheckKey(path).None? {
      assert IsKeyText(prefix);
      forall i | 0 < i < |prefix|
        ensures !(prefix[i - 1] == '/' && prefix[i] == '/') && !(prefix[i - 1] == '.' && prefix[i] == '.')
      {
        if i < n {
          assert prefix[i - 1] == path[i - 1] && prefix[i] == path[i];
        }
      }
    }
    if !HasTwin(prefix, '.') && !HasTwin(prefix, '/') && IsKeyText(prefix) {
      PartHasNoTwin(prefix, 0, n, '.');
      PartHasNoTwin(prefix, 0, n, '/');
      assert prefix[0..n] == path;
      assert prefix[n] == '/' && prefix[n - 1] != '/';
    }
  }

  /** Whatever a key is refused for is wrong with it. */
  lemma {:induction false} KeyRefusals(key: string)
    requires CheckKey(key).Some?
    ensures match CheckKey(key).value
            case Missing => key == ""
            case Absolute => key != "" && key[0] == '/'
            case NotAnObject => key != "" && key[|key| - 1] == '/'
            case DotDot => exists i :: 0 < i < |key| && key[i - 1] == '.' && key[i] == '.'
            case DoubleSlash => exists i :: 0 < i < |key| && key[i - 1] == '/' && key[i] == '/'
            case BadCharacter => !OnlyWith(key, {'.', '_', '-', '/'})
            case _ => false
  {
    if key != "" {
      LastChar(key);
      FirstChar(key);
      if !IsKeyText(key) {
        var i :| 0 <= i < |key| && !IsKeyChar(key[i]);
        assert key[i] in key;
      }
    }
  }

  /** An answer is usable exactly when its token and parameter need no escaping, it lasts, and its prefixes nest. */
  lemma {:induction false} TicketIsUsable(resp: MintResponse, requested: string)
    requires EndsWith(requested, "/")
    ensures NewTicket(resp, requested).Ok? <==>
              && resp.token != "" && OnlyWith(resp.token, {'.', '_', '~', '-'})
              && 1 <= |resp.param| <= 32 && OnlyWith(resp.param, {'_', '-'})
              && resp.expiresIn > 0 && EndsWith(resp.prefix, requested)
              && ("http://" <= resp.urlPrefix || "https://" <= resp.urlPrefix)
              && EndsWith(resp.urlPrefix, resp.prefix)
    ensures NewTicket(resp, requested).Ok? ==>
              NewTicket(resp, requested).value == Ticket(resp.prefix, resp.urlPrefix, resp.expiresIn, resp.param, resp.token)
  {
    TicketExactly(resp, requested);
    TokenIs(resp.token);
    ParamIs(resp.param);
  }

  lemma {:induction false} TokenIs(s: string)
    ensures IsToken(s) <==> s != "" && OnlyWith(s, {'.', '_', '~', '-'})
  {
    if OnlyWith(s, {'.', '_', '~', '-'}) {
      assert forall i :: 0 <= i < |s| ==> s[i] in s;
    }
  }

  lemma {:induction false} ParamIs(s: string)
    ensures IsParam(s) <==> 1 <= |s| <= 32 && OnlyWith(s, {'_', '-'})
  {
    if OnlyWith(s, {'_', '-'}) {
      assert forall i :: 0 <= i < |s| ==> s[i] in s;
    }
  }

  /** Whatever an answer is refused for is wrong with it. */
  lemma {:induction false} TicketRefusals(resp: MintResponse, requested: string)
    requires NewTicket(resp, requested).Err?
    ensures match NewTicket(resp, requested).error
            case NoToken => resp.token == ""
            case UnsafeToken => resp.token != "" && !OnlyWith(resp.token, {'.', '_', '~', '-'})
            case BadParam => !(1 <= |resp.param| <= 32 && OnlyWith(resp.param, {'_', '-'}))
            case BadLifetime => resp.expiresIn <= 0
            case ResponseNotAPrefix => resp.prefix == "" || resp.prefix[|resp.prefix| - 1] != '/'
            case OtherPrefix => !EndsWith(resp.prefix, requested)
            case NoOrigin => !("http://" <= resp.urlPrefix) && !("https://" <= resp.urlPrefix)
            case OriginMismatch => !EndsWith(resp.urlPrefix, resp.prefix)
            case _ => false
  {
    TokenIs(resp.token);
    ParamIs(resp.param);
    if resp.prefix != "" {
      LastChar(resp.prefix);
    }
  }

  /** A ticket that is not armed makes no URL; an armed one makes one exactly for acceptable keys, with the credential at its end. */
  lemma {:induction false} ArmedExactly(t: Ticket, key: string)
    ensures var u := URL(t, key);
            && (u.Ok? <==> t.token != "" && t.param != "" && t.urlPrefix != "" && AllNames(Segments(key)))
            && (u.Ok? ==> u.value == t.urlPrefix + key + "?" + t.param + "=" + t.token)
  {
    KeyExactly(key);
  }

  /** Asking for a URL never yields a ticket that is refused later: what goes wrong is the key or the answer. */
  lemma {:induction false} UrlRefusals(key: string, resp: MintResponse)
    requires DeliveryURL(key, resp).Err?
    ensures SplitKey(key).Err? ==> DeliveryURL(key, resp) == Err(BadKey(SplitKey(key).error))
    ensures SplitKey(key).Ok? ==> NewTicket(resp, SplitKey(key).value.0) == Err(DeliveryURL(key, resp).error)
  {
    if SplitKey(key).Ok? {
      SplitIsKey(key);
      var (prefix, name) := SplitKey(key).value;
      if NewTicket(resp, prefix).Ok? {
        TicketIsArmed(resp, prefix, name);
      }
    }
  }
}
