/**
 A reader for JSON text without blanks, written from RFC 8259 and not from the
 printer: what the canonical text says, read back, is the value it was printed from.
 */
module MeterReading {
  import opened Wrappers
  import opened Sequences
  import opened TextOrder
  import opened MeterMetadata
  import opened MeterNumber
  import opened MeterFingerprint

  /** Something read from the front of a text, and the text after it. */
  type Reading<+T> = Option<(T, string)>

  // ---------------------------------------------------------------- strings

  function HexOf(c: char): Option<nat> {
    if '0' <= c <= '9' then Some((c - '0') as nat)
    else if 'a' <= c <= 'f' then Some((c - 'a') as nat + 10)
    else if 'A' <= c <= 'F' then Some((c - 'A') as nat + 10)
    else None
  }

  /** The code unit four hexadecimal digits name. */
  function HexUnit(a: char, b: char, c: char, d: char): Option<nat> {
    if HexOf(a).None? || HexOf(b).None? || HexOf(c).None? || HexOf(d).None? then None
    else Some(4096 * HexOf(a).value + 256 * HexOf(b).value + 16 * HexOf(c).value + HexOf(d).value)
  }

  /** The character of a code unit that is no surrogate; pairs of surrogates are not read. */
  function ReadUnit(t: string): (r: Reading<char>)
    ensures r.Some? ==> |r.value.1| < |t|
  {
    if |t| < 4 then None
    else
      match HexUnit(t[0], t[1], t[2], t[3])
      case None => None
      case Some(n) => if n < 0xD800 || 0xE000 <= n < 0x1_0000 then Some((n as char, t[4..])) else None
  }

  /** One character of a string: itself, or what an escape stands for. */
  function ReadChar(t: string): (r: Reading<char>)
    ensures r.Some? ==> |r.value.1| < |t|
  {
    if t == [] || t[0] == '\"' || t[0] as int < 0x20 then None
    else if t[0] != '\\' then Some((t[0], t[1..]))
    else if |t| < 2 then None
    else
      match t[1]
      case '\"' => Some(('\"', t[2..]))
      case '\\' => Some(('\\', t[2..]))
      case '/' => Some(('/', t[2..]))
      case 'b' => Some((8 as char, t[2..]))
      case 'f' => Some((12 as char, t[2..]))
      case 'n' => Some(('\n', t[2..]))
      case 'r' => Some(('\r', t[2..]))
      case 't' => Some(('\t', t[2..]))
      case 'u' => ReadUnit(t[2..])
      case _ => None
  }

  /** The rest of a string, up to and past its closing quote. */
  function ReadChars(t: string): (r: Reading<string>)
    ensures r.Some? ==> |r.value.1| < |t|
    decreases |t|
  {
    if t != [] && t[0] == '\"' then Some(("", t[1..]))
    else
      match ReadChar(t)
      case None => None
      case Some((c, after)) =>
        match ReadChars(after)
        case None => None
        case Some((s, rest)) => Some(([c] + s, rest))
  }

  lemma HexReads(n: nat)
    requires n < 16
    ensures HexOf(HexDigit(n)) == Some(n)
  {
    assert forall k :: 0 <= k < 10 ==> "0123456789abcdef"[k] == '0' + k as char;
    assert forall k :: 10 <= k < 16 ==> "0123456789abcdef"[k] == 'a' + (k - 10) as char;
  }

  /** Every escape the printer writes is the JSON escape of its character. */
  lemma EscapeReads(c: char, x: string)
    ensures ReadChar(Escape(c) + x) == Some((c, x))
    ensures (Escape(c) + x)[0] != '\"'
  {
    EscapeShape(c);
    var t := Escape(c) + x;
    assert t[|Escape(c)|..] == x;
    assert t[0] == Escape(c)[0];
    if |Escape(c)| > 1 {
      assert t[1] == Escape(c)[1];
    }
    if |Escape(c)| == 6 {
      UnicodeEscapeReads(c, x);
    }
  }

  lemma UnicodeEscapeReads(c: char, x: string)
    requires |Escape(c)| == 6
    ensures ReadChar(Escape(c) + x) == Some((c, x))
  {
    var t := Escape(c) + x;
    assert t[0] == '\\' && t[1] == 'u';
    assert t[2..] == Escape(c)[2..] + x;
    UnitReads(c, x);
  }

  lemma UnitReads(c: char, x: string)
    requires |Escape(c)| == 6
    ensures ReadUnit(Escape(c)[2..] + x) == Some((c, x))
  {
    var n, e, t := c as int, Escape(c), Escape(c)[2..] + x;
    assert t[0] == e[2] && t[1] == e[3] && t[2] == e[4] && t[3] == e[5] && t[4..] == x;
    UnitNames(c);
  }

  lemma UnitNames(c: char)
    requires |Escape(c)| == 6
    ensures var e := Escape(c); HexUnit(e[2], e[3], e[4], e[5]) == Some(c as int)
  {
    var n := c as int;
    HexReads(0);
    HexReads(2);
    HexReads(n % 16);
    if n < 0x80 {
      HexReads(n / 16);
      LowEscape(c);
    } else {
      HighEscape(c);
    }
  }

  lemma LowEscape(c: char)
    requires |Escape(c)| == 6 && c as int < 0x80
    ensures var e, n := Escape(c), c as int; e[2] == HexDigit(0) && e[3] == HexDigit(0) && e[4] == HexDigit(n / 16) && e[5] == HexDigit(n % 16)
  {
  }

  lemma HighEscape(c: char)
    requires |Escape(c)| == 6 && c as int >= 0x80
    ensures var e, n := Escape(c), c as int;
            e[2] == HexDigit(2) && e[3] == HexDigit(0) && e[4] == HexDigit(2) && e[5] == HexDigit(n % 16) && n / 16 == 0x202
  {
  }

  lemma {:induction false} QuotedReads(s: string, x: string)
    ensures ReadChars(Quoted(s, x)) == Some((s, x))
  {
    QuotedHead(s, x);
    if s == [] {
      QuotedEnd(x);
      assert ("\"" + x)[1..] == x;
    } else {
      QuotedCons(s, x);
      EscapeReads(s[0], Quoted(s[1..], x));
      QuotedReads(s[1..], x);
      assert [s[0]] + s[1..] == s;
    }
  }

  /** What json.Marshal keeps out of every string: control characters, markup and the two line separators. */
  predicate Embeddable(c: char) {
    c as int >= 0x20 && c !in {'<', '>', '&'} && c as int !in {0x2028, 0x2029}
  }

  lemma HexIsEmbeddable(n: nat)
    requires n < 16
    ensures Embeddable(HexDigit(n))
  {
    HexReads(n);
  }

  lemma {:induction false} LongEscapeIsEmbeddable(c: char)
    requires |Escape(c)| == 6
    ensures forall d :: d in Escape(c) ==> Embeddable(d)
  {
    var n, e := c as int, Escape(c);
    EscapeShape(c);
    HexIsEmbeddable(0);
    HexIsEmbeddable(2);
    HexIsEmbeddable(n % 16);
    if n < 0x80 {
      HexIsEmbeddable(n / 16);
      LowEscape(c);
    } else {
      HighEscape(c);
    }
    assert Embeddable(e[0]) && Embeddable(e[1]) && Embeddable(e[2]) && Embeddable(e[3]) && Embeddable(e[4]) && Embeddable(e[5]);
    assert e == [e[0], e[1], e[2], e[3], e[4], e[5]];
  }

  lemma {:induction false} EscapeIsEmbeddable(c: char)
    ensures forall d :: d in Escape(c) ==> Embeddable(d)
  {
    EscapeShape(c);
    if |Escape(c)| == 6 {
      LongEscapeIsEmbeddable(c);
    }
  }

  /** The seven characters with a short escape take two, the others json.Marshal escapes six, and every other stands for itself. */
  lemma {:induction false} EscapeIsShort(c: char)
    ensures |Escape(c)| ==
              if c in {'\"', '\\', '\n', '\r', '\t'} || c as int in {8, 12} then 2 else if Embeddable(c) then 1 else 6
  {
  }

  lemma {:induction false} QuotedIsEmbeddable(s: string)
    ensures forall d :: d in EscapeAll(s) ==> Embeddable(d)
  {
    if s != [] {
      EscapeIsEmbeddable(s[0]);
      QuotedIsEmbeddable(s[1..]);
    }
  }

  // ---------------------------------------------------------------- values

  predicate InNumber(c: char) {
    '0' <= c <= '9' || c == '-' || c == '+' || c == '.' || c == 'e' || c == 'E'
  }

  function NumberLength(t: string): (n: nat)
    ensures n <= |t|
  {
    if t == [] || !InNumber(t[0]) then 0 else 1 + NumberLength(t[1..])
  }

  /** One value from the front of a text. */
  function ReadValue(t: string): (r: Reading<Json>)
    ensures r.Some? ==> |r.value.1| < |t|
    decreases |t|, 0
  {
    if t == [] then None
    else
      match t[0]
      case '{' => ReadMembers(t[1..], map[])
      case '[' => ReadItems(t[1..], [])
      case '\"' =>
        (match ReadChars(t[1..])
         case None => None
         case Some((s, rest)) => Some((String(s), rest)))
      case 't' => if |t| >= 4 && t[1] == 'r' && t[2] == 'u' && t[3] == 'e' then Some((Boolean(true), t[4..])) else None
      case 'f' =>
        if |t| >= 5 && t[1] == 'a' && t[2] == 'l' && t[3] == 's' && t[4] == 'e' then Some((Boolean(false), t[5..])) else None
      case 'n' => if |t| >= 4 && t[1] == 'u' && t[2] == 'l' && t[3] == 'l' then Some((Null, t[4..])) else None
      case _ =>
        if NumberLength(t) == 0 then None else Some((Number(t[..NumberLength(t)], true), t[NumberLength(t)..]))
  }

  /** Past a comma unless nothing was read yet. */
  function Next(t: string, first: bool): (r: Option<string>)
    ensures r.Some? ==> |r.value| <= |t|
  {
    if first then Some(t) else if t != [] && t[0] == ',' then Some(t[1..]) else None
  }

  /** The members left of an object; of two with one name the later counts. */
  function ReadMembers(t: string, read: map<string, Json>): (r: Reading<Json>)
    ensures r.Some? ==> |r.value.1| < |t|
    decreases |t|, 1
  {
    if t != [] && t[0] == '}' then Some((Object(read), t[1..]))
    else
      match Next(t, read == map[])
      case None => None
      case Some(named) =>
        if named == [] || named[0] != '\"' then None
        else
          match ReadChars(named[1..])
          case None => None
          case Some((key, after)) =>
            if after == [] || after[0] != ':' then None
            else
              match ReadValue(after[1..])
              case None => None
              case Some((value, rest)) => ReadMembers(rest, read[key := value])
  }

  /** The items left of an array. */
  function ReadItems(t: string, read: seq<Json>): (r: Reading<Json>)
    ensures r.Some? ==> |r.value.1| < |t|
    decreases |t|, 1
  {
    if t != [] && t[0] == ']' then Some((Array(read), t[1..]))
    else
      match Next(t, read == [])
      case None => None
      case Some(item) =>
        match ReadValue(item)
        case None => None
        case Some((value, rest)) => ReadItems(rest, read + [value])
  }

  // ---------------------------------------------------------------- the canonical text, read back

  /** A value with its numbers in canonical form. */
  function Plain(v: Json): Json {
    match v
    case Object(members) => Object(map k | k in members :: Plain(members[k]))
    case Array(items) => Array(seq(|items|, i requires 0 <= i < |items| => Plain(items[i])))
    case Number(digits, _) => Number(if Form(digits).Ok? then Form(digits).value else "", true)
    case _ => v
  }

  lemma {:induction false} NumberReads(c: string, x: string)
    requires NumberChars(c) && Ends(x)
    ensures NumberLength(c + x) == |c|
  {
    var t := c + x;
    assert t[0] == c[0];
    if |c| == 1 {
      assert t[1..] == x;
    } else {
      assert t[1..] == c[1..] + x;
      NumberReads(c[1..], x);
    }
  }

  lemma WordReads(x: string)
    ensures ReadValue("true" + x) == Some((Boolean(true), x))
    ensures ReadValue("null" + x) == Some((Null, x))
  {
    assert ("true" + x)[4..] == x;
    assert ("null" + x)[4..] == x;
  }

  lemma FalseReads(x: string)
    ensures ReadValue("false" + x) == Some((Boolean(false), x))
  {
    assert ("false" + x)[5..] == x;
  }

  lemma QuoteReads(s: string, x: string)
    ensures ReadValue(Quote(s) + x) == Some((String(s), x))
  {
    QuoteIs(s, x);
    QuotedReads(s, x);
    assert ("\"" + Quoted(s, x))[1..] == Quoted(s, x);
  }

  lemma NumberValueReads(c: string, x: string)
    requires NumberChars(c) && Ends(x)
    ensures ReadValue(c + x) == Some((Number(c, true), x))
  {
    NumberReads(c, x);
    var t := c + x;
    assert t[0] == c[0] && IsNumberChar(t[0]);
    assert t[..|c|] == c && t[|c|..] == x;
  }

  /** Reading a canonical text gives back the value it was printed from, numbers in canonical form, and the text behind it. */
  lemma {:induction false} TextReads(v: Json, x: string)
    requires NumbersAccepted(v) && Ends(x)
    ensures ReadValue(Text(v) + x) == Some((Plain(v), x))
    decreases v, 2, 0
  {
    match v
    case Object(members) => ObjectReads(v, x);
    case Array(items) => ArrayReads(v, x);
    case String(text) => QuoteReads(text, x);
    case Number(digits, _) =>
      NumberText(v);
      NumberValueReads(Text(v), x);
    case Boolean(b) =>
      WordReads(x);
      FalseReads(x);
    case Null => WordReads(x);
  }

  lemma {:induction false} ObjectReads(v: Json, x: string)
    requires v.Object? && NumbersAccepted(v) && Ends(x)
    ensures ReadValue(Text(v) + x) == Some((Plain(v), x))
    decreases v, 1, 0
  {
    var keys := SortedList(v.members.Keys);
    assert forall j :: 0 <= j < |keys| ==> keys[j] in keys;
    ObjectText(v, keys, x);
    var t := MembersRest(v, keys, 0, x);
    assert ("{" + t)[1..] == t;
    MembersRead(v, keys, 0, map[], x);
  }

  /** The members read so far are the first of the listed keys. */
  ghost predicate ReadUpTo(v: Json, keys: seq<string>, from: nat, read: map<string, Json>)
    requires v.Object? && from <= |keys|
  {
    && (forall j :: 0 <= j < from ==> keys[j] in read)
    && (forall k :: k in read ==> k in v.members && k in keys && read[k] == Plain(v.members[k]))
  }

  lemma {:induction false} MembersRead(v: Json, keys: seq<string>, from: nat, read: map<string, Json>, x: string)
    requires v.Object? && NumbersAccepted(v) && Ends(x) && from <= |keys|
    requires keys == SortedList(v.members.Keys) && forall j :: 0 <= j < |keys| ==> keys[j] in v.members
    requires ReadUpTo(v, keys, from, read) && (from > 0 <==> read != map[])
    ensures ReadMembers(MembersRest(v, keys, from, x), read) == Some((Plain(v), x))
    decreases v, 0, |keys| - from
  {
    MembersRestFirst(v, keys, from, x);
    MembersRestHead(v, keys, from, x);
    if from == |keys| {
      assert ("}" + x)[1..] == x;
      assert forall k :: k in v.members ==> k in keys;
      AllRead(v, read);
    } else {
      var key, more := keys[from], MembersRest(v, keys, from + 1, x);
      var value := v.members[key];
      assert NumbersAccepted(value);
      MembersRestFirst(v, keys, from + 1, x);
      TextReads(value, more);
      MemberReads(Separator(from), key, Text(value), more, read, Plain(value));
      ReadOneMore(v, keys, from, read);
      MembersRead(v, keys, from + 1, read[key := Plain(value)], x);
    }
  }

  lemma {:induction false} ReadOneMore(v: Json, keys: seq<string>, from: nat, read: map<string, Json>)
    requires v.Object? && from < |keys| && keys[from] in v.members && ReadUpTo(v, keys, from, read)
    ensures ReadUpTo(v, keys, from + 1, read[keys[from] := Plain(v.members[keys[from]])])
  {
  }

  lemma {:induction false} AllRead(v: Json, read: map<string, Json>)
    requires v.Object? && read.Keys == v.members.Keys && forall k :: k in read ==> read[k] == Plain(v.members[k])
    ensures Object(read) == Plain(v)
  {
  }

  /** One member of an object, after its comma if it is not the first. */
  lemma MemberReads(sep: string, key: string, text: string, more: string, read: map<string, Json>, value: Json)
    requires sep == (if read == map[] then "" else ",")
    requires ReadValue(text + more) == Some((value, more))
    ensures ReadMembers(sep + (Quote(key) + (":" + (text + more))), read) == ReadMembers(more, read[key := value])
  {
    var after := ":" + (text + more);
    var named := Quote(key) + after;
    var t := sep + named;
    QuoteIs(key, after);
    QuotedReads(key, after);
    assert named[0] == '\"' && named[1..] == Quoted(key, after);
    assert after[1..] == text + more;
    if read == map[] {
      assert t == named;
    } else {
      assert t[0] == ',' && t[1..] == named;
    }
  }

  lemma {:induction false} ArrayReads(v: Json, x: string)
    requires v.Array? && NumbersAccepted(v) && Ends(x)
    ensures ReadValue(Text(v) + x) == Some((Plain(v), x))
    decreases v, 1, 0
  {
    ArrayText(v, x);
    var t := ItemsRest(v, 0, x);
    assert ("[" + t)[1..] == t;
    ItemsRead(v, 0, [], x);
  }

  lemma {:induction false} ItemsRead(v: Json, from: nat, read: seq<Json>, x: string)
    requires v.Array? && NumbersAccepted(v) && Ends(x) && from <= |v.items|
    requires read == Plain(v).items[..from]
    ensures ReadItems(ItemsRest(v, from, x), read) == Some((Plain(v), x))
    decreases v, 0, |v.items| - from
  {
    ItemsRestFirst(v, from, x);
    ItemsRestHead(v, from, x);
    if from == |v.items| {
      assert ("]" + x)[1..] == x;
      assert read == Plain(v).items;
    } else {
      var more := ItemsRest(v, from + 1, x);
      ItemsRestFirst(v, from + 1, x);
      TextReads(v.items[from], more);
      ItemReads(Separator(from), Text(v.items[from]), more, read, Plain(v.items[from]));
      Head(v.items[from], more);
      assert read + [Plain(v.items[from])] == Plain(v).items[..from + 1];
      ItemsRead(v, from + 1, read + [Plain(v.items[from])], x);
    }
  }

  lemma ItemReads(sep: string, text: string, more: string, read: seq<Json>, value: Json)
    requires sep == (if read == [] then "" else ",")
    requires text + more != [] && (text + more)[0] != ']'
    requires ReadValue(text + more) == Some((value, more))
    ensures ReadItems(sep + (text + more), read) == ReadItems(more, read + [value])
  {
    var t := sep + (text + more);
    if read == [] {
      assert t == text + more;
    } else {
      assert t[0] == ',' && t[1..] == text + more;
    }
  }

  // ---------------------------------------------------------------- the value read

  lemma {:induction false} NumberIsSame(digits: string)
    requires AcceptedText(digits)
    ensures SameValue(digits, Form(digits).value)
  {
    FormIs(digits);
    var n :| WellFormed(n) && Render(n) == digits;
    OutputDenotesInput(n);
  }

  lemma {:induction false} PlainIsSame(v: Json)
    requires NumbersAccepted(v)
    ensures Same(v, Plain(v))
  {
    match v
    case Object(members) =>
      forall k | k in members
        ensures Same(members[k], Plain(v).members[k])
      {
        PlainIsSame(members[k]);
      }
    case Array(items) =>
      forall i | 0 <= i < |items|
        ensures Same(items[i], Plain(v).items[i])
      {
        PlainIsSame(items[i]);
      }
    case Number(digits, _) => NumberIsSame(digits);
    case _ =>
  }

  /** A canonical text is JSON, and what it says is the value it was printed from. */
  lemma CanonicalTextReadsBack(v: Json) returns (w: Json)
    requires NumbersAccepted(v)
    ensures ReadValue(Text(v)) == Some((w, "")) && Same(v, w)
  {
    w := Plain(v);
    TextReads(v, "");
    assert Text(v) + "" == Text(v);
    PlainIsSame(v);
  }
}
