/** The canonical text is a fingerprint: two accepted values print the same exactly when they are the same value. */
module MeterFingerprint {
  import opened Sequences
  import opened TextOrder
  import opened DecimalText
  import opened MeterMetadata
  import opened MeterNumber

  /** Equal up to the writing of numbers. */
  ghost predicate PrintsAlike(v: Json, w: Json) {
    match v
    case Object(members) =>
      && w.Object? && members.Keys == w.members.Keys
      && (forall k :: k in members ==> k in w.members && PrintsAlike(members[k], w.members[k]))
    case Array(items) =>
      && w.Array? && |items| == |w.items|
      && (forall i :: 0 <= i < |items| ==> PrintsAlike(items[i], w.items[i]))
    case Number(digits, _) => w.Number? && Form(digits) == Form(w.digits)
    case _ => v == w
  }

  /** The two texts are JSON numbers of one exact decimal value. */
  ghost predicate SameValue(digits: string, others: string) {
    exists a, b :: WellFormed(a) && WellFormed(b) && Render(a) == digits && Render(b) == others && Denoted(a) == Denoted(b)
  }

  /** The same value: the same members in any order, the same items in order, and numbers equal by value. */
  ghost predicate Same(v: Json, w: Json) {
    match v
    case Object(members) =>
      && w.Object? && members.Keys == w.members.Keys
      && (forall k :: k in members ==> k in w.members && Same(members[k], w.members[k]))
    case Array(items) =>
      && w.Array? && |items| == |w.items|
      && (forall i :: 0 <= i < |items| ==> Same(items[i], w.items[i]))
    case Number(digits, _) => w.Number? && SameValue(digits, w.digits)
    case _ => v == w
  }

  ghost predicate NumbersAccepted(v: Json) {
    match v
    case Object(members) => forall k :: k in members ==> NumbersAccepted(members[k])
    case Array(items) => forall i :: 0 <= i < |items| ==> NumbersAccepted(items[i])
    case Number(digits, _) => AcceptedText(digits)
    case _ => true
  }

  ghost predicate AcceptedText(digits: string) {
    IsJsonNumber(digits) && Form(digits).Ok?
  }

  // ---------------------------------------------------------------- strings

  /** Escapes can be told apart and their ends found. */
  lemma EscapeSplits(c: char, d: char, x: string, y: string)
    requires Escape(c) + x == Escape(d) + y
    ensures c == d && x == y
  {
    EscapeShape(c);
    EscapeShape(d);
    var s, t := Escape(c) + x, Escape(d) + y;
    assert s[0] == Escape(c)[0] && t[0] == Escape(d)[0];
    if |Escape(c)| > 1 {
      assert s[1] == Escape(c)[1];
    }
    if |Escape(d)| > 1 {
      assert t[1] == Escape(d)[1];
    }
    if |Escape(c)| == 6 && |Escape(d)| == 6 {
      assert s[4] == Escape(c)[4] && t[4] == Escape(d)[4];
      assert s[5] == Escape(c)[5] && t[5] == Escape(d)[5];
      assert s[2] == Escape(c)[2] && t[2] == Escape(d)[2];
      HexEscapeUnique(c, d);
    } else {
      assert c == d;
    }
    assert x == s[|Escape(c)|..] && y == t[|Escape(d)|..];
  }

  /** The number of code units an escape takes is decided by its first two. */
  lemma EscapeShape(c: char)
    ensures |Escape(c)| in {1, 2, 6}
    ensures |Escape(c)| == 1 <==> Escape(c)[0] != '\\'
    ensures |Escape(c)| == 1 ==> Escape(c)[0] == c && c != '\"'
    ensures |Escape(c)| == 6 ==> Escape(c)[0] == '\\' && Escape(c)[1] == 'u'
    ensures |Escape(c)| == 2 ==> Escape(c)[0] == '\\' && Escape(c)[1] != 'u'
    ensures |Escape(c)| == 2 ==>
              c == (match Escape(c)[1]
                    case '\"' => '\"' case '\\' => '\\' case 'n' => '\n' case 'r' => '\r' case 't' => '\t'
                    case 'b' => 8 as char case _ => 12 as char)
  {
  }

  lemma HexDigitUnique(m: nat, n: nat)
    requires m < 16 && n < 16 && HexDigit(m) == HexDigit(n)
    ensures m == n
  {
    assert forall k :: 0 <= k < 10 ==> "0123456789abcdef"[k] == '0' + k as char;
    assert forall k :: 10 <= k < 16 ==> "0123456789abcdef"[k] == 'a' + (k - 10) as char;
  }

  lemma HexEscapeUnique(c: char, d: char)
    requires |Escape(c)| == 6 && |Escape(d)| == 6
    requires Escape(c)[2] == Escape(d)[2] && Escape(c)[4] == Escape(d)[4] && Escape(c)[5] == Escape(d)[5]
    ensures c == d
  {
    var m, n := c as int, d as int;
    HexDigitUnique(m % 16, n % 16);
    if m < 0x80 && n < 0x80 {
      HexDigitUnique(m / 16, n / 16);
    }
  }

  function Quoted(s: string, rest: string): string {
    EscapeAll(s) + ("\"" + rest)
  }

  lemma QuotedCons(s: string, rest: string)
    requires s != []
    ensures Quoted(s, rest) == Escape(s[0]) + Quoted(s[1..], rest)
  {
    Regroup(Escape(s[0]), EscapeAll(s[1..]), "\"" + rest);
  }

  lemma QuotedEnd(rest: string)
    ensures Quoted("", rest) == "\"" + rest
  {
  }

  lemma QuotedHead(s: string, rest: string)
    ensures Quoted(s, rest) != []
    ensures Quoted(s, rest)[0] == '\"' <==> s == []
  {
    if s == [] {
      QuotedEnd(rest);
    } else {
      EscapeShape(s[0]);
      QuotedCons(s, rest);
      assert (Escape(s[0]) + Quoted(s[1..], rest))[0] == Escape(s[0])[0];
    }
  }

  lemma {:induction false} EscapeAllSplits(s: string, t: string, x: string, y: string)
    requires Quoted(s, x) == Quoted(t, y)
    ensures s == t && x == y
  {
    QuotedHead(s, x);
    QuotedHead(t, y);
    if s == [] {
      QuotedEnd(x);
      QuotedEnd(y);
      SameTail("\"", x, y);
    } else {
      QuotedCons(s, x);
      QuotedCons(t, y);
      EscapeSplits(s[0], t[0], Quoted(s[1..], x), Quoted(t[1..], y));
      EscapeAllSplits(s[1..], t[1..], x, y);
      assert s == [s[0]] + s[1..] && t == [t[0]] + t[1..];
    }
  }

  lemma QuoteIs(s: string, x: string)
    ensures Quote(s) + x == "\"" + Quoted(s, x)
  {
  }

  lemma QuoteSplits(s: string, t: string, x: string, y: string)
    requires Quote(s) + x == Quote(t) + y
    ensures s == t && x == y
  {
    QuoteIs(s, x);
    QuoteIs(t, y);
    SameTail("\"", Quoted(s, x), Quoted(t, y));
    EscapeAllSplits(s, t, x, y);
  }

  // ---------------------------------------------------------------- numbers

  predicate Ends(x: string) {
    x == [] || x[0] == ',' || x[0] == '}' || x[0] == ']'
  }

  predicate IsNumberChar(c: char) {
    IsDigit(c) || c == '-' || c == 'e'
  }

  predicate NumberChars(s: string) {
    s != [] && forall i :: 0 <= i < |s| ==> IsNumberChar(s[i])
  }

  lemma EndOfNumber(c: string, x: string)
    requires NumberChars(c) && Ends(x)
    ensures forall k :: 0 <= k < |c| ==> IsNumberChar((c + x)[k])
    ensures |c + x| > |c| ==> !IsNumberChar((c + x)[|c|])
  {
  }

  lemma NumberSplits(c: string, d: string, x: string, y: string)
    requires NumberChars(c) && NumberChars(d) && Ends(x) && Ends(y)
    requires c + x == d + y
    ensures c == d && x == y
  {
    var s := c + x;
    EndOfNumber(c, x);
    EndOfNumber(d, y);
    assert |c| == |d|;
    assert c == s[..|c|] && d == s[..|d|];
    assert x == s[|c|..] && y == s[|d|..];
  }

  lemma PrintedIsNumberChars(negative: bool, m: nat, e: int)
    ensures NumberChars(CanonicalText(negative, Print(m), e))
  {
    var sign, p := if negative then "-" else "", Print(m);
    var tail := if e != 0 then "e" + PrintInt(e) else "";
    assert NumberChars(p);
    assert forall i :: 0 <= i < |tail| ==> IsNumberChar(tail[i]);
    var t := sign + p + tail;
    assert forall i :: 0 <= i < |t| ==> t[i] in sign || t[i] in p || t[i] in tail;
  }

  lemma CanonicalIsNumberChars(n: JsonNumber)
    requires WellFormed(n) && Canonicalize(Render(n)).Ok?
    ensures NumberChars(Canonicalize(Render(n)).value)
  {
    AcceptedRange(n);
    if Value(AllDigitsOf(n)) == 0 {
      ZeroForm(n);
    } else {
      var m, e := NormalForm(n);
      PrintedIsNumberChars(n.negative, m, e);
    }
  }

  // ---------------------------------------------------------------- values

  /** A value's first character tells its kind. */
  function KindOf(c: char): int {
    match c
    case '{' => 0
    case '[' => 1
    case '\"' => 2
    case 't' => 4
    case 'f' => 5
    case 'n' => 6
    case _ => 3
  }

  function Kind(v: Json): int {
    match v
    case Object(_) => 0
    case Array(_) => 1
    case String(_) => 2
    case Number(_, _) => 3
    case Boolean(b) => if b then 4 else 5
    case Null => 6
  }

  lemma AcceptedNumberChars(digits: string)
    requires AcceptedText(digits)
    ensures NumberChars(Form(digits).value)
  {
    FormIs(digits);
    var n :| WellFormed(n) && Render(n) == digits;
    CanonicalIsNumberChars(n);
  }

  lemma NumberText(v: Json)
    requires v.Number? && NumbersAccepted(v)
    ensures Text(v) == Form(v.digits).value && NumberChars(Text(v))
  {
    AcceptedNumberChars(v.digits);
  }

  lemma Head(v: Json, x: string)
    requires NumbersAccepted(v)
    ensures Text(v) != [] && KindOf((Text(v) + x)[0]) == Kind(v)
    ensures !Ends(Text(v) + x)
  {
    if v.Number? {
      NumberText(v);
      assert IsNumberChar(Text(v)[0]);
    }
    assert (Text(v) + x)[0] == Text(v)[0];
  }

  ghost function MembersRest(v: Json, keys: seq<string>, from: nat, x: string): string
    requires v.Object? && from <= |keys| && forall j :: 0 <= j < |keys| ==> keys[j] in v.members
  {
    MembersText(v, keys, from) + ("}" + x)
  }

  ghost function ItemsRest(v: Json, from: nat, x: string): string
    requires v.Array? && from <= |v.items|
  {
    ItemsText(v, from) + ("]" + x)
  }

  lemma MembersRestHead(v: Json, keys: seq<string>, from: nat, x: string)
    requires v.Object? && from <= |keys| && forall j :: 0 <= j < |keys| ==> keys[j] in v.members
    ensures from == |keys| ==> MembersRest(v, keys, from, x) == "}" + x
    ensures from < |keys| ==>
              MembersRest(v, keys, from, x) ==
                Separator(from) + (Quote(keys[from]) + (":" + (Text(v.members[keys[from]]) + MembersRest(v, keys, from + 1, x))))
  {
    if from < |keys| {
      var sep, q, t, more := Separator(from), Quote(keys[from]), Text(v.members[keys[from]]), MembersText(v, keys, from + 1);
      var z := "}" + x;
      assert MembersText(v, keys, from) == (sep + (q + (":" + t))) + more;
      calc {
        MembersRest(v, keys, from, x);
        ((sep + (q + (":" + t))) + more) + z;
        { Regroup(sep + (q + (":" + t)), more, z); }
        (sep + (q + (":" + t))) + (more + z);
        { Regroup(sep, q + (":" + t), more + z); }
        sep + ((q + (":" + t)) + (more + z));
        { Regroup(q, ":" + t, more + z); }
        sep + (q + ((":" + t) + (more + z)));
        { Regroup(":", t, more + z); }
        sep + (q + (":" + (t + (more + z))));
      }
    } else {
      assert "" + ("}" + x) == "}" + x;
    }
  }

  lemma ItemsRestHead(v: Json, from: nat, x: string)
    requires v.Array? && from <= |v.items|
    ensures from == |v.items| ==> ItemsRest(v, from, x) == "]" + x
    ensures from < |v.items| ==>
              ItemsRest(v, from, x) == Separator(from) + (Text(v.items[from]) + ItemsRest(v, from + 1, x))
  {
    if from < |v.items| {
      var sep, t, more := Separator(from), Text(v.items[from]), ItemsText(v, from + 1);
      var z := "]" + x;
      assert ItemsText(v, from) == (sep + t) + more;
      calc {
        ItemsRest(v, from, x);
        ((sep + t) + more) + z;
        { Regroup(sep + t, more, z); }
        (sep + t) + (more + z);
        { Regroup(sep, t, more + z); }
        sep + (t + (more + z));
      }
    } else {
      assert "" + ("]" + x) == "]" + x;
    }
  }

  lemma MembersRestFirst(v: Json, keys: seq<string>, from: nat, x: string)
    requires v.Object? && from <= |keys| && forall j :: 0 <= j < |keys| ==> keys[j] in v.members
    ensures MembersRest(v, keys, from, x) != []
    ensures MembersRest(v, keys, from, x)[0] == if from == |keys| then '}' else if from > 0 then ',' else '\"'
  {
    MembersRestHead(v, keys, from, x);
  }

  lemma ItemsRestFirst(v: Json, from: nat, x: string)
    requires v.Array? && NumbersAccepted(v) && from <= |v.items|
    ensures ItemsRest(v, from, x) != []
    ensures from == |v.items| <==> ItemsRest(v, from, x)[0] == ']'
    ensures 0 < from < |v.items| ==> ItemsRest(v, from, x)[0] == ','
  {
    ItemsRestHead(v, from, x);
    if from < |v.items| {
      Head(v.items[from], ItemsRest(v, from + 1, x));
    }
  }

  /** A canonical text followed by a delimiter can be read back in one way only. */
  lemma {:induction false} TextSplits(v: Json, w: Json, x: string, y: string)
    requires NumbersAccepted(v) && NumbersAccepted(w) && Ends(x) && Ends(y)
    requires Text(v) + x == Text(w) + y
    ensures PrintsAlike(v, w) && x == y
    decreases v, 2, 0
  {
    Head(v, x);
    Head(w, y);
    match v
    case Object(members) => ObjectSplits(v, w, x, y);
    case Array(items) => ArraySplits(v, w, x, y);
    case String(text) => QuoteSplits(text, w.text, x, y);
    case Number(digits, _) =>
      NumberText(v);
      NumberText(w);
      NumberSplits(Text(v), Text(w), x, y);
    case Boolean(b) => SameTail(Text(v), x, y);
    case Null => SameTail(Text(v), x, y);
  }

  lemma {:induction false} ObjectSplits(v: Json, w: Json, x: string, y: string)
    requires v.Object? && w.Object? && NumbersAccepted(v) && NumbersAccepted(w) && Ends(x) && Ends(y)
    requires Text(v) + x == Text(w) + y
    ensures PrintsAlike(v, w) && x == y
    decreases v, 1, 0
  {
    var keys, names := SortedList(v.members.Keys), SortedList(w.members.Keys);
    assert forall j :: 0 <= j < |keys| ==> keys[j] in keys;
    assert forall j :: 0 <= j < |names| ==> names[j] in names;
    ObjectText(v, keys, x);
    ObjectText(w, names, y);
    SameTail("{", MembersRest(v, keys, 0, x), MembersRest(w, names, 0, y));
    MembersSplit(v, w, keys, names, 0, x, y);
    forall k
      ensures k in v.members <==> k in w.members
      ensures k in v.members ==> k in w.members && PrintsAlike(v.members[k], w.members[k])
    {
      assert k in keys <==> k in v.members;
      assert k in names <==> k in w.members;
    }
  }

  lemma ObjectText(v: Json, keys: seq<string>, x: string)
    requires v.Object? && keys == SortedList(v.members.Keys) && forall j :: 0 <= j < |keys| ==> keys[j] in v.members
    ensures Text(v) + x == "{" + MembersRest(v, keys, 0, x)
  {
    var m := MembersText(v, keys, 0);
    assert Text(v) == "{" + (m + "}");
    Regroup("{", m + "}", x);
    Regroup(m, "}", x);
  }

  lemma {:induction false} MembersSplit(v: Json, w: Json, keys: seq<string>, names: seq<string>, from: nat, x: string, y: string)
    requires v.Object? && w.Object? && NumbersAccepted(v) && NumbersAccepted(w) && Ends(x) && Ends(y)
    requires from <= |keys| && from <= |names|
    requires forall j :: 0 <= j < |keys| ==> keys[j] in v.members
    requires forall j :: 0 <= j < |names| ==> names[j] in w.members
    requires MembersRest(v, keys, from, x) == MembersRest(w, names, from, y)
    ensures |keys| == |names| && x == y
    ensures forall j :: from <= j < |keys| ==> keys[j] == names[j] && PrintsAlike(v.members[keys[j]], w.members[names[j]])
    decreases v, 0, |keys| - from
  {
    MembersRestFirst(v, keys, from, x);
    MembersRestFirst(w, names, from, y);
    if from == |keys| {
      MembersRestHead(v, keys, from, x);
      MembersRestHead(w, names, from, y);
      SameTail("}", x, y);
    } else {
      var a, b := MembersRest(v, keys, from + 1, x), MembersRest(w, names, from + 1, y);
      FirstMemberSplits(v, w, keys, names, from, x, y);
      MembersRestFirst(v, keys, from + 1, x);
      MembersRestFirst(w, names, from + 1, y);
      assert NumbersAccepted(v.members[keys[from]]) && NumbersAccepted(w.members[names[from]]);
      TextSplits(v.members[keys[from]], w.members[names[from]], a, b);
      MembersSplit(v, w, keys, names, from + 1, x, y);
    }
  }

  lemma FirstMemberSplits(v: Json, w: Json, keys: seq<string>, names: seq<string>, from: nat, x: string, y: string)
    requires v.Object? && w.Object? && from < |keys| && from < |names|
    requires forall j :: 0 <= j < |keys| ==> keys[j] in v.members
    requires forall j :: 0 <= j < |names| ==> names[j] in w.members
    requires MembersRest(v, keys, from, x) == MembersRest(w, names, from, y)
    ensures keys[from] == names[from]
    ensures Text(v.members[keys[from]]) + MembersRest(v, keys, from + 1, x) ==
              Text(w.members[names[from]]) + MembersRest(w, names, from + 1, y)
  {
    MembersRestHead(v, keys, from, x);
    MembersRestHead(w, names, from, y);
    var a, b := Text(v.members[keys[from]]) + MembersRest(v, keys, from + 1, x), Text(w.members[names[from]]) + MembersRest(w, names, from + 1, y);
    SameTail(Separator(from), Quote(keys[from]) + (":" + a), Quote(names[from]) + (":" + b));
    QuoteSplits(keys[from], names[from], ":" + a, ":" + b);
    SameTail(":", a, b);
  }

  lemma {:induction false} ArraySplits(v: Json, w: Json, x: string, y: string)
    requires v.Array? && w.Array? && NumbersAccepted(v) && NumbersAccepted(w) && Ends(x) && Ends(y)
    requires Text(v) + x == Text(w) + y
    ensures PrintsAlike(v, w) && x == y
    decreases v, 1, 0
  {
    ArrayText(v, x);
    ArrayText(w, y);
    SameTail("[", ItemsRest(v, 0, x), ItemsRest(w, 0, y));
    ItemsSplit(v, w, 0, x, y);
  }

  lemma ArrayText(v: Json, x: string)
    requires v.Array?
    ensures Text(v) + x == "[" + ItemsRest(v, 0, x)
  {
    var m := ItemsText(v, 0);
    assert Text(v) == "[" + (m + "]");
    Regroup("[", m + "]", x);
    Regroup(m, "]", x);
  }

  lemma {:induction false} ItemsSplit(v: Json, w: Json, from: nat, x: string, y: string)
    requires v.Array? && w.Array? && NumbersAccepted(v) && NumbersAccepted(w) && Ends(x) && Ends(y)
    requires from <= |v.items| && from <= |w.items|
    requires ItemsRest(v, from, x) == ItemsRest(w, from, y)
    ensures |v.items| == |w.items| && x == y
    ensures forall j :: from <= j < |v.items| ==> PrintsAlike(v.items[j], w.items[j])
    decreases v, 0, |v.items| - from
  {
    ItemsRestFirst(v, from, x);
    ItemsRestFirst(w, from, y);
    ItemsRestHead(v, from, x);
    ItemsRestHead(w, from, y);
    if from == |v.items| {
      SameTail("]", x, y);
    } else {
      var a, b := ItemsRest(v, from + 1, x), ItemsRest(w, from + 1, y);
      SameTail(Separator(from), Text(v.items[from]) + a, Text(w.items[from]) + b);
      ItemsRestFirst(v, from + 1, x);
      ItemsRestFirst(w, from + 1, y);
      TextSplits(v.items[from], w.items[from], a, b);
      ItemsSplit(v, w, from + 1, x, y);
    }
  }

  lemma {:induction false} SamePrints(v: Json, w: Json)
    requires PrintsAlike(v, w)
    ensures Text(v) == Text(w)
    decreases v, 1, 0
  {
    match v
    case Object(members) =>
      var keys := SortedList(members.Keys);
      assert forall j :: 0 <= j < |keys| ==> keys[j] in keys;
      SameMembersPrint(v, w, keys, 0);
    case Array(items) => SameItemsPrint(v, w, 0);
    case _ =>
  }

  lemma {:induction false} SameMembersPrint(v: Json, w: Json, keys: seq<string>, from: nat)
    requires PrintsAlike(v, w) && v.Object? && from <= |keys|
    requires forall j :: 0 <= j < |keys| ==> keys[j] in v.members
    requires forall j :: 0 <= j < |keys| ==> keys[j] in w.members
    ensures MembersText(v, keys, from) == MembersText(w, keys, from)
    decreases v, 0, |keys| - from
  {
    if from < |keys| {
      SamePrints(v.members[keys[from]], w.members[keys[from]]);
      SameMembersPrint(v, w, keys, from + 1);
    }
  }

  lemma {:induction false} SameItemsPrint(v: Json, w: Json, from: nat)
    requires PrintsAlike(v, w) && v.Array? && from <= |v.items|
    ensures ItemsText(v, from) == ItemsText(w, from)
    decreases v, 0, |v.items| - from
  {
    if from < |v.items| {
      SamePrints(v.items[from], w.items[from]);
      SameItemsPrint(v, w, from + 1);
    }
  }

  /** Accepted numbers print alike exactly when their exact decimal values are equal. */
  lemma {:induction false} SameNumbers(digits: string, others: string)
    requires AcceptedText(digits) && AcceptedText(others)
    ensures Form(digits) == Form(others) <==> SameValue(digits, others)
  {
    FormIs(digits);
    FormIs(others);
    forall a, b | WellFormed(a) && WellFormed(b) && Render(a) == digits && Render(b) == others
      ensures Form(digits) == Form(others) <==> Denoted(a) == Denoted(b)
    {
      CanonicalTextIsUnique(a, b);
    }
    var a :| WellFormed(a) && Render(a) == digits;
    var b :| WellFormed(b) && Render(b) == others;
    assert Form(digits) == Form(others) <==> Denoted(a) == Denoted(b);
  }

  lemma {:induction false} AlikeIsSame(v: Json, w: Json)
    requires NumbersAccepted(v) && NumbersAccepted(w)
    ensures PrintsAlike(v, w) <==> Same(v, w)
  {
    match v
    case Object(members) =>
      if w.Object? && members.Keys == w.members.Keys {
        forall k | k in members
          ensures k in w.members && (PrintsAlike(members[k], w.members[k]) <==> Same(members[k], w.members[k]))
        {
          assert k in w.members.Keys;
          AlikeIsSame(members[k], w.members[k]);
        }
      }
    case Array(items) =>
      if w.Array? && |items| == |w.items| {
        forall i | 0 <= i < |items|
          ensures PrintsAlike(items[i], w.items[i]) <==> Same(items[i], w.items[i])
        {
          AlikeIsSame(items[i], w.items[i]);
        }
      }
    case Number(digits, _) =>
      if w.Number? {
        SameNumbers(digits, w.digits);
      }
    case _ =>
  }

  /** Accepted values have the same canonical text exactly when they are the same value. */
  lemma TextIsFingerprint(v: Json, w: Json)
    requires NumbersAccepted(v) && NumbersAccepted(w)
    ensures Text(v) == Text(w) <==> Same(v, w)
  {
    AlikeIsSame(v, w);
    if PrintsAlike(v, w) {
      SamePrints(v, w);
    }
    if Text(v) == Text(w) {
      TextSplits(v, w, "", "");
    }
  }
}
