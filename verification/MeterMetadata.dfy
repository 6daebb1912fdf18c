/** The bounded, canonical form of meter metadata. Text is a sequence of code points; bounds count UTF-8 octets. */
module MeterMetadata {
  import opened Wrappers
  import opened Sequences
  import opened TextOrder
  import opened MeterNumber

  const MAX_BYTES := 4096
  const MAX_MEMBERS := 32
  const MAX_DEPTH := 4
  const MAX_KEY_BYTES := 64
  const MAX_STRING_BYTES := 512
  const MAX_ARRAY_ITEMS := 32
  const MAX_NUMBER_BYTES := 128

  /** A decoded value. finite records strconv.ParseFloat's verdict on the number's text. */
  datatype Json =
    | Object(members: map<string, Json>)
    | Array(items: seq<Json>)
    | String(text: string)
    | Number(digits: string, finite: bool)
    | Boolean(value: bool)
    | Null

  function Octets(s: string): nat {
    if s == [] then 0 else Octets(s[..|s| - 1]) + OctetsOf(s[|s| - 1])
  }

  function OctetsOf(c: char): nat {
    var n := c as int;
    if n < 0x80 then 1 else if n < 0x800 then 2 else if n < 0x1_0000 then 3 else 4
  }

  predicate IsAsciiLetter(c: char) {
    'A' <= c <= 'Z' || 'a' <= c <= 'z'
  }

  predicate IsKeyChar(c: char) {
    IsAsciiLetter(c) || '0' <= c <= '9' || c == '_' || c == '.' || c == '-'
  }

  predicate ValidKey(key: string) {
    && 1 <= |key| <= MAX_KEY_BYTES
    && IsAsciiLetter(key[0])
    && forall i :: 1 <= i < |key| ==> IsKeyChar(key[i])
  }

  /** validateMetadataKey reads bytes; every byte of a valid key is a code point of its own. */
  method ValidateKey(key: string) returns (ok: bool)
    ensures ok <==> ValidKey(key)
  {
    if |key| == 0 || |key| > MAX_KEY_BYTES || !IsAsciiLetter(key[0]) {
      return false;
    }
    for i := 1 to |key|
      invariant forall k :: 1 <= k < i ==> IsKeyChar(key[k])
    {
      var c := key[i];
      if !IsAsciiLetter(c) && (c < '0' || c > '9') && c != '_' && c != '.' && c != '-' {
        return false;
      }
    }
    ok := true;
  }

  // ---------------------------------------------------------------- what is printed

  function HexDigit(n: nat): char
    requires n < 16
  {
    "0123456789abcdef"[n]
  }

  /** json.Marshal's escape of one code point. */
  function Escape(c: char): string {
    match c
    case '\"' => "\\\""
    case '\\' => "\\\\"
    case '\n' => "\\n"
    case '\r' => "\\r"
    case '\t' => "\\t"
    case _ =>
      var n := c as int;
      if n == 8 then "\\b" else if n == 12 then "\\f"
      else if n < 0x20 || c == '<' || c == '>' || c == '&' then "\\u00" + [HexDigit(n / 16), HexDigit(n % 16)]
      else if n == 0x2028 || n == 0x2029 then "\\u202" + [HexDigit(n % 16)]
      else [c]
  }

  function EscapeAll(s: string): string {
    if s == [] then "" else Escape(s[0]) + EscapeAll(s[1..])
  }

  function Quote(s: string): string {
    "\"" + EscapeAll(s) + "\""
  }

  /** The canonical text of a value, bounds aside. */
  ghost function Text(v: Json): string
    decreases v, 2, 0
  {
    match v
    case Object(members) => "{" + MembersText(v, SortedList(members.Keys), 0) + "}"
    case Array(items) => "[" + ItemsText(v, 0) + "]"
    case String(text) => Quote(text)
    case Number(digits, _) =>
      var r := Form(digits);
      if r.Ok? then r.value else ""
    case Boolean(value) => if value then "true" else "false"
    case Null => "null"
  }

  /** The members named by keys from an index on, comma-separated. */
  ghost function MembersText(v: Json, keys: seq<string>, from: nat): string
    requires v.Object? && from <= |keys| && forall j :: 0 <= j < |keys| ==> keys[j] in v.members
    decreases v, 1, |keys| - from
  {
    if from == |keys| then ""
    else
      MemberText(v, keys, from) + MembersText(v, keys, from + 1)
  }

  ghost function MemberText(v: Json, keys: seq<string>, i: nat): string
    requires v.Object? && i < |keys| && forall j :: 0 <= j < |keys| ==> keys[j] in v.members
    decreases v, 0, 0
  {
    Separator(i) + (Quote(keys[i]) + (":" + Text(v.members[keys[i]])))
  }

  function Separator(i: nat): string {
    if i > 0 then "," else ""
  }

  ghost function ItemsText(v: Json, from: nat): string
    requires v.Array? && from <= |v.items|
    decreases v, 1, |v.items| - from
  {
    if from == |v.items| then ""
    else ItemText(v, from) + ItemsText(v, from + 1)
  }

  ghost function ItemText(v: Json, i: nat): string
    requires v.Array? && i < |v.items|
    decreases v, 0, 0
  {
    Separator(i) + Text(v.items[i])
  }

  // ---------------------------------------------------------------- the declarative bounds

  /** Object members in the whole value. */
  ghost function Members(v: Json): nat
    decreases v, 2, 0
  {
    match v
    case Object(members) => |members| + MembersOf(v, SortedList(members.Keys), 0)
    case Array(items) => MembersIn(v, 0)
    case _ => 0
  }

  ghost function MembersOf(v: Json, keys: seq<string>, from: nat): nat
    requires v.Object? && from <= |keys| && forall j :: 0 <= j < |keys| ==> keys[j] in v.members
    decreases v, 1, |keys| - from
  {
    if from == |keys| then 0 else Members(v.members[keys[from]]) + MembersOf(v, keys, from + 1)
  }

  ghost function MembersIn(v: Json, from: nat): nat
    requires v.Array? && from <= |v.items|
    decreases v, 1, |v.items| - from
  {
    if from == |v.items| then 0 else Members(v.items[from]) + MembersIn(v, from + 1)
  }

  predicate AcceptedNumber(digits: string, finite: bool) {
    |digits| <= MAX_NUMBER_BYTES && finite && Form(digits).Ok?
  }

  ghost predicate KeysValid(names: set<string>) {
    forall k :: k in names ==> ValidKey(k)
  }

  /** Every bound except the member total, for a value at a given depth. */
  ghost predicate Within(v: Json, depth: nat) {
    depth <= MAX_DEPTH &&
    match v
    case Object(members) => KeysValid(members.Keys) && forall k :: k in members ==> Within(members[k], depth + 1)
    case Array(items) => |items| <= MAX_ARRAY_ITEMS && forall i :: 0 <= i < |items| ==> Within(items[i], depth + 1)
    case String(text) => Octets(text) <= MAX_STRING_BYTES
    case Number(digits, finite) => AcceptedNumber(digits, finite)
    case _ => true
  }

  ghost predicate AllWithin(v: Json, keys: seq<string>, n: nat, depth: nat)
    requires v.Object? && n <= |keys| && forall j :: 0 <= j < |keys| ==> keys[j] in v.members
  {
    forall j :: 0 <= j < n ==> Within(v.members[keys[j]], depth + 1)
  }

  ghost predicate Accepted(v: Json, depth: nat, members: nat) {
    Within(v, depth) && members + Members(v) <= MAX_MEMBERS
  }

  // ---------------------------------------------------------------- appendCanonicalMetadata

  /** The destination buffer and the validation state shared by the whole recursion. */
  class Canonicalizer {
    var dst: string
    var members: nat

    constructor ()
      ensures dst == "" && members == 0
    {
      dst, members := "", 0;
    }

    method Append(value: Json, depth: nat) returns (ok: bool)
      requires members <= MAX_MEMBERS
      modifies this
      ensures ok <==> Accepted(value, depth, old(members))
      ensures ok ==> dst == old(dst) + Text(value) && members == old(members) + Members(value)
      decreases value, 2, 0
    {
      if depth > MAX_DEPTH {
        return false;
      }
      match value {
        case Object(fields) =>
          ok := AppendObject(value, depth);
        case Array(items) =>
          ok := AppendArray(value, depth);
        case String(text) =>
          if Octets(text) > MAX_STRING_BYTES {
            return false;
          }
          dst := dst + Quote(text);
          ok := true;
        case Number(digits, finite) =>
          ok := AppendNumber(digits, finite);
        case Boolean(b) =>
          dst := dst + if b then "true" else "false";
          ok := true;
        case Null =>
          dst := dst + "null";
          ok := true;
      }
    }

    method AppendNumber(digits: string, finite: bool) returns (ok: bool)
      modifies this`dst
      ensures ok <==> AcceptedNumber(digits, finite)
      ensures ok ==> dst == old(dst) + Form(digits).value
    {
      if |digits| > MAX_NUMBER_BYTES || !finite {
        return false;
      }
      var canonical := CanonicalJSONNumber(digits);
      FormIs(digits);
      if canonical.Err? {
        return false;
      }
      dst := dst + canonical.value;
      ok := true;
    }

    method AppendObject(value: Json, depth: nat) returns (ok: bool)
      requires value.Object? && depth <= MAX_DEPTH && members <= MAX_MEMBERS
      modifies this
      ensures ok <==> Accepted(value, depth, old(members))
      ensures ok ==> dst == old(dst) + Text(value) && members == old(members) + Members(value)
      decreases value, 1, 0
    {
      members := members + |value.members|;
      if members > MAX_MEMBERS {
        return false;
      }
      var keys: seq<string>;
      ok, keys := SortedKeys(value.members.Keys);
      if !ok {
        return;
      }
      ObjectInOrder(value, keys, depth);
      ghost var start := dst;
      dst := dst + "{";
      ok := AppendMembers(value, keys, depth);
      if ok {
        dst := dst + "}";
        Wrapped(start, "{", MembersText(value, keys, 0), "}");
      }
    }

    method AppendMembers(value: Json, keys: seq<string>, depth: nat) returns (ok: bool)
      requires value.Object? && (forall j :: 0 <= j < |keys| ==> keys[j] in value.members) && members <= MAX_MEMBERS
      modifies this
      ensures ok <==> AllWithin(value, keys, |keys|, depth) && old(members) + MembersOf(value, keys, 0) <= MAX_MEMBERS
      ensures ok ==> dst == old(dst) + MembersText(value, keys, 0) && members == old(members) + MembersOf(value, keys, 0)
      decreases value, 0, 2
    {
      ghost var whole, total := dst + MembersText(value, keys, 0), members + MembersOf(value, keys, 0);
      for i := 0 to |keys|
        invariant members <= MAX_MEMBERS
        invariant AllWithin(value, keys, i, depth)
        invariant dst + MembersText(value, keys, i) == whole
        invariant members + MembersOf(value, keys, i) == total
      {
        ok := NextMember(value, keys, i, depth);
        if !ok {
          return;
        }
      }
      assert dst + "" == dst;
      ok := true;
    }

    method NextMember(value: Json, keys: seq<string>, i: nat, depth: nat) returns (ok: bool)
      requires value.Object? && i < |keys| && (forall j :: 0 <= j < |keys| ==> keys[j] in value.members) && members <= MAX_MEMBERS
      modifies this
      ensures ok ==>
                && (AllWithin(value, keys, i, depth) ==> AllWithin(value, keys, i + 1, depth)) && members <= MAX_MEMBERS
                && dst + MembersText(value, keys, i + 1) == old(dst) + MembersText(value, keys, i)
                && members + MembersOf(value, keys, i + 1) == old(members) + MembersOf(value, keys, i)
      ensures !ok ==> !AllWithin(value, keys, |keys|, depth) || old(members) + MembersOf(value, keys, i) > MAX_MEMBERS
      decreases value, 0, 1
    {
      ghost var start := dst;
      ok := AppendMember(value, keys, i, depth);
      Regroup(start, MemberText(value, keys, i), MembersText(value, keys, i + 1));
    }

    method AppendMember(value: Json, keys: seq<string>, i: nat, depth: nat) returns (ok: bool)
      requires value.Object? && i < |keys| && (forall j :: 0 <= j < |keys| ==> keys[j] in value.members) && members <= MAX_MEMBERS
      modifies this
      ensures ok <==> Accepted(value.members[keys[i]], depth + 1, old(members))
      ensures ok ==> dst == old(dst) + MemberText(value, keys, i)
      ensures ok ==> members == old(members) + Members(value.members[keys[i]])
      decreases value, 0, 0
    {
      ghost var start := dst;
      if i > 0 {
        dst := dst + ",";
      }
      dst := dst + Quote(keys[i]);
      dst := dst + ":";
      assert keys[i] in value.members;
      ok := Append(value.members[keys[i]], depth + 1);
      if ok {
        assert dst == start + MemberText(value, keys, i);
      }
    }

    method AppendArray(value: Json, depth: nat) returns (ok: bool)
      requires value.Array? && depth <= MAX_DEPTH && members <= MAX_MEMBERS
      modifies this
      ensures ok <==> Accepted(value, depth, old(members))
      ensures ok ==> dst == old(dst) + Text(value) && members == old(members) + Members(value)
      decreases value, 1, 0
    {
      if |value.items| > MAX_ARRAY_ITEMS {
        return false;
      }
      ghost var start := dst;
      dst := dst + "[";
      ok := AppendItems(value, depth);
      if ok {
        dst := dst + "]";
        assert dst == start + Text(value);
      }
    }

    method AppendItems(value: Json, depth: nat) returns (ok: bool)
      requires value.Array? && members <= MAX_MEMBERS
      modifies this
      ensures ok <==>
                && (forall i :: 0 <= i < |value.items| ==> Within(value.items[i], depth + 1))
                && old(members) + MembersIn(value, 0) <= MAX_MEMBERS
      ensures ok ==> dst == old(dst) + ItemsText(value, 0) && members == old(members) + MembersIn(value, 0)
      decreases value, 0, 1
    {
      ghost var start, base := dst, members;
      for i := 0 to |value.items|
        invariant members <= MAX_MEMBERS
        invariant forall j :: 0 <= j < i ==> Within(value.items[j], depth + 1)
        invariant dst + ItemsText(value, i) == start + ItemsText(value, 0)
        invariant members + MembersIn(value, i) == base + MembersIn(value, 0)
      {
        ghost var before := dst;
        ok := AppendItem(value, i, depth);
        if !ok {
          return;
        }
        Regroup(before, ItemText(value, i), ItemsText(value, i + 1));
      }
      assert dst + "" == dst;
      ok := true;
    }

    method AppendItem(value: Json, i: nat, depth: nat) returns (ok: bool)
      requires value.Array? && i < |value.items| && members <= MAX_MEMBERS
      modifies this
      ensures ok <==> Accepted(value.items[i], depth + 1, old(members))
      ensures ok ==> dst == old(dst) + ItemText(value, i) && members == old(members) + Members(value.items[i])
      decreases value, 0, 0
    {
      ghost var start := dst;
      if i > 0 {
        dst := dst + ",";
      }
      ok := Append(value.items[i], depth + 1);
      if ok {
        assert dst == start + ItemText(value, i);
      }
    }
  }

  lemma Wrapped(start: string, open: string, text: string, close: string)
    ensures start + open + text + close == start + (open + text + close)
  {
  }

  /** What an object's text, total and bounds are, given its sorted keys. */
  lemma ObjectInOrder(v: Json, keys: seq<string>, depth: nat)
    requires v.Object? && Lists(keys, v.members.Keys) && depth <= MAX_DEPTH
    requires KeysValid(v.members.Keys)
    ensures forall j :: 0 <= j < |keys| ==> keys[j] in v.members
    ensures Text(v) == "{" + MembersText(v, keys, 0) + "}"
    ensures Members(v) == |v.members| + MembersOf(v, keys, 0)
    ensures Within(v, depth) <==> AllWithin(v, keys, |keys|, depth)
  {
    ListUnique(keys, SortedList(v.members.Keys), v.members.Keys);
    forall j | 0 <= j < |keys|
      ensures keys[j] in v.members
    {
      assert keys[j] in keys;
    }
    if forall j :: 0 <= j < |keys| ==> Within(v.members[keys[j]], depth + 1) {
      forall k | k in v.members
        ensures Within(v.members[k], depth + 1)
      {
        assert k in keys;
      }
    }
  }

  /** Collects and checks the keys in whatever order the map yields them, then sorts. */
  method SortedKeys(names: set<string>) returns (ok: bool, keys: seq<string>)
    ensures ok <==> KeysValid(names)
    ensures ok ==> Lists(keys, names)
  {
    keys := [];
    var rest := names;
    while rest != {}
      invariant rest <= names
      invariant forall k :: k in keys <==> k in names && k !in rest
      invariant forall i, j :: 0 <= i < j < |keys| ==> keys[i] != keys[j]
      invariant forall k :: k in keys ==> ValidKey(k)
      decreases rest
    {
      var key :| key in rest;
      ok := ValidateKey(key);
      if !ok {
        return;
      }
      keys := keys + [key];
      rest := rest - {key};
    }
    SortLists(keys, names);
    ok, keys := true, Sort(keys);
  }
}
