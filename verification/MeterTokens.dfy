/** The token walk over source members, decoding into maps, and the whole metadata check. */
module MeterTokens {
  import opened Wrappers
  import opened TextOrder
  import opened MeterMetadata

  /** A JSON value as written: members in source order, names possibly repeated. */
  datatype Source =
    | SourceObject(members: seq<Member>)
    | SourceArray(items: seq<Source>)
    | Scalar(value: Json)

  datatype Member = Member(name: string, value: Source)

  ghost predicate Scalars(r: Source) {
    match r
    case SourceObject(members) => forall i :: 0 <= i < |members| ==> Scalars(members[i].value)
    case SourceArray(items) => forall i :: 0 <= i < |items| ==> Scalars(items[i])
    case Scalar(v) => !v.Object? && !v.Array?
  }

  predicate Named(members: seq<Member>, name: string, upto: nat)
    requires upto <= |members|
  {
    exists i :: 0 <= i < upto && members[i].name == name
  }

  /** No object, at any depth, repeats a name. */
  ghost predicate NoDuplicates(r: Source) {
    match r
    case SourceObject(members) =>
      && (forall i :: 0 <= i < |members| ==> !Named(members, members[i].name, i))
      && (forall i :: 0 <= i < |members| ==> NoDuplicates(members[i].value))
    case SourceArray(items) => forall i :: 0 <= i < |items| ==> NoDuplicates(items[i])
    case Scalar(_) => true
  }

  /** Names in the token stream. */
  function Tokens(r: Source): nat
    decreases r, 1
  {
    match r
    case SourceObject(members) => TokensOf(r, 0)
    case SourceArray(items) => TokensIn(r, 0)
    case Scalar(_) => 0
  }

  function TokensOf(r: Source, from: nat): nat
    requires r.SourceObject? && from <= |r.members|
    decreases r, 0, |r.members| - from
  {
    if from == |r.members| then 0 else 1 + Tokens(r.members[from].value) + TokensOf(r, from + 1)
  }

  function TokensIn(r: Source, from: nat): nat
    requires r.SourceArray? && from <= |r.items|
    decreases r, 0, |r.items| - from
  {
    if from == |r.items| then 0 else Tokens(r.items[from]) + TokensIn(r, from + 1)
  }

  /** The walk's counter; seen names live in one set per object. */
  class Walker {
    var members: nat

    constructor ()
      ensures members == 0
    {
      members := 0;
    }

    method Walk(r: Source) returns (ok: bool)
      requires members <= MAX_MEMBERS
      modifies this
      ensures ok <==> NoDuplicates(r) && old(members) + Tokens(r) <= MAX_MEMBERS
      ensures ok ==> members == old(members) + Tokens(r)
      decreases r, 1
    {
      match r {
        case Scalar(_) => ok := true;
        case SourceObject(_) => ok := WalkObject(r);
        case SourceArray(_) => ok := WalkArray(r);
      }
    }

    method WalkObject(r: Source) returns (ok: bool)
      requires r.SourceObject? && members <= MAX_MEMBERS
      modifies this
      ensures ok <==> NoDuplicates(r) && old(members) + Tokens(r) <= MAX_MEMBERS
      ensures ok ==> members == old(members) + Tokens(r)
      decreases r, 0
    {
      var seen: set<string> := {};
      for i := 0 to |r.members|
        invariant members <= MAX_MEMBERS
        invariant forall name :: name in seen <==> Named(r.members, name, i)
        invariant forall j :: 0 <= j < i ==> !Named(r.members, r.members[j].name, j) && NoDuplicates(r.members[j].value)
        invariant members + TokensOf(r, i) == old(members) + TokensOf(r, 0)
      {
        members := members + 1;
        if members > MAX_MEMBERS {
          return false;
        }
        if r.members[i].name in seen {
          return false;
        }
        seen := seen + {r.members[i].name};
        ok := Walk(r.members[i].value);
        if !ok {
          return;
        }
      }
      ok := true;
    }

    method WalkArray(r: Source) returns (ok: bool)
      requires r.SourceArray? && members <= MAX_MEMBERS
      modifies this
      ensures ok <==> NoDuplicates(r) && old(members) + Tokens(r) <= MAX_MEMBERS
      ensures ok ==> members == old(members) + Tokens(r)
      decreases r, 0
    {
      for i := 0 to |r.items|
        invariant members <= MAX_MEMBERS
        invariant forall j :: 0 <= j < i ==> NoDuplicates(r.items[j])
        invariant members + TokensIn(r, i) == old(members) + TokensIn(r, 0)
      {
        ok := Walk(r.items[i]);
        if !ok {
          return;
        }
      }
      ok := true;
    }
  }

  // ---------------------------------------------------------------- decoding

  /** encoding/json into map[string]any: a repeated name keeps its last value. */
  function Decode(r: Source): Json
    decreases r, 1
  {
    match r
    case SourceObject(members) => Object(DecodeMembers(r, |members|))
    case SourceArray(items) => Array(seq(|items|, i requires 0 <= i < |items| => Decode(items[i])))
    case Scalar(v) => v
  }

  function DecodeMembers(r: Source, upto: nat): (m: map<string, Json>)
    requires r.SourceObject? && upto <= |r.members|
    decreases r, 0, upto
  {
    if upto == 0 then map[]
    else DecodeMembers(r, upto - 1)[r.members[upto - 1].name := Decode(r.members[upto - 1].value)]
  }

  lemma {:induction false} DecodedKeys(r: Source, upto: nat, name: string)
    requires r.SourceObject? && upto <= |r.members|
    ensures name in DecodeMembers(r, upto) <==> Named(r.members, name, upto)
    decreases upto
  {
    if upto > 0 {
      DecodedKeys(r, upto - 1, name);
      assert r.members[upto - 1].name == name ==> Named(r.members, name, upto);
    }
  }

  /** Without duplicates every member decodes to its own entry. */
  lemma {:induction false} DecodedEntry(r: Source, upto: nat, i: nat)
    requires r.SourceObject? && NoDuplicates(r) && i < upto <= |r.members|
    ensures r.members[i].name in DecodeMembers(r, upto)
    ensures DecodeMembers(r, upto)[r.members[i].name] == Decode(r.members[i].value)
    decreases upto
  {
    if i < upto - 1 {
      DecodedEntry(r, upto - 1, i);
      assert !Named(r.members, r.members[upto - 1].name, upto - 1);
      assert r.members[upto - 1].name != r.members[i].name;
    }
  }

  /** Members over an object's keys can be totalled in any order that lists each key once. */
  ghost function SumOver(m: map<string, Json>, keys: set<string>): nat
    requires keys <= m.Keys
    decreases |keys|
  {
    if keys == {} then 0
    else
      var k :| k in keys;
      Members(m[k]) + SumOver(m, keys - {k})
  }

  lemma {:induction false} SumOverAny(m: map<string, Json>, keys: set<string>, k: string)
    requires keys <= m.Keys && k in keys
    ensures SumOver(m, keys) == Members(m[k]) + SumOver(m, keys - {k})
    decreases |keys|
  {
    var c :| c in keys && SumOver(m, keys) == Members(m[c]) + SumOver(m, keys - {c});
    if c != k {
      SumOverAny(m, keys - {c}, k);
      SumOverAny(m, keys - {k}, c);
      assert keys - {c} - {k} == keys - {k} - {c};
    }
  }

  lemma {:induction false} SumOverSame(m: map<string, Json>, n: map<string, Json>, keys: set<string>)
    requires keys <= m.Keys && keys <= n.Keys && forall k :: k in keys ==> m[k] == n[k]
    ensures SumOver(m, keys) == SumOver(n, keys)
    decreases |keys|
  {
    if keys != {} {
      var k :| k in keys;
      SumOverAny(m, keys, k);
      SumOverAny(n, keys, k);
      SumOverSame(m, n, keys - {k});
    }
  }

  function Suffix(keys: seq<string>, from: nat): set<string>
    requires from <= |keys|
  {
    set k | k in keys[from..]
  }

  lemma {:induction false} ListedSum(v: Json, keys: seq<string>, from: nat)
    requires v.Object? && Sorted(keys) && from <= |keys| && forall j :: 0 <= j < |keys| ==> keys[j] in v.members
    ensures Suffix(keys, from) <= v.members.Keys
    ensures MembersOf(v, keys, from) == SumOver(v.members, Suffix(keys, from))
    decreases |keys| - from
  {
    if from < |keys| {
      ListedSum(v, keys, from + 1);
      assert keys[from..] == [keys[from]] + keys[from + 1..];
      assert keys[from] !in keys[from + 1..] by {
        LessIrreflexive(keys[from]);
        var tail := keys[from + 1..];
        assert forall j :: 0 <= j < |tail| ==> tail[j] == keys[from + 1 + j];
      }
      assert Suffix(keys, from) - {keys[from]} == Suffix(keys, from + 1);
      SumOverAny(v.members, Suffix(keys, from), keys[from]);
    }
  }

  lemma ObjectMembers(v: Json)
    requires v.Object?
    ensures Members(v) == |v.members| + SumOver(v.members, v.members.Keys)
  {
    var keys := SortedList(v.members.Keys);
    assert forall j :: 0 <= j < |keys| ==> keys[j] in keys;
    ListedSum(v, keys, 0);
    assert keys[0..] == keys;
    assert Suffix(keys, 0) == v.members.Keys;
  }

  /** For duplicate-free input the decoded member total is the token walk's. */
  lemma {:induction false} TotalsAgree(r: Source)
    requires NoDuplicates(r) && Scalars(r)
    ensures Members(Decode(r)) == Tokens(r)
    decreases r, 1
  {
    match r
    case SourceObject(members) =>
      PrefixTotals(r, |members|);
      SplitTokens(r, |members|);
      ObjectMembers(Decode(r));
    case SourceArray(items) =>
      ItemTotals(r, 0);
    case Scalar(_) =>
  }

  lemma {:induction false} ItemTotals(r: Source, from: nat)
    requires r.SourceArray? && NoDuplicates(r) && Scalars(r) && from <= |r.items|
    ensures MembersIn(Decode(r), from) == TokensIn(r, from)
    decreases r, 0, |r.items| - from
  {
    if from < |r.items| {
      TotalsAgree(r.items[from]);
      ItemTotals(r, from + 1);
    }
  }

  /** Tokens of the first members. */
  function TokensUpto(r: Source, upto: nat): nat
    requires r.SourceObject? && upto <= |r.members|
    decreases upto
  {
    if upto == 0 then 0 else TokensUpto(r, upto - 1) + 1 + Tokens(r.members[upto - 1].value)
  }

  lemma {:induction false} SplitTokens(r: Source, upto: nat)
    requires r.SourceObject? && upto <= |r.members|
    ensures TokensUpto(r, upto) + TokensOf(r, upto) == Tokens(r)
    decreases upto
  {
    if upto > 0 {
      SplitTokens(r, upto - 1);
    }
  }

  lemma {:induction false} PrefixTotals(r: Source, upto: nat)
    requires r.SourceObject? && NoDuplicates(r) && Scalars(r) && upto <= |r.members|
    ensures var m := DecodeMembers(r, upto); |m| + SumOver(m, m.Keys) == TokensUpto(r, upto)
    decreases r, 0, upto
  {
    if upto > 0 {
      var before, m := DecodeMembers(r, upto - 1), DecodeMembers(r, upto);
      var name := r.members[upto - 1].name;
      PrefixTotals(r, upto - 1);
      DecodedKeys(r, upto - 1, name);
      assert name !in before;
      TotalsAgree(r.members[upto - 1].value);
      assert m.Keys - {name} == before.Keys;
      SumOverAny(m, m.Keys, name);
      SumOverSame(before, m, before.Keys);
      assert |m| == |before| + 1;
    }
  }

  // ---------------------------------------------------------------- member order

  /** The same value with members written in another order, at any depth. */
  ghost predicate Reordered(r: Source, s: Source) {
    match r
    case SourceObject(members) =>
      && s.SourceObject?
      && (forall name :: Named(members, name, |members|) <==> Named(s.members, name, |s.members|))
      && (forall i, j :: 0 <= i < |members| && 0 <= j < |s.members| && members[i].name == s.members[j].name ==>
            Reordered(members[i].value, s.members[j].value))
    case SourceArray(items) =>
      && s.SourceArray? && |items| == |s.items|
      && (forall i :: 0 <= i < |items| ==> Reordered(items[i], s.items[i]))
    case Scalar(v) => s == r
  }

  /** Reordering members changes nothing that is decoded, and so nothing that is checked or printed. */
  lemma {:induction false} OrderIsIrrelevant(r: Source, s: Source)
    requires NoDuplicates(r) && NoDuplicates(s) && Reordered(r, s)
    ensures Decode(r) == Decode(s)
  {
    match r
    case SourceObject(members) =>
      var m, n := DecodeMembers(r, |members|), DecodeMembers(s, |s.members|);
      forall name
        ensures name in m <==> name in n
        ensures name in m ==> m[name] == n[name]
      {
        DecodedKeys(r, |members|, name);
        DecodedKeys(s, |s.members|, name);
        if name in m {
          var i :| 0 <= i < |members| && members[i].name == name;
          var j :| 0 <= j < |s.members| && s.members[j].name == name;
          DecodedEntry(r, |members|, i);
          DecodedEntry(s, |s.members|, j);
          OrderIsIrrelevant(members[i].value, s.members[j].value);
        }
      }
      assert m == n;
    case SourceArray(items) =>
      forall i | 0 <= i < |items|
        ensures Decode(items[i]) == Decode(s.items[i])
      {
        OrderIsIrrelevant(items[i], s.items[i]);
      }
      assert Decode(r).items == Decode(s).items;
    case Scalar(_) =>
  }

  // ---------------------------------------------------------------- validateAndCopyMetadata

  /** The raw message: its bytes, whether they are UTF-8, the JSON value the first tokens form, and whether more follows. */
  datatype Raw = Raw(bytes: seq<bv8>, utf8: bool, parsed: Option<Source>, trailing: bool)

  datatype Refused = Refused

  ghost predicate Admissible(raw: Raw) {
    raw.bytes == [] ||
    (&& |raw.bytes| <= MAX_BYTES && raw.utf8 && !raw.trailing
     && raw.parsed.Some? && raw.parsed.value.SourceObject? && NoDuplicates(raw.parsed.value)
     && Accepted(Decode(raw.parsed.value), 1, 0)
     && Octets(Text(Decode(raw.parsed.value))) <= MAX_BYTES)
  }

  /** Admissible metadata comes back as it was sent, byte for byte. */
  method ValidateAndCopyMetadata(raw: Raw) returns (r: Result<seq<bv8>, Refused>)
    requires raw.parsed.Some? ==> Scalars(raw.parsed.value)
    ensures r.Ok? <==> Admissible(raw)
    ensures r.Ok? ==> r.value == raw.bytes
  {
    if |raw.bytes| == 0 {
      return Ok([]);
    }
    if |raw.bytes| > MAX_BYTES || !raw.utf8 {
      return Err(Refused);
    }
    if raw.parsed.None? {
      return Err(Refused);
    }
    var source := raw.parsed.value;
    var walker := new Walker();
    var ok := walker.Walk(source);
    if NoDuplicates(source) {
      TotalsAgree(source);
    }
    if !ok || raw.trailing {
      return Err(Refused);
    }
    var value := Decode(source);
    if !value.Object? {
      assert !source.SourceObject?;
      return Err(Refused);
    }
    var canonical := new Canonicalizer();
    ok := canonical.Append(value, 1);
    assert ok ==> canonical.dst == "" + Text(value) == Text(value);
    if !ok || Octets(canonical.dst) > MAX_BYTES {
      return Err(Refused);
    }
    r := Ok(raw.bytes);
  }
}
