/** What the bounds on metadata mean: sizes are UTF-8 sizes, and every bound is on every value inside. */
module MeterBounds {
  import opened MeterMetadata
  import opened MeterTokens
  import opened Utf8Text
  import opened MeterNumber

  /** The size counted for a text is that of its UTF-8 form. */
  lemma {:induction false} OctetsAreUtf8(s: string)
    ensures Octets(s) == |Utf8(s)|
  {
    if s != [] {
      OctetsAreUtf8(s[..|s| - 1]);
    }
  }

  // ---------------------------------------------------------------- everything inside

  /** A step from a value to one directly inside it. */
  datatype Step = Inside(name: string) | Nth(index: nat)

  /** Taking the steps of p from v ends at w. */
  ghost predicate Leads(v: Json, p: seq<Step>, w: Json) {
    if p == [] then w == v
    else
      match p[0]
      case Inside(name) => v.Object? && name in v.members && Leads(v.members[name], p[1..], w)
      case Nth(i) => v.Array? && i < |v.items| && Leads(v.items[i], p[1..], w)
  }

  predicate IsLetter(c: char) {
    'a' <= c <= 'z' || 'A' <= c <= 'Z'
  }

  /** A name of 1 to 64 characters, a letter first and then letters, digits, underscores, dots and dashes. */
  predicate SoundName(name: string) {
    1 <= |name| <= 64 && IsLetter(name[0]) && forall c :: c in name ==> IsLetter(c) || '0' <= c <= '9' || c in {'_', '.', '-'}
  }

  /** A value's own bounds, whatever is inside it. */
  ghost predicate Sound(v: Json) {
    match v
    case Object(members) => forall name :: name in members ==> SoundName(name)
    case Array(items) => |items| <= 32
    case String(text) => |Utf8(text)| <= 512
    case Number(digits, finite) => |digits| <= 128 && finite && Form(digits).Ok?
    case _ => true
  }

  lemma {:induction false} NameIsSound(name: string)
    ensures ValidKey(name) <==> SoundName(name)
  {
    if ValidKey(name) {
      assert IsKeyChar(name[0]);
    }
    if SoundName(name) {
      assert forall i :: 0 <= i < |name| ==> name[i] in name;
    }
  }

  lemma {:induction false} WithinIsSound(v: Json, depth: nat)
    requires Within(v, depth)
    ensures depth <= 4 && Sound(v)
  {
    match v
    case Object(members) =>
      forall name | name in members
        ensures SoundName(name)
      {
        assert ValidKey(name);
        NameIsSound(name);
      }
    case String(text) => OctetsAreUtf8(text);
    case _ =>
  }

  lemma {:induction false} BoundsReachInside(v: Json, depth: nat, p: seq<Step>, w: Json)
    requires Within(v, depth) && Leads(v, p, w)
    ensures depth + |p| <= 4 && Sound(w)
    decreases |p|
  {
    if p == [] {
      WithinIsSound(v, depth);
    } else {
      match p[0]
      case Inside(name) => BoundsReachInside(v.members[name], depth + 1, p[1..], w);
      case Nth(i) => BoundsReachInside(v.items[i], depth + 1, p[1..], w);
    }
  }

  /** A value out of bounds has a path to what is too deep or not sound. */
  lemma {:induction false} Offender(v: Json, depth: nat) returns (p: seq<Step>, w: Json)
    requires !Within(v, depth)
    ensures Leads(v, p, w) && (depth + |p| > 4 || !Sound(w))
    decreases v
  {
    p, w := [], v;
    match v
    case Object(members) =>
      if depth <= 4 && Sound(v) {
        forall name | name in members
          ensures ValidKey(name)
        {
          NameIsSound(name);
        }
        var name :| name in members && !Within(members[name], depth + 1);
        var q, u := Offender(members[name], depth + 1);
        p, w := [Inside(name)] + q, u;
        assert p[1..] == q;
      }
    case Array(items) =>
      if depth <= 4 && Sound(v) {
        var i :| 0 <= i < |items| && !Within(items[i], depth + 1);
        var q, u := Offender(items[i], depth + 1);
        p, w := [Nth(i)] + q, u;
        assert p[1..] == q;
      }
    case String(text) => OctetsAreUtf8(text);
    case _ =>
  }

  /** Nothing in the value lies deeper than so many steps, and everything in it is sound. */
  ghost predicate SoundInside(v: Json, steps: int) {
    forall p: seq<Step>, w: Json :: Leads(v, p, w) ==> |p| <= steps && Sound(w)
  }

  /** The bounds on a value at a depth are bounds on everything inside it. */
  lemma {:induction false} BoundsExactly(v: Json, depth: nat)
    ensures Within(v, depth) <==> SoundInside(v, 4 - depth)
  {
    if Within(v, depth) {
      forall p: seq<Step>, w: Json | Leads(v, p, w)
        ensures |p| <= 4 - depth && Sound(w)
      {
        BoundsReachInside(v, depth, p, w);
      }
    } else {
      var p, w := Offender(v, depth);
      assert Leads(v, p, w) && !(|p| <= 4 - depth && Sound(w));
    }
  }

  /**
   Metadata is admitted exactly when there is none, or it is one object in
   UTF-8 that repeats no name, names at most 32 members in all, nests at most
   four deep and is sound throughout, in at most 4096 octets both as sent and
   in canonical form.
   */
  lemma {:induction false} AdmissibleExactly(raw: Raw)
    requires raw.parsed.Some? ==> Scalars(raw.parsed.value)
    ensures Admissible(raw) <==>
            raw.bytes == [] ||
            (&& |raw.bytes| <= 4096 && raw.utf8 && !raw.trailing
             && raw.parsed.Some? && raw.parsed.value.SourceObject? && NoDuplicates(raw.parsed.value) && Tokens(raw.parsed.value) <= 32
             && SoundInside(Decode(raw.parsed.value), 3)
             && |Utf8(Text(Decode(raw.parsed.value)))| <= 4096)
  {
    if raw.parsed.Some? && NoDuplicates(raw.parsed.value) {
      var v := Decode(raw.parsed.value);
      BoundsExactly(v, 1);
      TotalsAgree(raw.parsed.value);
      OctetsAreUtf8(Text(v));
    }
  }
}
