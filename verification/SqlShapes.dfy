/** Plain descriptions of the shapes the SQL scanner and guard look for. */
module SqlShapes {
  import opened Wrappers
  import opened SqlScanner

  predicate NameStart(c: char) {
    c == '_' || 'A' <= c <= 'Z' || 'a' <= c <= 'z'
  }

  /** A dollar tag: nothing, or a letter or underscore and then letters, digits and underscores. */
  predicate TagName(w: string) {
    w != "" ==> NameStart(w[0]) && forall c :: c in w ==> NameStart(c) || '0' <= c <= '9'
  }

  lemma {:induction false} RunStops(w: string, rest: string)
    requires (forall c :: c in w ==> IsTagChar(c)) && (rest == "" || !IsTagChar(rest[0]))
    ensures TagRun(w + rest) == |w|
  {
    if w == "" {
      assert w + rest == rest;
    } else {
      assert (w + rest)[1..] == w[1..] + rest;
      RunStops(w[1..], rest);
    }
  }

  lemma {:induction false} RunIsTag(t: string)
    ensures forall c :: c in t[..TagRun(t)] ==> IsTagChar(c)
  {
    if t != "" && IsTagChar(t[0]) {
      RunIsTag(t[1..]);
      assert t[..TagRun(t)] == [t[0]] + t[1..][..TagRun(t[1..])];
    }
  }

  lemma {:induction false} TagAhead(t: string)
    ensures TagName(t[..TagLength(t)])
  {
    if t != "" && IsTagStart(t[0]) {
      RunIsTag(t[1..]);
      assert t[..TagLength(t)] == [t[0]] + t[1..][..TagRun(t[1..])];
    }
  }

  lemma {:induction false} TagMeasured(w: string, rest: string)
    requires TagName(w) && rest != "" && rest[0] == '$'
    ensures TagLength(w + rest) == |w|
  {
    if w == "" {
      assert w + rest == rest;
    } else {
      assert (w + rest)[1..] == w[1..] + rest;
      assert forall c :: c in w[1..] ==> c in w;
      RunStops(w[1..], rest);
    }
  }

  /** A dollar-quoted string opens exactly with a tag between two dollar signs, and that is its delimiter. */
  lemma {:induction false} DelimiterExactly(t: string, d: string)
    requires t != "" && t[0] == '$'
    ensures Delimiter(t) == Some(d) <==> exists w :: TagName(w) && d == "$" + w + "$" && d <= t
  {
    var n := TagLength(t[1..]);
    var name := t[1..][..n];
    TagAhead(t[1..]);
    if Delimiter(t) == Some(d) {
      assert d == "$" + name + "$" && d <= t;
    }
    if w :| TagName(w) && d == "$" + w + "$" && d <= t {
      assert t == d + t[|d|..];
      assert t[1..] == w + ("$" + t[|d|..]);
      TagMeasured(w, "$" + t[|d|..]);
      assert name == w;
    }
  }
}
