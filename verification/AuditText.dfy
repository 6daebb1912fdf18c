/** White space as the outbox trims it: the octets of the code points Unicode calls white space. */
module AuditText {
  import opened AuditOutbox
  import opened Utf8Text

  /** The code points with the White_Space property of Unicode. */
  predicate IsWhiteSpace(c: char) {
    var n := c as int;
    || 0x9 <= n <= 0xD || n == 0x20 || n == 0x85 || n == 0xA0 || n == 0x1680
    || 0x2000 <= n <= 0x200A || n == 0x2028 || n == 0x2029 || n == 0x202F || n == 0x205F || n == 0x3000
  }

  /** The text is made of these octets. */
  predicate Octets(w: string, b: seq<int>) {
    |w| == |b| && forall i :: 0 <= i < |b| ==> w[i] as int == b[i]
  }

  lemma {:induction false} OneOctet(w: string)
    requires |w| == 1 && IsSpace(w)
    ensures IsWhiteSpace(w[0]) && Octets(w, Utf8Of(w[0]))
  {
  }

  lemma {:induction false} TwoOctets(w: string) returns (c: char)
    requires |w| == 2 && IsSpace(w)
    ensures IsWhiteSpace(c) && Octets(w, Utf8Of(c))
  {
    c := (w[1] as int) as char;
  }

  lemma {:induction false} ThreeOctets(w: string) returns (c: char)
    requires |w| == 3 && IsSpace(w)
    ensures IsWhiteSpace(c) && Octets(w, Utf8Of(c))
  {
    var n := (w[0] as int - 0xE0) * 4096 + (w[1] as int - 0x80) * 64 + (w[2] as int - 0x80);
    c := n as char;
  }

  lemma {:induction false} SpaceOctets(w: string, c: char)
    requires IsWhiteSpace(c) && Octets(w, Utf8Of(c))
    ensures IsSpace(w)
  {
    var n := c as int;
    if n > 0xFF {
      assert n / 64 * 64 + n % 64 == n;
    }
  }

  /** A text is white space for trimming exactly when it is one white space character in UTF-8. */
  lemma {:induction false} SpaceExactly(w: string)
    ensures IsSpace(w) <==> exists c: char :: IsWhiteSpace(c) && Octets(w, Utf8Of(c))
  {
    if IsSpace(w) {
      var c: char;
      if |w| == 1 {
        OneOctet(w);
        c := w[0];
      } else if |w| == 2 {
        c := TwoOctets(w);
      } else {
        c := ThreeOctets(w);
      }
      assert IsWhiteSpace(c) && Octets(w, Utf8Of(c));
    }
    if c: char :| IsWhiteSpace(c) && Octets(w, Utf8Of(c)) {
      SpaceOctets(w, c);
    }
  }

  /** What details may be: none, or JSON text of null or an object of at most 8192 octets. */
  lemma DetailsFitExactly(d: Details)
    ensures DetailsFit(d) <==> d.Absent? || (d.Encoded? && |d.json.text| <= 8192 && (d.json.kind.NullText? || d.json.kind.ObjectText?))
  {
  }
}
