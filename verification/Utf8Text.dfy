/** Text as the octets of its UTF-8 form. */
module Utf8Text {
  /** The octets of one code point, section 3 of RFC 3629. */
  function Utf8Of(c: char): seq<int> {
    var n := c as int;
    if n <= 0x7F then [n]
    else if n <= 0x7FF then [0xC0 + n / 64, 0x80 + n % 64]
    else if n <= 0xFFFF then [0xE0 + n / 4096, 0x80 + n / 64 % 64, 0x80 + n % 64]
    else [0xF0 + n / 262144, 0x80 + n / 4096 % 64, 0x80 + n / 64 % 64, 0x80 + n % 64]
  }

  function Utf8(s: string): seq<int> {
    if s == [] then [] else Utf8(s[..|s| - 1]) + Utf8Of(s[|s| - 1])
  }

  /** The code point the octets at the front of b spell, from the marks of the leading octet. */
  function Leading(b: seq<int>): int {
    if b == [] then -1
    else if b[0] < 0x80 then b[0]
    else if 0xC0 <= b[0] < 0xE0 && |b| >= 2 then (b[0] - 0xC0) * 64 + (b[1] - 0x80)
    else if 0xE0 <= b[0] < 0xF0 && |b| >= 3 then (b[0] - 0xE0) * 4096 + (b[1] - 0x80) * 64 + (b[2] - 0x80)
    else if 0xF0 <= b[0] < 0xF8 && |b| >= 4 then (b[0] - 0xF0) * 262144 + (b[1] - 0x80) * 4096 + (b[2] - 0x80) * 64 + (b[3] - 0x80)
    else -1
  }

  lemma SixBits(n: nat)
    ensures n == n / 64 * 64 + n % 64
    ensures n / 64 == n / 4096 * 64 + n / 64 % 64
    ensures n / 4096 == n / 262144 * 64 + n / 4096 % 64
  {
  }

  lemma {:induction false} ShortLeads(c: char, rest: seq<int>)
    requires c as int <= 0x7FF
    ensures Leading(Utf8Of(c) + rest) == c as int
  {
    var u, b := Utf8Of(c), Utf8Of(c) + rest;
    assert b[0] == u[0] && (|u| > 1 ==> b[1] == u[1]);
  }

  lemma {:induction false} ThreeLead(c: char, rest: seq<int>)
    requires 0x7FF < c as int <= 0xFFFF
    ensures Leading(Utf8Of(c) + rest) == c as int
  {
    var u, b := Utf8Of(c), Utf8Of(c) + rest;
    assert b[0] == u[0] && b[1] == u[1] && b[2] == u[2];
    SixBits(c as int);
  }

  lemma {:induction false} FourLead(c: char, rest: seq<int>)
    requires 0xFFFF < c as int
    ensures Leading(Utf8Of(c) + rest) == c as int
  {
    var u, b := Utf8Of(c), Utf8Of(c) + rest;
    assert b[0] == u[0] && b[1] == u[1] && b[2] == u[2] && b[3] == u[3];
    SixBits(c as int);
  }

  /** The octets of a code point say which one it is, whatever follows. */
  lemma {:induction false} Utf8Leads(c: char, rest: seq<int>)
    ensures Leading(Utf8Of(c) + rest) == c as int
  {
    if c as int <= 0x7FF {
      ShortLeads(c, rest);
    } else if c as int <= 0xFFFF {
      ThreeLead(c, rest);
    } else {
      FourLead(c, rest);
    }
  }
}
