/** Strings in lexicographic order, and the one sorted list of a set of them (Go's sort.Strings). */
module TextOrder {

  predicate Less(a: string, b: string) {
    b != [] && (a == [] || a[0] < b[0] || (a[0] == b[0] && Less(a[1..], b[1..])))
  }

  lemma {:induction false} LessIrreflexive(a: string)
    ensures !Less(a, a)
  {
    if a != [] {
      LessIrreflexive(a[1..]);
    }
  }

  lemma {:induction false} LessTransitive(a: string, b: string, c: string)
    requires Less(a, b) && Less(b, c)
    ensures Less(a, c)
  {
    if a != [] && a[0] == b[0] && b[0] == c[0] {
      LessTransitive(a[1..], b[1..], c[1..]);
    }
  }

  lemma {:induction false} LessTotal(a: string, b: string)
    ensures a == b || Less(a, b) || Less(b, a)
  {
    if a != [] && b != [] && a[0] == b[0] {
      LessTotal(a[1..], b[1..]);
      assert a == [a[0]] + a[1..] && b == [b[0]] + b[1..];
    }
  }

  ghost predicate Sorted(s: seq<string>) {
    forall i, j :: 0 <= i < j < |s| ==> Less(s[i], s[j])
  }

  ghost predicate Lists(s: seq<string>, keys: set<string>) {
    Sorted(s) && forall k :: k in s <==> k in keys
  }

  function Insert(k: string, s: seq<string>): seq<string> {
    if s == [] || Less(k, s[0]) then [k] + s else [s[0]] + Insert(k, s[1..])
  }

  /** sort.Strings */
  function Sort(s: seq<string>): seq<string> {
    if s == [] then [] else Insert(s[0], Sort(s[1..]))
  }

  lemma {:induction false} InsertSorts(k: string, s: seq<string>)
    requires Sorted(s) && k !in s
    ensures Sorted(Insert(k, s))
    ensures forall x :: x in Insert(k, s) <==> x == k || x in s
  {
    if s == [] {
    } else if Less(k, s[0]) {
      forall j | 0 <= j < |s|
        ensures Less(k, s[j])
      {
        if j > 0 {
          LessTransitive(k, s[0], s[j]);
        }
      }
    } else {
      LessTotal(k, s[0]);
      var t := Insert(k, s[1..]);
      InsertSorts(k, s[1..]);
      forall x | x in t
        ensures Less(s[0], x)
      {
        if x != k {
          var j :| 0 <= j < |s[1..]| && s[1..][j] == x;
          assert s[j + 1] == x;
        }
      }
      assert Insert(k, s) == [s[0]] + t;
      assert s == [s[0]] + s[1..];
    }
  }

  /** Distinct strings sort to the list of their set. */
  lemma {:induction false} SortLists(s: seq<string>, keys: set<string>)
    requires forall i, j :: 0 <= i < j < |s| ==> s[i] != s[j]
    requires forall k :: k in s <==> k in keys
    ensures Lists(Sort(s), keys)
  {
    if s != [] {
      var rest := keys - {s[0]};
      assert s == [s[0]] + s[1..];
      SortLists(s[1..], rest);
      InsertSorts(s[0], Sort(s[1..]));
    }
  }

  /** A set has one sorted list. */
  lemma {:induction false} ListUnique(s: seq<string>, t: seq<string>, keys: set<string>)
    requires Lists(s, keys) && Lists(t, keys)
    ensures s == t
  {
    assert s == [] || s[0] in keys;
    assert t == [] || t[0] in keys;
    if s != [] && t != [] {
      assert s[0] in t && t[0] in s;
      FirstIsLeast(s, t[0]);
      FirstIsLeast(t, s[0]);
      if s[0] != t[0] {
        LessTransitive(s[0], t[0], s[0]);
        LessIrreflexive(s[0]);
      }
      TailLists(s, keys);
      TailLists(t, keys);
      ListUnique(s[1..], t[1..], keys - {s[0]});
      assert s == [s[0]] + s[1..] && t == [t[0]] + t[1..];
    }
  }

  lemma FirstIsLeast(s: seq<string>, x: string)
    requires Sorted(s) && x in s
    ensures s[0] == x || Less(s[0], x)
  {
  }

  lemma TailLists(s: seq<string>, keys: set<string>)
    requires Lists(s, keys) && s != []
    ensures Lists(s[1..], keys - {s[0]})
  {
    LessIrreflexive(s[0]);
    assert s == [s[0]] + s[1..];
    assert forall j :: 0 <= j < |s[1..]| ==> s[1..][j] == s[j + 1];
  }

  /** The sorted list of a set. */
  ghost function SortedList(keys: set<string>): (s: seq<string>)
    ensures Lists(s, keys)
  {
    ListExists(keys);
    var s :| Lists(s, keys);
    s
  }

  lemma {:induction false} ListExists(keys: set<string>)
    ensures exists s :: Lists(s, keys)
    decreases |keys|
  {
    if keys == {} {
      assert Lists([], keys);
    } else {
      var k :| k in keys;
      ListExists(keys - {k});
      var s :| Lists(s, keys - {k});
      InsertSorts(k, s);
      assert Lists(Insert(k, s), keys);
    }
  }
}
