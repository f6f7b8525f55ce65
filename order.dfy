/** Python's `sorted` on a set of strings: code-point lexicographic order. */
module Order {

  /** `a < b` on Python strings. */
  predicate Less(a: string, b: string)
    decreases |a|
  {
    if a == [] then b != []
    else if b == [] then false
    else a[0] < b[0] || (a[0] == b[0] && Less(a[1..], b[1..]))
  }

  lemma {:induction false} LessIrreflexive(a: string)
    ensures !Less(a, a)
    decreases |a|
  {
    if a != [] {
      LessIrreflexive(a[1..]);
    }
  }

  lemma {:induction false} LessTransitive(a: string, b: string, c: string)
    requires Less(a, b) && Less(b, c)
    ensures Less(a, c)
    decreases |a|
  {
    if a != [] && a[0] == b[0] && b[0] == c[0] {
      LessTransitive(a[1..], b[1..], c[1..]);
    }
  }

  lemma {:induction false} LessTotal(a: string, b: string)
    ensures a == b || Less(a, b) || Less(b, a)
    decreases |a|
  {
    if a != [] && b != [] && a[0] == b[0] {
      LessTotal(a[1..], b[1..]);
      if a[1..] == b[1..] {
        assert a == [a[0]] + a[1..] && b == [b[0]] + b[1..];
      }
    }
  }

  predicate StrictlySorted(r: seq<string>) {
    forall i, j :: 0 <= i < j < |r| ==> Less(r[i], r[j])
  }

  /** Inserts `x` at its place in a strictly sorted list (no effect when already present). */
  function Insert(r: seq<string>, x: string): (r': seq<string>)
    requires StrictlySorted(r)
    ensures StrictlySorted(r')
    ensures forall y :: y in r' <==> y in r || y == x
  {
    if r == [] then [x]
    else if x == r[0] then r
    else if Less(x, r[0]) then
      forall j | 0 < j < |r| ensures Less(x, r[j]) {
        LessTransitive(x, r[0], r[j]);
      }
      [x] + r
    else
      LessTotal(x, r[0]);
      var t := Insert(r[1..], x);
      assert forall y :: y in t ==> Less(r[0], y) by {
        forall y | y in t ensures Less(r[0], y) {
          if y != x {
            var j :| 0 <= j < |r[1..]| && r[1..][j] == y;
            assert r[j + 1] == y;
          }
        }
      }
      assert r == [r[0]] + r[1..];
      [r[0]] + t
  }

  /** `sorted(list(s))` for a set of strings. */
  method SortedList(s: set<string>) returns (r: seq<string>)
    ensures StrictlySorted(r)
    ensures forall y :: y in r <==> y in s
  {
    r := [];
    var rest := s;
    while rest != {}
      invariant StrictlySorted(r)
      invariant rest <= s
      invariant forall y :: y in r <==> y in s - rest
      decreases rest
    {
      var x :| x in rest;
      r := Insert(r, x);
      rest := rest - {x};
    }
  }

  lemma HeadIn(t: seq<string>)
    ensures t != [] ==> t[0] in t
  {
  }

  /** A strictly sorted list is determined by its elements, so `sorted` has one answer. */
  lemma {:induction false} SortedUnique(r: seq<string>, t: seq<string>)
    requires StrictlySorted(r) && StrictlySorted(t)
    requires forall y :: y in r <==> y in t
    ensures r == t
    decreases |r|
  {
    if r != [] && t != [] {
      if r[0] != t[0] {
        assert r[0] in t;
        assert t[0] in r;
        var i :| 0 <= i < |t| && t[i] == r[0];
        var j :| 0 <= j < |r| && r[j] == t[0];
        assert i > 0 && j > 0;
        assert Less(t[0], r[0]) && Less(r[0], t[0]);
        LessTransitive(r[0], t[0], r[0]);
        LessIrreflexive(r[0]);
      }
      assert r == [r[0]] + r[1..] && t == [t[0]] + t[1..];
      forall y ensures y in r[1..] <==> y in t[1..] {
        if y in r[1..] {
          var j :| 0 < j < |r| && r[j] == y;
          LessIrreflexive(y);
          assert Less(r[0], y);
          assert y != r[0];
          assert y in t;
        }
        if y in t[1..] {
          var j :| 0 < j < |t| && t[j] == y;
          LessIrreflexive(y);
          assert Less(t[0], y);
          assert y != t[0];
          assert y in r;
        }
      }
      SortedUnique(r[1..], t[1..]);
      assert r == [r[0]] + r[1..] && t == [t[0]] + t[1..];
    } else if r != [] {
      HeadIn(r);
      assert false;
    } else if t != [] {
      HeadIn(t);
      assert false;
    }
  }
}
