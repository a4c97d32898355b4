// Names in the order directory listings and sorted name lists use.
module Sorting {
  // Strict lexicographic order.
  predicate Less(a: string, b: string) {
    b != "" && (a == "" || a[0] < b[0] || (a[0] == b[0] && Less(a[1..], b[1..])))
  }

  // The order of dictionaries: by the first character that differs, the shorter of two first if none does.
  lemma {:induction false} LessExactly(a: string, b: string)
    ensures Less(a, b) <==>
              exists n :: 0 <= n <= |a| && n < |b| && Differ(a, b, n)
  {
    if a != "" && b != "" && a[0] == b[0] {
      var x, y := a[1..], b[1..];
      LessExactly(x, y);
      if n :| 0 <= n <= |x| && n < |y| && Differ(x, y, n) {
        assert a[..n + 1] == [a[0]] + x[..n] && b[..n + 1] == [b[0]] + y[..n];
        assert Differ(a, b, n + 1);
      }
      if n :| 0 <= n <= |a| && n < |b| && Differ(a, b, n) {
        assert n > 0;
        assert x[..n - 1] == a[..n][1..] && y[..n - 1] == b[..n][1..];
        assert Differ(x, y, n - 1);
      }
    } else if b != "" {
      assert a[..0] == b[..0];
      assert Less(a, b) ==> Differ(a, b, 0);
      forall n | 0 < n <= |a| && n < |b| ensures a[..n] != b[..n] {
        assert a[..n][0] == a[0] && b[..n][0] == b[0];
      }
    }
  }

  // The first n characters agree, and then a ends or goes on with the smaller one.
  predicate Differ(a: string, b: string, n: nat)
    requires n <= |a| && n < |b|
  {
    a[..n] == b[..n] && (n == |a| || a[n] < b[n])
  }

  lemma {:induction false} LessTotal(a: string, b: string)
    ensures Less(a, b) || a == b || Less(b, a)
    ensures !(Less(a, b) && Less(b, a)) && !Less(a, a)
  {
    if a != "" && b != "" && a[0] == b[0] {
      LessTotal(a[1..], b[1..]);
      assert a == [a[0]] + a[1..] && b == [b[0]] + b[1..];
    }
    if a != "" {
      LessTotal(a[1..], a[1..]);
    }
  }

  lemma {:induction false} LessTransitive(a: string, b: string, c: string)
    requires Less(a, b) && Less(b, c)
    ensures Less(a, c)
  {
    if a != "" && a[0] == b[0] == c[0] {
      LessTransitive(a[1..], b[1..], c[1..]);
    }
  }

  ghost predicate Ascending(s: seq<string>) {
    forall i, j :: 0 <= i < j < |s| ==> Less(s[i], s[j])
  }

  lemma {:induction false} HasLeast(s: set<string>) returns (m: string)
    requires s != {}
    ensures m in s && forall x :: x in s ==> x == m || Less(m, x)
  {
    var x :| x in s;
    if s == {x} {
      m := x;
    } else {
      m := HasLeast(s - {x});
      LessTotal(x, m);
      if Less(x, m) {
        forall y | y in s && y != x ensures Less(x, y) {
          if y != m { LessTransitive(x, m, y); }
        }
        m := x;
      }
    }
  }

  ghost function Least(s: set<string>): (m: string)
    requires s != {}
    ensures m in s && forall x :: x in s ==> x == m || Less(m, x)
  {
    assert exists m :: m in s && forall x :: x in s ==> x == m || Less(m, x) by {
      var m := HasLeast(s);
    }
    var m :| m in s && forall x :: x in s ==> x == m || Less(m, x);
    m
  }

  // The names of s, sorted, each once.
  ghost function Sorted(s: set<string>): (r: seq<string>)
    ensures |r| == |s| && Ascending(r)
    ensures forall x :: x in r <==> x in s
  {
    if s == {} then []
    else
      var m := Least(s);
      [m] + Sorted(s - {m})
  }

  // Sorted lists of the same names are the same list.
  lemma {:induction false} SortedUnique(a: seq<string>, b: seq<string>)
    requires Ascending(a) && Ascending(b) && forall x :: x in a <==> x in b
    ensures a == b
  {
    assert a != [] ==> a[0] in a;
    assert b != [] ==> b[0] in b;
    if a != [] && b != [] {
      FirstIsLeast(a, b);
      RestOf(a);
      RestOf(b);
      SortedUnique(a[1..], b[1..]);
      assert a == [a[0]] + a[1..] && b == [b[0]] + b[1..];
    }
  }

  lemma RestOf(a: seq<string>)
    requires Ascending(a) && a != []
    ensures Ascending(a[1..]) && forall x :: x in a[1..] <==> x in a && x != a[0]
  {
    LessTotal(a[0], a[0]);
    forall i | 0 < i < |a| ensures a[i] != a[0] {}
    assert a == [a[0]] + a[1..];
  }

  lemma FirstIsLeast(a: seq<string>, b: seq<string>)
    requires Ascending(a) && Ascending(b) && a != [] && b != [] && a[0] in b && b[0] in a
    ensures a[0] == b[0]
  {
    LessTotal(a[0], b[0]);
    assert forall i :: 0 <= i < |b| ==> i == 0 || Less(b[0], b[i]);
    assert forall j :: 0 <= j < |a| ==> j == 0 || Less(a[0], a[j]);
  }

  // x put in its place.
  function Insert(s: seq<string>, x: string): seq<string> {
    if s == [] || Less(x, s[0]) then [x] + s else [s[0]] + Insert(s[1..], x)
  }

  lemma {:induction false} InsertSorted(s: seq<string>, x: string)
    requires Ascending(s) && x !in s
    ensures Ascending(Insert(s, x)) && forall y :: y in Insert(s, x) <==> y in s || y == x
  {
    if s != [] {
      LessTotal(x, s[0]);
      if Less(x, s[0]) {
        forall i | 0 < i < |s| ensures Less(x, s[i]) { LessTransitive(x, s[0], s[i]); }
      } else {
        assert s == [s[0]] + s[1..];
        InsertSorted(s[1..], x);
        forall y | y in Insert(s[1..], x) ensures Less(s[0], y) {}
      }
    }
  }

  method SortNames(names: set<string>) returns (r: seq<string>)
    ensures r == Sorted(names)
  {
    r := [];
    var rest := names;
    while rest != {}
      invariant rest <= names && Ascending(r) && forall x :: x in r <==> x in names - rest
      decreases |rest|
    {
      var x :| x in rest;
      InsertSorted(r, x);
      r := Insert(r, x);
      rest := rest - {x};
    }
    SortedUnique(r, Sorted(names));
  }
}
