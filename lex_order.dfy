/**
 * The byte-wise string order PHP's `rsort` applies to file paths, and the
 * descending sort `latest` performs on the directory listing.
 */
module LexOrder {

  /** `a` sorts before or equal to `b`, comparing character codes left to right; a prefix sorts first. */
  predicate LexLe(a: string, b: string)
    decreases |a|
  {
    a == [] || (b != [] && (a[0] < b[0] || (a[0] == b[0] && LexLe(a[1..], b[1..]))))
  }

  lemma {:induction false} LexLeReflexive(a: string)
    ensures LexLe(a, a)
    decreases |a|
  {
    if a != [] { LexLeReflexive(a[1..]); }
  }

  lemma {:induction false} LexLeAntisymmetric(a: string, b: string)
    requires LexLe(a, b) && LexLe(b, a)
    ensures a == b
    decreases |a|
  {
    if a != [] && b != [] {
      LexLeAntisymmetric(a[1..], b[1..]);
      assert a == [a[0]] + a[1..] && b == [b[0]] + b[1..];
    }
  }

  lemma {:induction false} LexLeTransitive(a: string, b: string, c: string)
    requires LexLe(a, b) && LexLe(b, c)
    ensures LexLe(a, c)
    decreases |a|
  {
    if a != [] && b != [] && c != [] && a[0] == b[0] == c[0] {
      LexLeTransitive(a[1..], b[1..], c[1..]);
    }
  }

  lemma {:induction false} LexLeTotal(a: string, b: string)
    ensures LexLe(a, b) || LexLe(b, a)
    decreases |a|
  {
    if a != [] && b != [] && a[0] == b[0] {
      LexLeTotal(a[1..], b[1..]);
    }
  }

  /** Greatest first: every element is at least every element after it. */
  ghost predicate SortedDesc(s: seq<string>)
  {
    forall i, j :: 0 <= i < j < |s| ==> LexLe(s[j], s[i])
  }

  /** Every element of `s` is at most `h`. */
  ghost predicate AllLe(s: seq<string>, h: string)
  {
    forall j :: 0 <= j < |s| ==> LexLe(s[j], h)
  }

  lemma ConsSorted(h: string, t: seq<string>)
    requires SortedDesc(t) && AllLe(t, h)
    ensures SortedDesc([h] + t)
  {
    var r := [h] + t;
    forall i, j | 0 <= i < j < |r| ensures LexLe(r[j], r[i]) {
      assert r[j] == t[j - 1];
      if i > 0 { assert r[i] == t[i - 1]; }
    }
  }

  lemma SortedBelow(s: seq<string>, x: string)
    requires SortedDesc(s) && s != [] && LexLe(s[0], x)
    ensures AllLe(s, x)
  {
    forall j | 0 <= j < |s| ensures LexLe(s[j], x) {
      if j > 0 { LexLeTransitive(s[j], s[0], x); }
    }
  }

  lemma MultisetBelow(t: seq<string>, u: seq<string>, x: string, h: string)
    requires multiset(t) == multiset(u) + multiset{x}
    requires AllLe(u, h) && LexLe(x, h)
    ensures AllLe(t, h)
  {
    forall j | 0 <= j < |t| ensures LexLe(t[j], h) {
      assert t[j] in multiset(t);
      if t[j] != x {
        assert t[j] in multiset(u);
        var k :| 0 <= k < |u| && u[k] == t[j];
      }
    }
  }

  /** Insert `x` into a descending sequence. */
  function Insert(x: string, s: seq<string>): (r: seq<string>)
    requires SortedDesc(s)
    ensures SortedDesc(r)
    ensures multiset(r) == multiset(s) + multiset{x}
  {
    if s == [] then [x]
    else if LexLe(s[0], x) then
      SortedBelow(s, x);
      ConsSorted(x, s);
      [x] + s
    else
      LexLeTotal(s[0], x);
      var t := Insert(x, s[1..]);
      assert s == [s[0]] + s[1..];
      assert AllLe(s[1..], s[0]);
      MultisetBelow(t, s[1..], x, s[0]);
      ConsSorted(s[0], t);
      [s[0]] + t
  }

  /** PHP's `rsort` under string comparison: the same names, greatest first. */
  function RSort(s: seq<string>): (r: seq<string>)
    ensures SortedDesc(r)
    ensures multiset(r) == multiset(s)
  {
    if s == [] then []
    else
      assert s == [s[0]] + s[1..];
      Insert(s[0], RSort(s[1..]))
  }

  /** Reference definition of the greatest name, by a linear scan. */
  function MaxLex(s: seq<string>): (m: string)
    requires s != []
    ensures m in s
    ensures forall f :: f in s ==> LexLe(f, m)
  {
    if |s| == 1 then
      LexLeReflexive(s[0]);
      s[0]
    else
      var m := MaxLex(s[1..]);
      assert s == [s[0]] + s[1..];
      if LexLe(s[0], m) then m
      else
        LexLeTotal(s[0], m);
        LexLeReflexive(s[0]);
        assert forall f :: f in s[1..] ==> LexLe(f, s[0]) by {
          forall f | f in s[1..] ensures LexLe(f, s[0]) { LexLeTransitive(f, m, s[0]); }
        }
        s[0]
  }

  /** The first name `rsort` leaves in place is the greatest name of the listing. */
  lemma RSortHeadIsMax(s: seq<string>)
    requires s != []
    ensures RSort(s) != [] && RSort(s)[0] == MaxLex(s)
  {
    var r := RSort(s);
    assert |r| == |multiset(r)| == |multiset(s)| == |s|;
    var m := MaxLex(s);
    assert r[0] in multiset(s);
    assert LexLe(r[0], m);
    assert m in multiset(r);
    var k :| 0 <= k < |r| && r[k] == m;
    if k > 0 { assert LexLe(r[k], r[0]); }
    else { LexLeReflexive(m); }
    LexLeAntisymmetric(r[0], m);
  }
}
