/**
 * The Laravel-style substring helpers of the seeder library (`afterLast`,
 * `before`) and PHP's `rtrim` with a one-character list, over strings as
 * sequences of characters.
 */
module StringHelpers {
  import opened Options

  /** `t` occurs in `s` starting at index `i`. */
  predicate OccursAt(s: string, t: string, i: int)
  {
    0 <= i && i + |t| <= |s| && s[i..i + |t|] == t
  }

  /** `t` occurs somewhere in `s`. */
  predicate Contains(s: string, t: string)
  {
    exists i :: 0 <= i <= |s| && OccursAt(s, t, i)
  }

  /** `r` is a suffix of `s`. */
  predicate IsSuffix(r: string, s: string)
  {
    |r| <= |s| && s[|s| - |r|..] == r
  }

  lemma OccursInPrefix(s: string, t: string, n: nat, i: int)
    requires n <= |s|
    ensures OccursAt(s[..n], t, i) <==> OccursAt(s, t, i) && i + |t| <= n
  {
    if 0 <= i && i + |t| <= n {
      assert s[..n][i..i + |t|] == s[i..i + |t|];
    }
  }

  lemma OccursInTail(s: string, t: string, i: int)
    requires |s| > 0 && i >= 0
    ensures OccursAt(s[1..], t, i) <==> OccursAt(s, t, i + 1)
  {
    if 0 <= i && i + 1 + |t| <= |s| {
      assert s[1..][i..i + |t|] == s[i + 1..i + 1 + |t|];
    }
  }

  /** A string placed between two others occurs right after the first. */
  lemma OccursBetween(a: string, t: string, b: string)
    ensures OccursAt(a + t + b, t, |a|)
  {
    assert (a + t + b)[|a|..|a| + |t|] == t;
  }

  /** PHP's `strrpos`: the start of the last occurrence of `t` in `s`. */
  function LastIndexOf(s: string, t: string): (r: Option<nat>)
    ensures r.Some? ==> OccursAt(s, t, r.value)
    ensures r.Some? ==> forall j :: r.value < j ==> !OccursAt(s, t, j)
    ensures r.None? ==> forall j :: !OccursAt(s, t, j)
    decreases |s|
  {
    if |s| < |t| then None
    else if s[|s| - |t|..] == t then Some(|s| - |t|)
    else
      var r := LastIndexOf(s[..|s| - 1], t);
      assert forall j :: OccursAt(s[..|s| - 1], t, j) <==> OccursAt(s, t, j) && j + |t| <= |s| - 1 by {
        forall j ensures OccursAt(s[..|s| - 1], t, j) <==> OccursAt(s, t, j) && j + |t| <= |s| - 1 {
          OccursInPrefix(s, t, |s| - 1, j);
        }
      }
      r
  }

  /** PHP's `strpos` (and the split point of `strstr`): the start of the first occurrence of `t` in `s`. */
  function FirstIndexOf(s: string, t: string): (r: Option<nat>)
    ensures r.Some? ==> OccursAt(s, t, r.value)
    ensures r.Some? ==> forall j :: 0 <= j < r.value ==> !OccursAt(s, t, j)
    ensures r.None? ==> forall j :: !OccursAt(s, t, j)
    decreases |s|
  {
    if |s| < |t| then None
    else if s[..|t|] == t then Some(0)
    else
      var r := FirstIndexOf(s[1..], t);
      assert forall j :: j >= 0 ==> (OccursAt(s[1..], t, j) <==> OccursAt(s, t, j + 1)) by {
        forall j | j >= 0 ensures OccursAt(s[1..], t, j) <==> OccursAt(s, t, j + 1) {
          OccursInTail(s, t, j);
        }
      }
      assert forall j :: OccursAt(s, t, j) && j >= 1 ==> OccursAt(s[1..], t, j - 1);
      match r
      case None => None
      case Some(p) => Some(p + 1)
  }

  /**
   * `afterLast`: what follows the last occurrence of `search` in `subject`;
   * `subject` itself when `search` is empty or does not occur.
   */
  function AfterLast(subject: string, search: string): (r: string)
    ensures search == [] || !Contains(subject, search) ==> r == subject
    ensures IsSuffix(r, subject)
    ensures search != [] ==> !Contains(r, search)
  {
    if search == [] then subject
    else
      match LastIndexOf(subject, search)
      case None => subject
      case Some(p) =>
        var r := subject[p + |search|..];
        assert forall j :: OccursAt(r, search, j) ==> OccursAt(subject, search, p + |search| + j) by {
          forall j | OccursAt(r, search, j) ensures OccursAt(subject, search, p + |search| + j) {
            assert r[j..j + |search|] == subject[p + |search| + j..p + |search| + j + |search|];
          }
        }
        r
  }

  /** When `search` occurs, `afterLast` cuts right behind its last occurrence. */
  lemma AfterLastCutsAtLastOccurrence(subject: string, search: string)
    requires search != [] && Contains(subject, search)
    ensures var p := |subject| - |AfterLast(subject, search)| - |search|;
      OccursAt(subject, search, p) && forall j :: p < j ==> !OccursAt(subject, search, j)
  {
    var i :| 0 <= i <= |subject| && OccursAt(subject, search, i);
    var last := LastIndexOf(subject, search);
    assert last.Some? by {
      assert OccursAt(subject, search, i);
    }
    assert AfterLast(subject, search) == subject[last.value + |search|..];
  }

  /**
   * `before`: what precedes the first occurrence of `search` in `subject`;
   * `subject` itself when `search` is empty or does not occur.
   */
  function Before(subject: string, search: string): (r: string)
    ensures search == [] || !Contains(subject, search) ==> r == subject
    ensures r <= subject
    ensures search != [] && Contains(subject, search) ==> r + search <= subject
    ensures search != [] ==> !Contains(r, search)
  {
    if search == [] then subject
    else
      match FirstIndexOf(subject, search)
      case None => subject
      case Some(p) =>
        var r := subject[..p];
        assert r + search == subject[..p + |search|];
        assert forall j :: OccursAt(r, search, j) ==> OccursAt(subject, search, j) by {
          forall j | OccursAt(r, search, j) ensures OccursAt(subject, search, j) {
            OccursInPrefix(subject, search, p, j);
          }
        }
        r
  }

  /** No occurrence of `search` starts inside what `before` returns. */
  lemma BeforeStopsAtFirstOccurrence(subject: string, search: string)
    requires search != []
    ensures forall j :: 0 <= j < |Before(subject, search)| ==> !OccursAt(subject, search, j)
  {
    match FirstIndexOf(subject, search)
    case None =>
    case Some(p) =>
      assert |Before(subject, search)| == p;
  }

  /** Trimming stops at the first character from the end that is not `c`. */
  lemma RTrimStops(s: string, c: char)
    requires s == [] || s[|s| - 1] != c
    ensures RTrim(s, c) == s
  {
  }

  /** A trailing `c` is trimmed with the rest. */
  lemma RTrimDropsLast(s: string, c: char)
    ensures RTrim(s + [c], c) == RTrim(s, c)
  {
    assert (s + [c])[..|s|] == s;
  }

  /** PHP's `rtrim(s, c)` for a one-character list: every trailing `c` removed. */
  function RTrim(s: string, c: char): (r: string)
    ensures r <= s
    ensures r == [] || r[|r| - 1] != c
    ensures forall i :: |r| <= i < |s| ==> s[i] == c
  {
    if |s| > 0 && s[|s| - 1] == c then RTrim(s[..|s| - 1], c) else s
  }
}
