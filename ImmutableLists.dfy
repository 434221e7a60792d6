/** The operations of System.Collections.Immutable and LINQ that the scene
    reducer builds its new states from, over Dafny sequences. `Add` is
    `s + [x]` and `Clear` is `[]`; they need no function of their own. */
module ImmutableLists {

  /** LINQ `Select`: applies `f` to every element, keeping length and order. */
  function Select<T, U>(s: seq<T>, f: T -> U): (r: seq<U>)
    ensures |r| == |s|
    ensures forall i :: 0 <= i < |s| ==> r[i] == f(s[i])
  {
    if s == [] then [] else [f(s[0])] + Select(s[1..], f)
  }

  /** LINQ `Where`: the elements that satisfy `keep`, in their original order. */
  function Where<T>(s: seq<T>, keep: T -> bool): (r: seq<T>)
    ensures |r| <= |s|
    ensures forall i :: 0 <= i < |r| ==> r[i] in s && keep(r[i])
    ensures forall i :: 0 <= i < |s| && keep(s[i]) ==> s[i] in r
    ensures (forall i :: 0 <= i < |s| ==> keep(s[i])) ==> r == s
    ensures (forall i :: 0 <= i < |s| ==> !keep(s[i])) ==> r == []
  {
    if s == [] then []
    else (if keep(s[0]) then [s[0]] else []) + Where(s[1..], keep)
  }

  /** LINQ `Single`: the one element satisfying `keep`; the source throws
      unless there is exactly one, which is this function's precondition. */
  function Single<T>(s: seq<T>, keep: T -> bool): (r: T)
    requires |Where(s, keep)| == 1
    ensures r in s && keep(r)
    ensures forall i :: 0 <= i < |s| && keep(s[i]) ==> s[i] == r
  {
    Where(s, keep)[0]
  }

  /** Position of the first occurrence of `x` in `s`. */
  function IndexOf<T(==)>(s: seq<T>, x: T): (k: nat)
    requires x in s
    ensures k < |s| && s[k] == x && x !in s[..k]
  {
    if s[0] == x then 0
    else
      var k := 1 + IndexOf(s[1..], x);
      assert s[..k] == [s[0]] + s[1..][..k - 1];
      k
  }

  /** `ImmutableList.Remove`: deletes the first element equal to `x`, and
      returns the list unchanged when there is none. */
  function Remove<T(==)>(s: seq<T>, x: T): (r: seq<T>)
    ensures x !in s ==> r == s
    ensures x in s ==> r == s[..IndexOf(s, x)] + s[IndexOf(s, x) + 1..]
  {
    if s == [] then []
    else if s[0] == x then
      assert s == [s[0]] + s[1..];
      s[1..]
    else
      var tail := s[1..];
      var r := [s[0]] + Remove(tail, x);
      assert s == [s[0]] + tail;
      assert x in s ==> x in tail && IndexOf(s, x) == 1 + IndexOf(tail, x);
      assert x in tail ==>
        s[..1 + IndexOf(tail, x)] == [s[0]] + tail[..IndexOf(tail, x)] &&
        s[1 + IndexOf(tail, x) + 1..] == tail[IndexOf(tail, x) + 1..];
      r
  }

  /** Mapping the kept elements yields the image of every element that is
      kept: the half of membership that `Select` and `Where` do not state
      by themselves. */
  lemma SelectWhereImage<T, U>(s: seq<T>, keep: T -> bool, f: T -> U)
    ensures forall x :: x in s && keep(x) ==> f(x) in Select(Where(s, keep), f)
  {
    var matching := Where(s, keep);
    forall x | x in s && keep(x) ensures f(x) in Select(matching, f) {
      var j :| 0 <= j < |s| && s[j] == x;
      var i :| 0 <= i < |matching| && matching[i] == x;
      assert Select(matching, f)[i] == f(x);
    }
  }

  /** `Select` distributes over concatenation. */
  lemma {:induction false} SelectAppend<T, U>(a: seq<T>, b: seq<T>, f: T -> U)
    ensures Select(a + b, f) == Select(a, f) + Select(b, f)
  {
    if a == [] {
      assert a + b == b;
    } else {
      assert (a + b)[1..] == a[1..] + b;
      SelectAppend(a[1..], b, f);
    }
  }

  /** `Where` distributes over concatenation: it keeps the relative order
      of the elements it keeps. */
  lemma {:induction false} WhereAppend<T>(a: seq<T>, b: seq<T>, keep: T -> bool)
    ensures Where(a + b, keep) == Where(a, keep) + Where(b, keep)
  {
    if a == [] {
      assert a + b == b;
    } else {
      assert (a + b)[1..] == a[1..] + b;
      WhereAppend(a[1..], b, keep);
    }
  }

  /** Filtering twice by the same predicate is filtering once. */
  lemma {:induction false} WhereIdempotent<T>(s: seq<T>, keep: T -> bool)
    ensures Where(Where(s, keep), keep) == Where(s, keep)
  {
    if s != [] {
      WhereIdempotent(s[1..], keep);
      var rest := Where(s[1..], keep);
      if keep(s[0]) {
        assert ([s[0]] + rest)[1..] == rest;
      } else {
        assert Where(s, keep) == rest;
      }
    }
  }

  /** A key that is distinct along `s` stays distinct along `Where(s, keep)`. */
  lemma {:induction false} WhereKeepsDistinct<T, K>(s: seq<T>, keep: T -> bool, key: T -> K)
    requires forall i, j :: 0 <= i < j < |s| ==> key(s[i]) != key(s[j])
    ensures forall i, j :: 0 <= i < j < |Where(s, keep)| ==> key(Where(s, keep)[i]) != key(Where(s, keep)[j])
  {
    if s != [] {
      var rest := Where(s[1..], keep);
      WhereKeepsDistinct(s[1..], keep, key);
      if keep(s[0]) {
        var r := [s[0]] + rest;
        forall j | 0 < j < |r| ensures key(r[0]) != key(r[j]) {
          assert r[j] in s[1..];
          var m :| 0 <= m < |s[1..]| && s[1..][m] == r[j];
          assert s[m + 1] == r[j];
        }
      }
    }
  }

  /** When at most one element satisfies `keep` and `s[i]` does, `Where`
      finds exactly one element: the case in which `Single` succeeds. */
  lemma {:induction false} WhereSingle<T>(s: seq<T>, keep: T -> bool, i: nat)
    requires forall a, b :: 0 <= a < b < |s| && keep(s[a]) ==> !keep(s[b])
    requires i < |s| && keep(s[i])
    ensures |Where(s, keep)| == 1
  {
    var before, after := s[..i], s[i + 1..];
    assert s == before + [s[i]] + after;
    WhereAppend(before + [s[i]], after, keep);
    WhereAppend(before, [s[i]], keep);
    assert Where([s[i]], keep) == [s[i]] by {
      assert [s[i]][1..] == [];
    }
    assert forall m :: 0 <= m < |before| ==> !keep(before[m]);
    assert forall m :: 0 <= m < |after| ==> !keep(after[m]) by {
      forall m | 0 <= m < |after| ensures !keep(after[m]) {
        assert after[m] == s[i + 1 + m];
      }
    }
  }

  /** `Remove` takes away one occurrence of `x`, if there is one, and
      nothing else. */
  lemma {:induction false} RemoveMultiset<T>(s: seq<T>, x: T)
    ensures multiset(Remove(s, x)) == multiset(s) - multiset{x}
  {
    if s != [] {
      assert s == [s[0]] + s[1..];
      if s[0] != x {
        RemoveMultiset(s[1..], x);
        assert multiset(Remove(s, x)) == multiset{s[0]} + multiset(Remove(s[1..], x));
      }
    }
  }

  /** Removing an element just appended, when it was not there before,
      gives back the original list. */
  lemma {:induction false} RemoveAppended<T>(s: seq<T>, x: T)
    requires x !in s
    ensures Remove(s + [x], x) == s
  {
    if s != [] {
      assert (s + [x])[1..] == s[1..] + [x];
      RemoveAppended(s[1..], x);
    } else {
      assert [x][1..] == [];
    }
  }
}
