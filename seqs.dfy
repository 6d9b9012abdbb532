/** The JavaScript array operations the resolvers are written with
    (`filter`, `find`, `findIndex`, `some`, `splice(i, 1)`), as functions
    on sequences, together with the facts about them the store relies on. */
module Seqs {

  datatype Option<T> = None | Some(value: T)

  /** `Array.prototype.some`: some element satisfies `p`. */
  predicate Any<T>(s: seq<T>, p: T -> bool)
  {
    exists i :: 0 <= i < |s| && p(s[i])
  }

  /** `some` holds exactly when some member of the sequence satisfies `p`. */
  lemma AnyMember<T>(s: seq<T>, p: T -> bool)
    ensures Any(s, p) <==> exists x :: x in s && p(x)
  {
  }

  /** `r` is `s` with some elements deleted and the rest kept in order. */
  predicate IsSubsequence<T(==)>(r: seq<T>, s: seq<T>)
    decreases |s|
  {
    || r == []
    || (s != [] && ((r[0] == s[0] && IsSubsequence(r[1..], s[1..])) || IsSubsequence(r, s[1..])))
  }

  /** No two positions of `s` carry the same key. */
  predicate Distinct<T, K(==)>(s: seq<T>, key: T -> K)
  {
    forall i, j :: 0 <= i < j < |s| ==> key(s[i]) != key(s[j])
  }

  /** `Array.prototype.filter`: the elements satisfying `p`, in order. */
  function Filter<T>(s: seq<T>, p: T -> bool): (r: seq<T>)
    ensures |r| <= |s|
    ensures forall i :: 0 <= i < |r| ==> r[i] in s && p(r[i])
    ensures forall i :: 0 <= i < |s| && p(s[i]) ==> s[i] in r
    ensures IsSubsequence(r, s)
  {
    if s == [] then []
    else if p(s[0]) then [s[0]] + Filter(s[1..], p)
    else Filter(s[1..], p)
  }

  /** `Array.prototype.findIndex`: the first position satisfying `p`,
      `None` where JavaScript answers -1. */
  function FindIndex<T>(s: seq<T>, p: T -> bool): (r: Option<nat>)
    ensures r.None? <==> !Any(s, p)
    ensures r.Some? ==> r.value < |s| && p(s[r.value])
    ensures r.Some? ==> forall j :: 0 <= j < r.value ==> !p(s[j])
  {
    if s == [] then None
    else if p(s[0]) then Some(0)
    else match FindIndex(s[1..], p)
      case None => None
      case Some(k) => Some(k + 1)
  }

  /** `Array.prototype.find`: the first element satisfying `p`,
      `None` where JavaScript answers `undefined`. */
  function Find<T>(s: seq<T>, p: T -> bool): (r: Option<T>)
    ensures r.None? <==> !Any(s, p)
    ensures r.Some? ==> r.value in s && p(r.value)
    ensures r.Some? ==> exists i :: 0 <= i < |s| && s[i] == r.value && forall j :: 0 <= j < i ==> !p(s[j])
  {
    match FindIndex(s, p)
    case None => None
    case Some(i) => Some(s[i])
  }

  /** `s.splice(i, 1)`: `s` without position `i`. */
  function RemoveAt<T>(s: seq<T>, i: nat): (r: seq<T>)
    requires i < |s|
    ensures |r| == |s| - 1
    ensures forall j :: 0 <= j < i ==> r[j] == s[j]
    ensures forall j :: i <= j < |r| ==> r[j] == s[j + 1]
  {
    s[..i] + s[i + 1..]
  }

  lemma {:induction false} FilterAppend<T>(a: seq<T>, b: seq<T>, p: T -> bool)
    ensures Filter(a + b, p) == Filter(a, p) + Filter(b, p)
  {
    if a != [] {
      assert (a + b)[0] == a[0] && (a + b)[1..] == a[1..] + b;
      FilterAppend(a[1..], b, p);
      if p(a[0]) {
        assert Filter(a + b, p) == [a[0]] + (Filter(a[1..], p) + Filter(b, p));
      }
    } else {
      assert a + b == b;
    }
  }

  /** A filter that rejects nothing returns its input unchanged. */
  lemma {:induction false} FilterAll<T>(s: seq<T>, p: T -> bool)
    requires forall i :: 0 <= i < |s| ==> p(s[i])
    ensures Filter(s, p) == s
  {
    if s != [] {
      FilterAll(s[1..], p);
    }
  }

  /** Filtering twice is filtering once by the conjunction. */
  lemma {:induction false} FilterFilter<T>(s: seq<T>, p: T -> bool, q: T -> bool, both: T -> bool)
    requires forall x :: x in s ==> both(x) == (p(x) && q(x))
    ensures Filter(Filter(s, p), q) == Filter(s, both)
  {
    if s != [] {
      FilterFilter(s[1..], p, q, both);
    }
  }

  /** Filter keeps every copy of an accepted element and none of a rejected one. */
  lemma {:induction false} FilterCount<T>(s: seq<T>, p: T -> bool, x: T)
    ensures multiset(Filter(s, p))[x] == if p(x) then multiset(s)[x] else 0
  {
    if s != [] {
      var t := s[1..];
      FilterCount(t, p, x);
      assert s == [s[0]] + t;
      assert multiset(s) == multiset([s[0]]) + multiset(t);
      if p(s[0]) {
        assert Filter(s, p) == [s[0]] + Filter(t, p);
        assert multiset(Filter(s, p)) == multiset([s[0]]) + multiset(Filter(t, p));
      } else {
        assert Filter(s, p) == Filter(t, p);
      }
    }
  }

  /** `FilterCount` for every value at once. */
  lemma FilterCounts<T>(s: seq<T>, p: T -> bool)
    ensures forall x :: multiset(Filter(s, p))[x] == if p(x) then multiset(s)[x] else 0
  {
    forall x
      ensures multiset(Filter(s, p))[x] == if p(x) then multiset(s)[x] else 0
    {
      FilterCount(s, p, x);
    }
  }

  lemma {:induction false} SubsequenceReflexive<T>(s: seq<T>)
    ensures IsSubsequence(s, s)
  {
    if s != [] {
      SubsequenceReflexive(s[1..]);
    }
  }

  lemma {:induction false} SubsequenceMembers<T>(r: seq<T>, s: seq<T>)
    requires IsSubsequence(r, s)
    ensures forall x :: x in r ==> x in s
  {
    if r != [] {
      if r[0] == s[0] && IsSubsequence(r[1..], s[1..]) {
        SubsequenceMembers(r[1..], s[1..]);
        assert r == [r[0]] + r[1..];
        assert s == [s[0]] + s[1..];
      } else {
        SubsequenceMembers(r, s[1..]);
        assert s == [s[0]] + s[1..];
      }
    }
  }

  /** Removing one position keeps the remaining elements in order. */
  lemma {:induction false} RemoveAtIsSubsequence<T>(s: seq<T>, i: nat)
    requires i < |s|
    ensures IsSubsequence(RemoveAt(s, i), s)
  {
    if i == 0 {
      assert RemoveAt(s, i) == s[1..];
      SubsequenceReflexive(s[1..]);
    } else {
      RemoveAtIsSubsequence(s[1..], i - 1);
      assert RemoveAt(s, i)[1..] == RemoveAt(s[1..], i - 1);
    }
  }

  /** A rejected first element contributes nothing to the filter. */
  lemma FilterSkip<T>(x: T, b: seq<T>, p: T -> bool)
    requires !p(x)
    ensures Filter([x] + b, p) == Filter(b, p)
  {
    assert ([x] + b)[1..] == b;
  }

  /** Filtering `a + [x] + b`, where `p` rejects only `x`, drops just `x`. */
  lemma FilterAround<T>(a: seq<T>, x: T, b: seq<T>, p: T -> bool)
    requires forall j :: 0 <= j < |a| ==> p(a[j])
    requires forall j :: 0 <= j < |b| ==> p(b[j])
    requires !p(x)
    ensures Filter(a + ([x] + b), p) == a + b
  {
    FilterAll(a, p);
    FilterAll(b, p);
    FilterSkip(x, b, p);
    FilterAppend(a, [x] + b, p);
  }

  /** When the element at `i` is the only one `p` rejects, splicing it out
      is the same as filtering by `p`. */
  lemma RemoveAtAsFilter<T>(s: seq<T>, i: nat, p: T -> bool)
    requires i < |s| && !p(s[i])
    requires forall j :: 0 <= j < |s| && j != i ==> p(s[j])
    ensures RemoveAt(s, i) == Filter(s, p)
  {
    var a, b := s[..i], s[i + 1..];
    SplitAt(s, i);
    assert forall j :: 0 <= j < |a| ==> p(a[j]) by {
      assert forall j :: 0 <= j < |a| ==> a[j] == s[j];
    }
    assert forall j :: 0 <= j < |b| ==> p(b[j]) by {
      assert forall j :: 0 <= j < |b| ==> b[j] == s[i + 1 + j];
    }
    FilterAround(a, s[i], b, p);
  }

  /** A sequence is its prefix before `i`, the element at `i`, and the rest. */
  lemma SplitAt<T>(s: seq<T>, i: nat)
    requires i < |s|
    ensures s == s[..i] + ([s[i]] + s[i + 1..])
    ensures RemoveAt(s, i) == s[..i] + s[i + 1..]
  {
    assert s[i..] == [s[i]] + s[i + 1..];
    assert s == s[..i] + s[i..];
  }

  /** A subsequence of a sequence with distinct keys has distinct keys. */
  lemma {:induction false} DistinctSubsequence<T, K>(r: seq<T>, s: seq<T>, key: T -> K)
    requires IsSubsequence(r, s) && Distinct(s, key)
    ensures Distinct(r, key)
  {
    if r != [] {
      if r[0] == s[0] && IsSubsequence(r[1..], s[1..]) {
        DistinctSubsequence(r[1..], s[1..], key);
        SubsequenceMembers(r[1..], s[1..]);
        forall j | 0 < j < |r|
          ensures key(r[0]) != key(r[j])
        {
          assert r[j] in r[1..];
          var k :| 0 <= k < |s[1..]| && s[1..][k] == r[j];
          assert s[k + 1] == r[j];
        }
        forall i, j | 0 <= i < j < |r|
          ensures key(r[i]) != key(r[j])
        {
          if i > 0 {
            assert r[i] == r[1..][i - 1] && r[j] == r[1..][j - 1];
          }
        }
      } else {
        DistinctSubsequence(r, s[1..], key);
      }
    }
  }
  lemma FilterExtensional<T>(s: seq<T>, p: T -> bool, q: T -> bool)
    requires forall x :: x in s ==> p(x) == q(x)
    ensures Filter(s, p) == Filter(s, q)
  {
    FilterFilter(s, p, x => true, q);
    FilterAll(Filter(s, p), x => true);
  }

  lemma AnySnoc<T>(s: seq<T>, x: T, p: T -> bool)
    ensures Any(s + [x], p) <==> Any(s, p) || p(x)
  {
    if Any(s, p) {
      var i :| 0 <= i < |s| && p(s[i]);
      assert (s + [x])[i] == s[i];
    }
    if p(x) {
      assert (s + [x])[|s|] == x;
    }
    if Any(s + [x], p) && !p(x) {
      var i :| 0 <= i < |s| + 1 && p((s + [x])[i]);
      assert i < |s| && (s + [x])[i] == s[i];
    }
  }

  lemma AnyUpdate<T>(s: seq<T>, i: nat, x: T, p: T -> bool)
    requires i < |s| && p(x) == p(s[i])
    ensures Any(s[i := x], p) <==> Any(s, p)
  {
    if Any(s, p) {
      var j :| 0 <= j < |s| && p(s[j]);
      if j != i {
        assert s[i := x][j] == s[j];
      } else {
        assert s[i := x][i] == x;
      }
    }
    if Any(s[i := x], p) {
      var j :| 0 <= j < |s| && p(s[i := x][j]);
      if j != i {
        assert s[i := x][j] == s[j];
      } else {
        assert s[i := x][i] == x;
      }
    }
  }

  lemma AnyRemoveAt<T>(s: seq<T>, i: nat, p: T -> bool)
    requires i < |s| && Any(s, p) && !p(s[i])
    ensures Any(RemoveAt(s, i), p)
  {
    var j :| 0 <= j < |s| && p(s[j]);
    if j < i {
      assert RemoveAt(s, i)[j] == s[j];
    } else {
      assert RemoveAt(s, i)[j - 1] == s[j];
    }
  }

  lemma AnyFilter<T>(s: seq<T>, j: nat, p: T -> bool, q: T -> bool)
    requires j < |s| && p(s[j]) && q(s[j])
    ensures Any(Filter(s, q), p)
  {
    var r := Filter(s, q);
    assert s[j] in r;
    var k :| 0 <= k < |r| && r[k] == s[j];
  }

  lemma AnyAppend<T>(s: seq<T>, x: T, p: T -> bool)
    requires Any(s, p)
    ensures Any(s + [x], p)
  {
    AnySnoc(s, x, p);
  }

  lemma DistinctAppend<T, K>(s: seq<T>, x: T, key: T -> K)
    requires Distinct(s, key)
    requires forall j :: 0 <= j < |s| ==> key(s[j]) != key(x)
    ensures Distinct(s + [x], key)
  {
    forall i, j | 0 <= i < j < |s| + 1
      ensures key((s + [x])[i]) != key((s + [x])[j])
    {
      assert (s + [x])[i] == s[i];
      if j < |s| {
        assert (s + [x])[j] == s[j];
      }
    }
  }

  lemma DistinctUpdate<T, K>(s: seq<T>, i: nat, x: T, key: T -> K)
    requires Distinct(s, key) && i < |s|
    requires forall j :: 0 <= j < |s| && j != i ==> key(s[j]) != key(x)
    ensures Distinct(s[i := x], key)
  {
  }
}
