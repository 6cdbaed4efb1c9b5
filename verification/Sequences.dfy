/** Sequence vocabulary shared by the models: filtering, removal and order-preserving subsequences. */
module Sequences {

  function RemoveAt<T>(s: seq<T>, i: nat): seq<T>
    requires i < |s|
  {
    s[..i] + s[i + 1..]
  }

  /** The elements of `s` that satisfy `keep`, in order. */
  function Filter<T>(s: seq<T>, keep: T -> bool): seq<T> {
    if s == [] then []
    else
      var last := s[|s| - 1];
      Filter(s[..|s| - 1], keep) + (if keep(last) then [last] else [])
  }

  lemma {:induction false} FilterAppend<T>(a: seq<T>, b: seq<T>, keep: T -> bool)
    ensures Filter(a + b, keep) == Filter(a, keep) + Filter(b, keep)
    decreases |b|
  {
    if b == [] {
      assert a + b == a;
    } else {
      var front := b[..|b| - 1];
      assert (a + b)[..|a + b| - 1] == a + front;
      FilterAppend(a, front, keep);
    }
  }

  lemma {:induction false} FilterMember<T>(s: seq<T>, keep: T -> bool, x: T)
    ensures x in Filter(s, keep) <==> x in s && keep(x)
  {
    if s != [] {
      assert s == s[..|s| - 1] + [s[|s| - 1]];
      FilterMember(s[..|s| - 1], keep, x);
    }
  }

  lemma {:induction false} FilterNone<T>(s: seq<T>, keep: T -> bool)
    requires forall x :: x in s ==> !keep(x)
    ensures Filter(s, keep) == []
  {
    if s != [] {
      assert s[|s| - 1] in s;
      FilterNone(s[..|s| - 1], keep);
    }
  }

  /** Removing the first element that satisfies `keep` drops the head of the filtered sequence. */
  lemma {:induction false} FilterRemove<T>(s: seq<T>, i: nat, keep: T -> bool)
    requires i < |s|
    requires keep(s[i]) ==> forall j :: 0 <= j < i ==> !keep(s[j])
    ensures keep(s[i]) ==> Filter(s, keep) == [s[i]] + Filter(RemoveAt(s, i), keep)
    ensures !keep(s[i]) ==> Filter(s, keep) == Filter(RemoveAt(s, i), keep)
  {
    assert s == s[..i] + [s[i]] + s[i + 1..];
    FilterAppend(s[..i] + [s[i]], s[i + 1..], keep);
    FilterAppend(s[..i], [s[i]], keep);
    FilterAppend(s[..i], s[i + 1..], keep);
    assert Filter([s[i]], keep) == if keep(s[i]) then [s[i]] else [];
    if keep(s[i]) {
      FilterNone(s[..i], keep);
    }
  }

  /** `a` is obtained from `b` by deleting elements, keeping the order of the rest. */
  ghost predicate IsSubseq<T>(a: seq<T>, b: seq<T>)
    decreases |b|
  {
    || a == []
    || (b != [] && a[|a| - 1] == b[|b| - 1] && IsSubseq(a[..|a| - 1], b[..|b| - 1]))
    || (b != [] && IsSubseq(a, b[..|b| - 1]))
  }

  lemma SubseqSnoc<T>(a: seq<T>, b: seq<T>, x: T)
    requires IsSubseq(a, b)
    ensures IsSubseq(a + [x], b + [x])
    ensures IsSubseq(a, b + [x])
  {
    assert (a + [x])[..|a|] == a;
    assert (b + [x])[..|b|] == b;
  }

  lemma {:induction false} SubseqRemove<T>(a: seq<T>, b: seq<T>, i: nat)
    requires IsSubseq(a, b)
    requires i < |a|
    ensures IsSubseq(RemoveAt(a, i), b)
    decreases |b|
  {
    var front := b[..|b| - 1];
    if a[|a| - 1] == b[|b| - 1] && IsSubseq(a[..|a| - 1], front) {
      if i == |a| - 1 {
        assert RemoveAt(a, i) == a[..|a| - 1];
      } else {
        SubseqRemove(a[..|a| - 1], front, i);
        assert RemoveAt(a, i)[..|a| - 2] == RemoveAt(a[..|a| - 1], i);
      }
    } else {
      SubseqRemove(a, front, i);
    }
  }

  /** Appending the same elements at the end keeps the subsequence. */
  lemma SubseqExtend<T>(p: seq<T>, q: seq<T>, b: seq<T>, x: T)
    requires IsSubseq(p + q, b)
    ensures IsSubseq(p + (q + [x]), b + [x])
  {
    SubseqSnoc(p + q, b, x);
    assert p + (q + [x]) == (p + q) + [x];
  }

  /** Deleting the head of the second part keeps the subsequence. */
  lemma SubseqDropHead<T>(p: seq<T>, x: T, q: seq<T>, b: seq<T>)
    requires IsSubseq(p + ([x] + q), b)
    ensures IsSubseq(p + q, b)
  {
    SubseqRemove(p + ([x] + q), b, |p|);
    assert RemoveAt(p + ([x] + q), |p|) == p + q;
  }

  lemma {:induction false} SubseqPrefix<T>(a: seq<T>, rest: seq<T>, b: seq<T>)
    requires IsSubseq(a + rest, b)
    ensures IsSubseq(a, b)
    decreases |rest|
  {
    if rest == [] {
      assert a + rest == a;
    } else {
      SubseqRemove(a + rest, b, |a + rest| - 1);
      assert RemoveAt(a + rest, |a + rest| - 1) == a + rest[..|rest| - 1];
      SubseqPrefix(a, rest[..|rest| - 1], b);
    }
  }

  lemma {:induction false} SubseqLength<T>(a: seq<T>, b: seq<T>)
    requires IsSubseq(a, b)
    ensures |a| <= |b|
    ensures |a| == |b| ==> a == b
    decreases |b|
  {
    if a != [] {
      var front := b[..|b| - 1];
      if a[|a| - 1] == b[|b| - 1] && IsSubseq(a[..|a| - 1], front) {
        SubseqLength(a[..|a| - 1], front);
        assert a == a[..|a| - 1] + [a[|a| - 1]];
        assert b == front + [b[|b| - 1]];
      } else {
        SubseqLength(a, front);
      }
    }
  }

  lemma {:induction false} FilterCount<T>(s: seq<T>, keep: T -> bool, x: T)
    ensures multiset(Filter(s, keep))[x] == if keep(x) then multiset(s)[x] else 0
  {
    if s != [] {
      var front, last := s[..|s| - 1], s[|s| - 1];
      assert s == front + [last];
      FilterCount(front, keep, x);
    }
  }

  lemma FilterLengthRemove<T>(s: seq<T>, i: nat, keep: T -> bool)
    requires i < |s|
    ensures |Filter(s, keep)| == |Filter(RemoveAt(s, i), keep)| + if keep(s[i]) then 1 else 0
  {
    var a, x, b := s[..i], [s[i]], s[i + 1..];
    assert s == a + x + b;
    FilterAppend(a + x, b, keep);
    FilterAppend(a, x, keep);
    FilterAppend(a, b, keep);
    assert x[..0] == [];
  }

  /** As many elements pass the filter in either order. */
  lemma {:induction false} FilterLength<T>(a: seq<T>, b: seq<T>, keep: T -> bool)
    requires multiset(a) == multiset(b)
    ensures |Filter(a, keep)| == |Filter(b, keep)|
    decreases |a|
  {
    if a == [] {
      assert |multiset(a)| == |multiset(b)|;
    } else {
      assert a[0] in multiset(b);
      var j :| 0 <= j < |b| && b[j] == a[0];
      MultisetRemove(a, 0);
      MultisetRemove(b, j);
      FilterLengthRemove(a, 0, keep);
      FilterLengthRemove(b, j, keep);
      assert multiset(RemoveAt(a, 0)) == multiset(a) - multiset{a[0]};
      assert multiset(RemoveAt(b, j)) == multiset(b) - multiset{a[0]};
      FilterLength(RemoveAt(a, 0), RemoveAt(b, j), keep);
    }
  }

  lemma MultisetRemove<T>(s: seq<T>, i: nat)
    requires i < |s|
    ensures multiset(s) == multiset(RemoveAt(s, i)) + multiset{s[i]}
  {
    assert s == s[..i] + [s[i]] + s[i + 1..];
  }
}
