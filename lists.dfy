/** The parts of Python's list behaviour the reconciler relies on: finding an
    element, `list.remove`, and the index lists used to speak of identity. */
module Lists {
  import opened Records

  /** Position of the first occurrence of `x` in `s`, as `s.index(x)` finds it. */
  function IndexOf<T(==)>(s: seq<T>, x: T): (r: Option<nat>)
    ensures r.None? <==> x !in s
    ensures r.Some? ==> r.value < |s| && s[r.value] == x && x !in s[..r.value]
  {
    if s == [] then None
    else if s[0] == x then Some(0)
    else match IndexOf(s[1..], x)
      case None => None
      case Some(k) =>
        assert s[1..][..k] == s[1..k + 1];
        Some(k + 1)
  }

  /** `[f(x) for x in xs]` where `f` may raise: the results in order, or the
      error of the first element that fails. */
  function MapResult<A, B>(xs: seq<A>, f: A -> Result<B>): (r: Result<seq<B>>)
    ensures r.Ok? ==> |r.value| == |xs|
  {
    if xs == [] then Ok([])
    else
      match f(xs[0])
      case Err(e) => Err(e)
      case Ok(head) =>
        match MapResult(xs[1..], f)
        case Err(e) => Err(e)
        case Ok(tail) => Ok([head] + tail)
  }

  /** The comprehension succeeds exactly when every element succeeds, and
      then holds each element's result at its position; when it fails, the
      error is that of the first element that fails. */
  lemma {:induction false} MapResultMeaning<A, B>(xs: seq<A>, f: A -> Result<B>)
    ensures var r := MapResult(xs, f);
      && (r.Ok? <==> forall i :: 0 <= i < |xs| ==> f(xs[i]).Ok?)
      && (r.Ok? ==> forall i :: 0 <= i < |xs| ==> f(xs[i]) == Ok(r.value[i]))
      && (r.Err? ==> exists i :: 0 <= i < |xs| && f(xs[i]) == Err(r.error) && forall j :: 0 <= j < i ==> f(xs[j]).Ok?)
  {
    if xs != [] {
      var rest := xs[1..];
      MapResultMeaning(rest, f);
      assert forall i :: 1 <= i < |xs| ==> xs[i] == rest[i - 1];
      match f(xs[0])
      case Err(e) =>
      case Ok(head) =>
        match MapResult(rest, f)
        case Err(e) =>
          var i :| 0 <= i < |rest| && f(rest[i]) == Err(e) && forall j :: 0 <= j < i ==> f(rest[j]).Ok?;
          assert f(xs[i + 1]) == Err(e);
          assert forall j :: 0 <= j < i + 1 ==> f(xs[j]).Ok? by {
            forall j | 0 <= j < i + 1 ensures f(xs[j]).Ok? {
              if j > 0 {
                assert xs[j] == rest[j - 1];
              }
            }
          }
        case Ok(tail) =>
          assert MapResult(xs, f).value == [head] + tail;
    }
  }

  /** Position of the last occurrence of `x` in `s`, as `s.rindex(x)` finds it. */
  function LastIndexOf<T(==)>(s: seq<T>, x: T): (r: Option<nat>)
    ensures r.None? <==> x !in s
    ensures r.Some? ==> r.value < |s| && s[r.value] == x && x !in s[r.value + 1..]
  {
    if s == [] then None
    else if s[|s| - 1] == x then Some(|s| - 1)
    else match LastIndexOf(s[..|s| - 1], x)
      case None => None
      case Some(k) =>
        assert s[k + 1..] == s[..|s| - 1][k + 1..] + [s[|s| - 1]];
        Some(k)
  }

  /** `s.remove(x)`: drop the first occurrence of `x`; None stands for the
      ValueError raised when `x` is not there. */
  function RemoveFirst<T(==)>(s: seq<T>, x: T): (r: Option<seq<T>>)
    ensures r.None? <==> x !in s
    ensures r.Some? ==> |r.value| == |s| - 1 && multiset(r.value) == multiset(s) - multiset{x}
    ensures r.Some? ==> exists k :: 0 <= k < |s| && s[k] == x && x !in s[..k] && r.value == s[..k] + s[k + 1..]
  {
    match IndexOf(s, x)
    case None => None
    case Some(k) =>
      assert s == s[..k] + [x] + s[k + 1..];
      Some(s[..k] + s[k + 1..])
  }

  /** Strictly increasing: an index list with each position at most once, in order. */
  predicate Increasing(s: seq<nat>) {
    forall p, q :: 0 <= p < q < |s| ==> s[p] < s[q]
  }

  /** The positions 0, 1, ..., n - 1: a fresh copy of a list of length n, seen
      as the identities of its elements. */
  function Range(n: nat): (r: seq<nat>)
    ensures |r| == n && Increasing(r)
    ensures forall k: nat :: k in r <==> k < n
  {
    var r := seq(n, k => k);
    assert forall k :: 0 <= k < |r| ==> r[k] == k;
    assert forall k: nat :: k < n ==> k in r by {
      forall k: nat | k < n ensures k in r {
        assert r[k] == k;
      }
    }
    r
  }

  /** Removing an element from a strictly increasing list keeps it strictly
      increasing and removes exactly that element. */
  lemma RemoveFromIncreasing(s: seq<nat>, x: nat)
    requires Increasing(s) && x in s
    ensures RemoveFirst(s, x).Some?
    ensures Increasing(RemoveFirst(s, x).value)
    ensures forall y: nat :: y in RemoveFirst(s, x).value <==> y in s && y != x
  {
    var k := IndexOf(s, x).value;
    var t := s[..k] + s[k + 1..];
    assert RemoveFirst(s, x).value == t;
    SpliceIncreasing(s, k);
    forall y: nat ensures y in t <==> y in s && y != x {
      SpliceMember(s, k, y);
    }
  }

  lemma SpliceIncreasing(s: seq<nat>, k: nat)
    requires Increasing(s) && k < |s|
    ensures Increasing(s[..k] + s[k + 1..])
  {
    var t := s[..k] + s[k + 1..];
    forall p, q | 0 <= p < q < |t| ensures t[p] < t[q] {
      var p' := if p < k then p else p + 1;
      var q' := if q < k then q else q + 1;
      assert t[p] == s[p'] && t[q] == s[q'];
    }
  }

  lemma SpliceMember(s: seq<nat>, k: nat, y: nat)
    requires Increasing(s) && k < |s|
    ensures y in s[..k] + s[k + 1..] <==> y in s && y != s[k]
  {
    var t := s[..k] + s[k + 1..];
    if y in t {
      var p :| 0 <= p < |t| && t[p] == y;
      var p' := if p < k then p else p + 1;
      assert s[p'] == y && p' != k;
    }
    if y in s && y != s[k] {
      var p :| 0 <= p < |s| && s[p] == y;
      if p < k { assert t[p] == y; } else { assert t[p - 1] == y; }
    }
  }

  /** The elements of `src` at the positions `idx`, in the order of `idx`. */
  function Pick<T>(src: seq<T>, idx: seq<nat>): (r: seq<T>)
    requires forall p :: 0 <= p < |idx| ==> idx[p] < |src|
    ensures |r| == |idx|
    ensures forall p :: 0 <= p < |idx| ==> r[p] == src[idx[p]]
  {
    seq(|idx|, p requires 0 <= p < |idx| => src[idx[p]])
  }

  /** `a` is `b` with some elements deleted and the rest kept in order. */
  predicate IsSubsequence<T(==)>(a: seq<T>, b: seq<T>)
    decreases |b|
  {
    if a == [] then true
    else if b == [] then false
    else if a[|a| - 1] == b[|b| - 1] && IsSubsequence(a[..|a| - 1], b[..|b| - 1]) then true
    else IsSubsequence(a, b[..|b| - 1])
  }

  /** Deleting nothing from a common last element, or deleting it, keeps a
      subsequence a subsequence. */
  lemma SubsequenceSnoc<T>(a: seq<T>, b: seq<T>, x: T)
    requires IsSubsequence(a, b)
    ensures IsSubsequence(a + [x], b + [x])
    ensures IsSubsequence(a, b + [x])
  {
    assert (a + [x])[..|a|] == a;
    assert (b + [x])[..|b|] == b;
  }

  /** Every element of a subsequence is an element of the whole. */
  lemma {:induction false} SubsequenceMembers<T>(a: seq<T>, b: seq<T>)
    requires IsSubsequence(a, b)
    ensures forall x <- a :: x in b
    decreases |b|
  {
    if a != [] && b != [] {
      var b' := b[..|b| - 1];
      if a[|a| - 1] == b[|b| - 1] && IsSubsequence(a[..|a| - 1], b') {
        SubsequenceMembers(a[..|a| - 1], b');
        assert a == a[..|a| - 1] + [a[|a| - 1]];
      } else {
        SubsequenceMembers(a, b');
      }
    }
  }

  /** `rel` holds of every two elements of `s`, the earlier one first. */
  predicate Pairwise<T>(s: seq<T>, rel: (T, T) -> bool) {
    forall i, j :: 0 <= i < j < |s| ==> rel(s[i], s[j])
  }

  /** A subsequence keeps every relation that holds between the earlier and
      the later of any two elements. */
  lemma {:induction false} SubsequencePairwise<T>(a: seq<T>, b: seq<T>, rel: (T, T) -> bool)
    requires IsSubsequence(a, b) && Pairwise(b, rel)
    ensures Pairwise(a, rel)
    decreases |b|
  {
    if a != [] && b != [] {
      var b' := b[..|b| - 1];
      assert Pairwise(b', rel);
      var a' := a[..|a| - 1];
      if a[|a| - 1] == b[|b| - 1] && IsSubsequence(a', b') {
        SubsequencePairwise(a', b', rel);
        SubsequenceMembers(a', b');
        forall i, j | 0 <= i < j < |a| ensures rel(a[i], a[j]) {
          if j == |a| - 1 {
            assert a[i] == a'[i] && a'[i] in a';
            var k :| 0 <= k < |b'| && b'[k] == a[i];
            assert rel(b[k], b[|b| - 1]);
          } else {
            assert a[i] == a'[i] && a[j] == a'[j];
          }
        }
      } else {
        SubsequencePairwise(a, b', rel);
      }
    }
  }

  /** The elements of `s` that `keep` accepts, in their original order. */
  function Filter<T(!new)>(s: seq<T>, keep: T -> bool): (r: seq<T>)
    ensures |r| <= |s|
    ensures forall x :: x in r <==> x in s && keep(x)
    ensures r == [] <==> forall x <- s :: !keep(x)
    ensures IsSubsequence(r, s)
  {
    if s == [] then []
    else
      var init := s[..|s| - 1];
      var last := s[|s| - 1];
      assert s == init + [last];
      SubsequenceSnoc(Filter(init, keep), init, last);
      if keep(last) then Filter(init, keep) + [last] else Filter(init, keep)
  }

  /** Filtering keeps every accepted element as many times as it occurs, and
      no other element. */
  lemma {:induction false} FilterCounts<T(!new)>(s: seq<T>, keep: T -> bool)
    ensures forall x :: multiset(Filter(s, keep))[x] == if keep(x) then multiset(s)[x] else 0
  {
    if s != [] {
      var init := s[..|s| - 1];
      var last := s[|s| - 1];
      assert s == init + [last];
      assert multiset(s) == multiset(init) + multiset{last};
      FilterCounts(init, keep);
      if keep(last) {
        assert multiset(Filter(s, keep)) == multiset(Filter(init, keep)) + multiset{last};
      } else {
        assert Filter(s, keep) == Filter(init, keep);
      }
    }
  }

  /** Picking, in increasing order, exactly the positions whose elements
      `keep` accepts is filtering by `keep`. */
  lemma {:induction false} PickFilter<T(!new)>(s: seq<T>, idx: seq<nat>, keep: T -> bool)
    requires Increasing(idx)
    requires forall k: nat :: k in idx <==> k < |s| && keep(s[k])
    ensures forall p :: 0 <= p < |idx| ==> idx[p] < |s|
    ensures Pick(s, idx) == Filter(s, keep)
  {
    forall p | 0 <= p < |idx| ensures idx[p] < |s| {
      assert idx[p] in idx;
    }
    assert |idx| > 0 ==> idx[0] < |s|;
    if s != [] {
      var n := |s| - 1;
      var init := s[..n];
      if keep(s[n]) {
        var idx' := DropLastIndex(s, idx, keep);
        PickFilter(init, idx', keep);
        assert Filter(s, keep) == Filter(init, keep) + [s[n]];
        PickSnoc(s, idx');
      } else {
        forall k: nat ensures k in idx <==> k < |init| && keep(init[k]) {
          if k < |init| {
            assert s[k] == init[k];
          }
        }
        PickFilter(init, idx, keep);
        assert Filter(s, keep) == Filter(init, keep);
        assert Pick(s, idx) == Pick(init, idx);
      }
    }
  }

  lemma PickSnoc<T>(s: seq<T>, idx: seq<nat>)
    requires s != []
    requires forall p :: 0 <= p < |idx| ==> idx[p] < |s| - 1
    ensures Pick(s, idx + [|s| - 1]) == Pick(s[..|s| - 1], idx) + [s[|s| - 1]]
  {
  }

  /** When the last position is picked, it is the last index, and the others
      pick from the rest of the sequence in the same way. */
  lemma DropLastIndex<T>(s: seq<T>, idx: seq<nat>, keep: T -> bool) returns (idx': seq<nat>)
    requires Increasing(idx)
    requires forall k: nat :: k in idx <==> k < |s| && keep(s[k])
    requires s != [] && keep(s[|s| - 1])
    ensures idx == idx' + [|s| - 1]
    ensures Increasing(idx')
    ensures forall k: nat :: k in idx' <==> k < |s| - 1 && keep(s[..|s| - 1][k])
  {
    var n := |s| - 1;
    assert n in idx;
    var q :| 0 <= q < |idx| && idx[q] == n;
    var last := |idx| - 1;
    assert idx[last] in idx;
    idx' := idx[..last];
    assert idx == idx' + [n];
    forall k: nat ensures k in idx' <==> k < n && keep(s[..n][k]) {
      if k in idx' {
        var p :| 0 <= p < last && idx'[p] == k;
        assert idx[p] < idx[last];
      }
      if k < n && keep(s[..n][k]) {
        assert k in idx;
        var p :| 0 <= p < |idx| && idx[p] == k;
        assert idx'[p] == k;
      }
    }
  }
}
