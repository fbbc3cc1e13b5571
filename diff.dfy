/** `diff_records`: which desired records are missing from the provider and
    which provider records are not desired.  The loop pairs every desired
    record with every fetched one and, on each match, removes both from
    copies of the lists with `list.remove`.  The records are distinct
    objects, so `list.remove` finds them by identity; here that identity is
    a record's position in its original list, and the copies are lists of
    positions. */
module Diff {
  import opened Records
  import opened Lists
  import opened Strings

  /** The equality the reconciler uses: type, name and priority equal, and
      data equal once trailing dots are stripped.  The domain is not
      compared. */
  predicate Match(need: Record, have: Record) {
    && need.rtype == have.rtype
    && need.name == have.name
    && RStripDots(need.data) == RStripDots(have.data)
    && need.priority == have.priority
  }

  /** Match is an equivalence relation. */
  lemma MatchIsEquivalence(x: Record, y: Record, z: Record)
    ensures Match(x, x)
    ensures Match(x, y) ==> Match(y, x)
    ensures Match(x, y) && Match(y, z) ==> Match(x, z)
  {
  }

  /** Desired record `a` matches fetched record `b`. */
  predicate Paired(ideal: seq<Record>, actual: seq<Record>, a: int, b: int) {
    0 <= a < |ideal| && 0 <= b < |actual| && Match(ideal[a], actual[b])
  }

  /** No desired record matches two fetched records and no fetched record
      matches two desired records: the condition under which no
      `list.remove` fails. */
  predicate OneToOne(ideal: seq<Record>, actual: seq<Record>) {
    && (forall a, b1, b2 :: 0 <= a < |ideal| && 0 <= b1 < b2 < |actual| && Paired(ideal, actual, a, b1) ==> !Paired(ideal, actual, a, b2))
    && (forall b, a1, a2 :: 0 <= b < |actual| && 0 <= a1 < a2 < |ideal| && Paired(ideal, actual, a1, b) ==> !Paired(ideal, actual, a2, b))
  }

  /** A desired record that some fetched record matches. */
  predicate Present(need: Record, actual: seq<Record>) {
    exists have <- actual :: Match(need, have)
  }

  /** A fetched record that some desired record matches. */
  predicate Wanted(have: Record, ideal: seq<Record>) {
    exists need <- ideal :: Match(need, have)
  }

  /** The desired records nothing fetched matches, in their order. */
  function ToAdd(ideal: seq<Record>, actual: seq<Record>): (r: seq<Record>)
    ensures IsSubsequence(r, ideal)
    ensures |r| <= |ideal|
    ensures forall x :: x in r <==> x in ideal && !Present(x, actual)
    ensures r == [] <==> forall x <- ideal :: Present(x, actual)
    ensures forall x :: multiset(r)[x] == if Present(x, actual) then 0 else multiset(ideal)[x]
  {
    FilterCounts(ideal, need => !Present(need, actual));
    Filter(ideal, need => !Present(need, actual))
  }

  /** The fetched records no desired record matches, in their order. */
  function ToRemove(ideal: seq<Record>, actual: seq<Record>): (r: seq<Record>)
    ensures IsSubsequence(r, actual)
    ensures |r| <= |actual|
    ensures forall x :: x in r <==> x in actual && !Wanted(x, ideal)
    ensures r == [] <==> forall x <- actual :: Wanted(x, ideal)
    ensures forall x :: multiset(r)[x] == if Wanted(x, ideal) then 0 else multiset(actual)[x]
  {
    FilterCounts(actual, have => !Wanted(have, ideal));
    Filter(actual, have => !Wanted(have, ideal))
  }

  /** The pair `(add, remove)` that `diff_records` returns. */
  datatype Changes = Changes(add: seq<Record>, remove: seq<Record>)

  /** What `diff_records` computes: the unmatched records on each side, or
      the ValueError of a second `list.remove` of the same record. */
  function DiffSpec(ideal: seq<Record>, actual: seq<Record>): Result<Changes> {
    if OneToOne(ideal, actual) then Ok(Changes(ToAdd(ideal, actual), ToRemove(ideal, actual)))
    else Err(NotInList)
  }

  // The state of the nested loop before it compares desired record i with
  // fetched record j: every earlier pair (row a, column b) has been compared.

  /** How many fetched records desired record `a` has been compared with. */
  function ColsDone(a: int, i: nat, j: nat, m: nat): nat {
    if a < i then m else if a == i then j else 0
  }

  /** How many desired records fetched record `b` has been compared with. */
  function RowsDone(b: int, i: nat, j: nat): nat {
    if b < j then i + 1 else i
  }

  /** Desired record `a` has already met a match. */
  ghost predicate RowHit(ideal: seq<Record>, actual: seq<Record>, a: int, i: nat, j: nat) {
    exists b :: 0 <= b < ColsDone(a, i, j, |actual|) && Paired(ideal, actual, a, b)
  }

  /** Fetched record `b` has already met a match. */
  ghost predicate ColHit(ideal: seq<Record>, actual: seq<Record>, b: int, i: nat, j: nat) {
    exists a :: 0 <= a < RowsDone(b, i, j) && Paired(ideal, actual, a, b)
  }

  /** No double match among the pairs compared so far. */
  ghost predicate NoDoubleYet(ideal: seq<Record>, actual: seq<Record>, i: nat, j: nat) {
    && (forall a, b1, b2 :: b1 < b2 < ColsDone(a, i, j, |actual|) && Paired(ideal, actual, a, b1) ==> !Paired(ideal, actual, a, b2))
    && (forall b, a1, a2 :: a1 < a2 < RowsDone(b, i, j) && Paired(ideal, actual, a1, b) ==> !Paired(ideal, actual, a2, b))
  }

  /** The loop invariant: `add` holds exactly the desired records not yet
      matched and `remove` the fetched records not yet matched, both in
      their original order, and no record has been matched twice. */
  ghost predicate Inv(ideal: seq<Record>, actual: seq<Record>, add: seq<nat>, remove: seq<nat>, i: nat, j: nat) {
    && i <= |ideal| && j <= |actual| && (i == |ideal| ==> j == 0)
    && Increasing(add)
    && (forall k: nat :: k in add <==> k < |ideal| && !RowHit(ideal, actual, k, i, j))
    && Increasing(remove)
    && (forall l: nat :: l in remove <==> l < |actual| && !ColHit(ideal, actual, l, i, j))
    && NoDoubleYet(ideal, actual, i, j)
  }

  lemma Start(ideal: seq<Record>, actual: seq<Record>)
    ensures Inv(ideal, actual, Range(|ideal|), Range(|actual|), 0, 0)
  {
  }

  /** One comparison: a match of two records still present removes both,
      and a miss changes nothing. */
  lemma Advance(ideal: seq<Record>, actual: seq<Record>, add: seq<nat>, remove: seq<nat>, add': seq<nat>, remove': seq<nat>, i: nat, j: nat)
    requires Inv(ideal, actual, add, remove, i, j) && i < |ideal| && j < |actual|
    requires Match(ideal[i], actual[j]) ==>
               && RemoveFirst(add, i).Some? && add' == RemoveFirst(add, i).value
               && RemoveFirst(remove, j).Some? && remove' == RemoveFirst(remove, j).value
    requires !Match(ideal[i], actual[j]) ==> add' == add && remove' == remove
    ensures Inv(ideal, actual, add', remove', i, j + 1)
  {
    if Match(ideal[i], actual[j]) {
      StepHit(ideal, actual, add, remove, i, j);
    } else {
      StepMiss(ideal, actual, add, remove, i, j);
    }
  }

  /** Comparing a pair that does not match changes nothing but the position. */
  lemma StepMiss(ideal: seq<Record>, actual: seq<Record>, add: seq<nat>, remove: seq<nat>, i: nat, j: nat)
    requires Inv(ideal, actual, add, remove, i, j) && i < |ideal| && j < |actual|
    requires !Match(ideal[i], actual[j])
    ensures Inv(ideal, actual, add, remove, i, j + 1)
  {
    MissRows(ideal, actual, i, j);
    MissCols(ideal, actual, i, j);
    MissNoDouble(ideal, actual, i, j);
  }

  lemma MissRows(ideal: seq<Record>, actual: seq<Record>, i: nat, j: nat)
    requires i < |ideal| && j < |actual| && !Match(ideal[i], actual[j])
    ensures forall k: nat :: RowHit(ideal, actual, k, i, j + 1) <==> RowHit(ideal, actual, k, i, j)
  {
    forall k: nat ensures RowHit(ideal, actual, k, i, j + 1) <==> RowHit(ideal, actual, k, i, j) {
      if RowHit(ideal, actual, k, i, j + 1) {
        var b :| 0 <= b < ColsDone(k, i, j + 1, |actual|) && Paired(ideal, actual, k, b);
        assert b < ColsDone(k, i, j, |actual|);
      }
    }
  }

  lemma MissCols(ideal: seq<Record>, actual: seq<Record>, i: nat, j: nat)
    requires i < |ideal| && j < |actual| && !Match(ideal[i], actual[j])
    ensures forall l: nat :: ColHit(ideal, actual, l, i, j + 1) <==> ColHit(ideal, actual, l, i, j)
  {
    forall l: nat ensures ColHit(ideal, actual, l, i, j + 1) <==> ColHit(ideal, actual, l, i, j) {
      if ColHit(ideal, actual, l, i, j + 1) {
        var a :| 0 <= a < RowsDone(l, i, j + 1) && Paired(ideal, actual, a, l);
        assert a < RowsDone(l, i, j);
      }
    }
  }

  lemma MissNoDouble(ideal: seq<Record>, actual: seq<Record>, i: nat, j: nat)
    requires i < |ideal| && j < |actual| && !Match(ideal[i], actual[j])
    ensures NoDoubleYet(ideal, actual, i, j) ==> NoDoubleYet(ideal, actual, i, j + 1)
  {
    if NoDoubleYet(ideal, actual, i, j) {
      forall a, b1, b2 | b1 < b2 < ColsDone(a, i, j + 1, |actual|) && Paired(ideal, actual, a, b1)
        ensures !Paired(ideal, actual, a, b2)
      {
        if a != i || b2 != j {
          assert b2 < ColsDone(a, i, j, |actual|);
        }
      }
      forall b, a1, a2 | a1 < a2 < RowsDone(b, i, j + 1) && Paired(ideal, actual, a1, b)
        ensures !Paired(ideal, actual, a2, b)
      {
        if a2 != i || b != j {
          assert a2 < RowsDone(b, i, j);
        }
      }
    }
  }

  /** A match whose desired record is already gone from `add`: that record
      matched an earlier fetched record too. */
  lemma RowDouble(ideal: seq<Record>, actual: seq<Record>, add: seq<nat>, remove: seq<nat>, i: nat, j: nat)
    requires Inv(ideal, actual, add, remove, i, j) && i < |ideal| && j < |actual|
    requires Match(ideal[i], actual[j]) && i !in add
    ensures !OneToOne(ideal, actual) && DiffSpec(ideal, actual) == Err(NotInList)
  {
    var b :| 0 <= b < ColsDone(i, i, j, |actual|) && Paired(ideal, actual, i, b);
    assert Paired(ideal, actual, i, j);
  }

  /** A match whose fetched record is already gone from `remove`: that record
      matched an earlier desired record too. */
  lemma ColDouble(ideal: seq<Record>, actual: seq<Record>, add: seq<nat>, remove: seq<nat>, i: nat, j: nat)
    requires Inv(ideal, actual, add, remove, i, j) && i < |ideal| && j < |actual|
    requires Match(ideal[i], actual[j]) && j !in remove
    ensures !OneToOne(ideal, actual) && DiffSpec(ideal, actual) == Err(NotInList)
  {
    var a :| 0 <= a < RowsDone(j, i, j) && Paired(ideal, actual, a, j);
    assert Paired(ideal, actual, i, j);
  }

  /** A match of two records still present removes exactly those two. */
  lemma StepHit(ideal: seq<Record>, actual: seq<Record>, add: seq<nat>, remove: seq<nat>, i: nat, j: nat)
    requires Inv(ideal, actual, add, remove, i, j) && i < |ideal| && j < |actual|
    requires Match(ideal[i], actual[j]) && i in add && j in remove
    ensures RemoveFirst(add, i).Some? && RemoveFirst(remove, j).Some?
    ensures Inv(ideal, actual, RemoveFirst(add, i).value, RemoveFirst(remove, j).value, i, j + 1)
  {
    RemoveFromIncreasing(add, i);
    RemoveFromIncreasing(remove, j);
    assert Paired(ideal, actual, i, j);
    forall k: nat ensures RowHit(ideal, actual, k, i, j + 1) <==> RowHit(ideal, actual, k, i, j) || k == i {
      if RowHit(ideal, actual, k, i, j + 1) && k != i {
        var b :| 0 <= b < ColsDone(k, i, j + 1, |actual|) && Paired(ideal, actual, k, b);
        assert b < ColsDone(k, i, j, |actual|);
      }
    }
    forall l: nat ensures ColHit(ideal, actual, l, i, j + 1) <==> ColHit(ideal, actual, l, i, j) || l == j {
      if ColHit(ideal, actual, l, i, j + 1) && l != j {
        var a :| 0 <= a < RowsDone(l, i, j + 1) && Paired(ideal, actual, a, l);
        assert a < RowsDone(l, i, j);
      }
    }
    StepHitNoDouble(ideal, actual, add, remove, i, j);
  }

  lemma StepHitNoDouble(ideal: seq<Record>, actual: seq<Record>, add: seq<nat>, remove: seq<nat>, i: nat, j: nat)
    requires Inv(ideal, actual, add, remove, i, j) && i < |ideal| && j < |actual|
    requires i in add && j in remove
    ensures NoDoubleYet(ideal, actual, i, j + 1)
  {
    assert !RowHit(ideal, actual, i, i, j);
    assert !ColHit(ideal, actual, j, i, j);
  }

  /** The end of a row is the start of the next one. */
  lemma NextRow(ideal: seq<Record>, actual: seq<Record>, add: seq<nat>, remove: seq<nat>, i: nat)
    requires i < |ideal| && Inv(ideal, actual, add, remove, i, |actual|)
    ensures Inv(ideal, actual, add, remove, i + 1, 0)
  {
    forall k: nat ensures RowHit(ideal, actual, k, i + 1, 0) <==> RowHit(ideal, actual, k, i, |actual|) {
      assert ColsDone(k, i + 1, 0, |actual|) == ColsDone(k, i, |actual|, |actual|);
    }
    forall l: nat | l < |actual| ensures ColHit(ideal, actual, l, i + 1, 0) <==> ColHit(ideal, actual, l, i, |actual|) {
      assert RowsDone(l, i + 1, 0) == RowsDone(l, i, |actual|);
    }
    forall b | 0 <= b < |actual| ensures RowsDone(b, i + 1, 0) == RowsDone(b, i, |actual|) {
    }
  }

  /** After the last row the invariant is the specification. */
  lemma Finish(ideal: seq<Record>, actual: seq<Record>, add: seq<nat>, remove: seq<nat>)
    requires Inv(ideal, actual, add, remove, |ideal|, 0)
    ensures OneToOne(ideal, actual)
    ensures forall p :: 0 <= p < |add| ==> add[p] < |ideal|
    ensures forall p :: 0 <= p < |remove| ==> remove[p] < |actual|
    ensures Pick(ideal, add) == ToAdd(ideal, actual)
    ensures Pick(actual, remove) == ToRemove(ideal, actual)
    ensures DiffSpec(ideal, actual) == Ok(Changes(Pick(ideal, add), Pick(actual, remove)))
  {
    forall k: nat ensures k in add <==> k < |ideal| && !Present(ideal[k], actual) {
      if k < |ideal| && Present(ideal[k], actual) {
        var have :| have in actual && Match(ideal[k], have);
        var b :| 0 <= b < |actual| && actual[b] == have;
        assert Paired(ideal, actual, k, b);
      }
    }
    PickFilter(ideal, add, need => !Present(need, actual));
    forall l: nat ensures l in remove <==> l < |actual| && !Wanted(actual[l], ideal) {
      if l < |actual| && Wanted(actual[l], ideal) {
        var need :| need in ideal && Match(need, actual[l]);
        var a :| 0 <= a < |ideal| && ideal[a] == need;
        assert Paired(ideal, actual, a, l);
      }
    }
    PickFilter(actual, remove, have => !Wanted(have, ideal));
  }

  /** `diff_records(ideal, actual)`: copy both lists, then for every desired
      record and every fetched record that match, `add.remove(need)` and
      `remove.remove(have)`; a removal of something already removed fails. */
  method DiffRecords(ideal: seq<Record>, actual: seq<Record>) returns (r: Result<Changes>)
    ensures r == DiffSpec(ideal, actual)
  {
    var add: seq<nat> := Range(|ideal|);
    var remove: seq<nat> := Range(|actual|);
    Start(ideal, actual);
    var i: nat := 0;
    while i < |ideal|
      invariant Inv(ideal, actual, add, remove, i, 0)
    {
      var ok;
      ok, add, remove := CompareRow(ideal, actual, add, remove, i);
      if !ok {
        return Err(NotInList);
      }
      i := i + 1;
    }
    Finish(ideal, actual, add, remove);
    return Ok(Changes(Pick(ideal, add), Pick(actual, remove)));
  }

  /** One pass of the inner loop: desired record `i` against every fetched
      record, removing both of each matching pair; false when a removal
      fails. */
  method CompareRow(ideal: seq<Record>, actual: seq<Record>, add: seq<nat>, remove: seq<nat>, i: nat)
    returns (ok: bool, add': seq<nat>, remove': seq<nat>)
    requires i < |ideal| && Inv(ideal, actual, add, remove, i, 0)
    ensures ok ==> Inv(ideal, actual, add', remove', i + 1, 0)
    ensures !ok ==> DiffSpec(ideal, actual) == Err(NotInList)
  {
    add', remove' := add, remove;
    var j: nat := 0;
    while j < |actual|
      invariant Inv(ideal, actual, add', remove', i, j)
    {
      var a, b := add', remove';
      if Match(ideal[i], actual[j]) {
        var a' := RemoveFirst(a, i);
        if a'.None? {
          RowDouble(ideal, actual, a, b, i, j);
          return false, add', remove';
        }
        var b' := RemoveFirst(b, j);
        if b'.None? {
          ColDouble(ideal, actual, a, b, i, j);
          return false, add', remove';
        }
        add', remove' := a'.value, b'.value;
      }
      Advance(ideal, actual, a, b, add', remove', i, j);
      j := j + 1;
    }
    NextRow(ideal, actual, add', remove', i);
    return true, add', remove';
  }

  /** No two records of the list match each other. */
  predicate NoTwoMatch(xs: seq<Record>) {
    forall a, b :: 0 <= a < b < |xs| ==> !Match(xs[a], xs[b])
  }

  /** Comparing a list with itself finds nothing to change exactly when no
      two of its records match; otherwise the record that matches twice
      makes the second `list.remove` fail. */
  lemma DiffSelf(xs: seq<Record>)
    ensures DiffSpec(xs, xs) == if NoTwoMatch(xs) then Ok(Changes([], [])) else Err(NotInList)
  {
    SelfOneToOne(xs);
    SelfAllMatched(xs);
  }

  lemma SelfOneToOne(xs: seq<Record>)
    ensures OneToOne(xs, xs) <==> NoTwoMatch(xs)
  {
    if NoTwoMatch(xs) {
      forall a, b1, b2 | 0 <= a < |xs| && 0 <= b1 < b2 < |xs| && Paired(xs, xs, a, b1)
        ensures !Paired(xs, xs, a, b2)
      {
        MatchIsEquivalence(xs[b1], xs[a], xs[b2]);
      }
      forall b, a1, a2 | 0 <= b < |xs| && 0 <= a1 < a2 < |xs| && Paired(xs, xs, a1, b)
        ensures !Paired(xs, xs, a2, b)
      {
        MatchIsEquivalence(xs[a1], xs[b], xs[a2]);
        MatchIsEquivalence(xs[a2], xs[b], xs[b]);
      }
    } else {
      var a, b :| 0 <= a < b < |xs| && Match(xs[a], xs[b]);
      MatchIsEquivalence(xs[a], xs[a], xs[a]);
      assert Paired(xs, xs, a, a) && Paired(xs, xs, a, b);
    }
  }

  /** Every record of a list matches itself, so nothing is left unmatched. */
  lemma SelfAllMatched(xs: seq<Record>)
    ensures ToAdd(xs, xs) == [] && ToRemove(xs, xs) == []
  {
    forall x | x in xs ensures Present(x, xs) && Wanted(x, xs) {
      MatchIsEquivalence(x, x, x);
    }
  }

  /** The fetched records that `sync` leaves in place: those some desired
      record matches, in their order. */
  function Kept(ideal: seq<Record>, actual: seq<Record>): (r: seq<Record>)
    ensures IsSubsequence(r, actual)
    ensures forall x :: x in r <==> x in actual && Wanted(x, ideal)
    ensures forall x :: multiset(r)[x] == if Wanted(x, ideal) then multiset(actual)[x] else 0
  {
    FilterCounts(actual, have => Wanted(have, ideal));
    Filter(actual, have => Wanted(have, ideal))
  }

  /** The provider's zone after `sync` has destroyed the records to remove
      and created the records to add: the fetched records still wanted, in
      their order, then the created ones. */
  function Synced(ideal: seq<Record>, actual: seq<Record>): (now: seq<Record>)
    ensures forall x <- now :: x in actual || x in ideal
  {
    Kept(ideal, actual) + ToAdd(ideal, actual)
  }

  /** Sync converges: when the first diff succeeds and no two desired records
      match each other, diffing the desired records against the zone that
      sync leaves behind finds nothing to add and nothing to remove. */
  lemma SyncConverges(ideal: seq<Record>, actual: seq<Record>)
    requires OneToOne(ideal, actual) && NoTwoMatch(ideal)
    ensures DiffSpec(ideal, Synced(ideal, actual)) == Ok(Changes([], []))
  {
    SyncedAllPresent(ideal, actual);
    SyncedAllWanted(ideal, actual);
    SyncedOneToOne(ideal, actual);
  }

  /** Every desired record is matched in the synced zone: by the fetched
      record that matched it, which sync keeps, or by its own copy, which
      sync creates. */
  lemma SyncedAllPresent(ideal: seq<Record>, actual: seq<Record>)
    ensures ToAdd(ideal, Synced(ideal, actual)) == []
  {
    var now := Synced(ideal, actual);
    forall x <- ideal ensures Present(x, now) {
      MatchIsEquivalence(x, x, x);
      if Present(x, actual) {
        var have :| have in actual && Match(x, have);
        assert Wanted(have, ideal);
        assert have in now;
      } else {
        assert x in now;
      }
    }
  }

  /** Every record of the synced zone is wanted. */
  lemma SyncedAllWanted(ideal: seq<Record>, actual: seq<Record>)
    ensures ToRemove(ideal, Synced(ideal, actual)) == []
  {
    forall y <- Synced(ideal, actual) ensures Wanted(y, ideal) {
      MatchIsEquivalence(y, y, y);
    }
  }

  /** No desired record matches two records of the synced zone, and no
      record of the synced zone matches two desired records. */
  lemma SyncedOneToOne(ideal: seq<Record>, actual: seq<Record>)
    requires OneToOne(ideal, actual) && NoTwoMatch(ideal)
    ensures OneToOne(ideal, Synced(ideal, actual))
  {
    var kept := Kept(ideal, actual);
    var add := ToAdd(ideal, actual);
    var now := Synced(ideal, actual);
    AddedNoTwoMatch(ideal, actual);
    AddedMatchNoneKept(ideal, actual);
    forall a, b1, b2 | 0 <= a < |ideal| && 0 <= b1 < b2 < |now| && Paired(ideal, now, a, b1)
      ensures !Paired(ideal, now, a, b2)
    {
      KeptOneToOne(ideal, actual, a);
      MatchesAtMostOne(ideal[a], kept, add);
    }
    forall b, a1, a2 | 0 <= b < |now| && 0 <= a1 < a2 < |ideal| && Paired(ideal, now, a1, b)
      ensures !Paired(ideal, now, a2, b)
    {
      MatchIsEquivalence(ideal[a2], now[b], ideal[a2]);
      MatchIsEquivalence(ideal[a1], now[b], ideal[a2]);
    }
  }

  /** A record that matches at most one of `kept`, where no two of `add`
      match and nothing in `add` matches anything in `kept`, matches at
      most one of `kept + add`. */
  lemma MatchesAtMostOne(need: Record, kept: seq<Record>, add: seq<Record>)
    requires forall i, j :: 0 <= i < j < |kept| ==> !(Match(need, kept[i]) && Match(need, kept[j]))
    requires NoTwoMatch(add)
    requires forall y <- add, x <- kept :: !Match(y, x)
    ensures forall i, j :: 0 <= i < j < |kept + add| ==> !(Match(need, (kept + add)[i]) && Match(need, (kept + add)[j]))
  {
    var now := kept + add;
    forall i, j | 0 <= i < j < |now| ensures !(Match(need, now[i]) && Match(need, now[j])) {
      MatchIsEquivalence(need, now[i], now[j]);
      MatchIsEquivalence(now[i], need, now[j]);
      MatchIsEquivalence(now[j], need, now[i]);
      MatchIsEquivalence(need, now[j], need);
      if j < |kept| {
        assert now[i] == kept[i] && now[j] == kept[j];
      } else if |kept| <= i {
        assert now[i] == add[i - |kept|] && now[j] == add[j - |kept|];
      } else {
        assert now[i] == kept[i] && now[j] == add[j - |kept|];
      }
    }
  }

  /** The records sync keeps inherit from the fetched list that desired
      record `a` matches at most one of them. */
  lemma KeptOneToOne(ideal: seq<Record>, actual: seq<Record>, a: nat)
    requires OneToOne(ideal, actual) && a < |ideal|
    ensures var kept := Kept(ideal, actual);
            forall i, j :: 0 <= i < j < |kept| ==> !(Match(ideal[a], kept[i]) && Match(ideal[a], kept[j]))
  {
    var need := ideal[a];
    var rel := (x: Record, y: Record) => !(Match(need, x) && Match(need, y));
    forall i, j | 0 <= i < j < |actual| ensures rel(actual[i], actual[j]) {
      assert Paired(ideal, actual, a, i) ==> !Paired(ideal, actual, a, j);
    }
    SubsequencePairwise(Kept(ideal, actual), actual, rel);
  }

  /** The records sync creates match no two of each other. */
  lemma AddedNoTwoMatch(ideal: seq<Record>, actual: seq<Record>)
    requires NoTwoMatch(ideal)
    ensures NoTwoMatch(ToAdd(ideal, actual))
  {
    var rel := (x: Record, y: Record) => !Match(x, y);
    assert Pairwise(ideal, rel);
    SubsequencePairwise(ToAdd(ideal, actual), ideal, rel);
  }

  /** A record sync creates matches none that it keeps: it was created
      because no fetched record matched it. */
  lemma AddedMatchNoneKept(ideal: seq<Record>, actual: seq<Record>)
    ensures forall y <- ToAdd(ideal, actual), x <- Kept(ideal, actual) :: !Match(y, x)
  {
  }

  /** One desired record against one fetched record: nothing to do when
      they match, otherwise the fetched one goes and the desired one comes. */
  lemma OnePair(want: Record, have: Record)
    ensures DiffSpec([want], [have]) == if Match(want, have) then Ok(Changes([], [])) else Ok(Changes([want], [have]))
  {
    assert OneToOne([want], [have]);
    var add, remove := ToAdd([want], [have]), ToRemove([want], [have]);
    if Match(want, have) {
      assert Present(want, [have]) && Wanted(have, [want]);
      assert add == [] && remove == [];
    } else {
      assert !Present(want, [have]) && !Wanted(have, [want]);
      assert want in add && have in remove;
      assert add == [want] && remove == [have];
    }
  }

  /** Data that differ only in trailing dots are the same record: a fully
      qualified name in the configuration matches the provider's form. */
  lemma TrailingDotIgnored(want: Record, have: Record)
    requires want.rtype == have.rtype && want.name == have.name && want.priority == have.priority
    requires RStripDots(want.data) == RStripDots(have.data)
    ensures DiffSpec([want], [have]) == Ok(Changes([], []))
  {
    OnePair(want, have);
  }

  /** A trailing dot added to a record's data leaves it the same record. */
  lemma DotAddedMatches(r: Record)
    ensures Match(r.(data := r.data + "."), r)
  {
    var d := r.data + ".";
    assert d[..|d| - 1] == r.data;
  }

  /** A record whose data changed, beyond trailing dots, is removed in its
      old form and added in its new one. */
  lemma ChangedAddress(want: Record, have: Record)
    requires want.rtype == have.rtype && want.name == have.name && want.priority == have.priority
    requires RStripDots(want.data) != RStripDots(have.data)
    ensures DiffSpec([want], [have]) == Ok(Changes([want], [have]))
  {
    OnePair(want, have);
  }

  /** Two desired copies of one record against a single provider record:
      the provider record matches both, so its second removal fails. */
  lemma DuplicateDesiredFails(x: Record)
    ensures DiffSpec([x, x], [x]).Err?
  {
    assert Paired([x, x], [x], 0, 0) && Paired([x, x], [x], 1, 0);
  }
}
