/**
 * Sequence facts used by the technology-stack categories: duplicate
 * freedom, the set of entries, and the append-if-absent step that the
 * source performs with `if x not in lst: lst.append(x)`.
 */
module Seqs {

  /** No entry appears twice: the head is not in the tail, recursively. */
  predicate NoDup<T(==)>(s: seq<T>)
    decreases |s|
  {
    |s| == 0 || (s[0] !in s[1..] && NoDup(s[1..]))
  }

  /** Duplicate freedom is distinctness of entries at distinct positions. */
  lemma {:induction false} NoDupSpec<T>(s: seq<T>)
    ensures NoDup(s) <==> forall i, j :: 0 <= i < j < |s| ==> s[i] != s[j]
  {
    if |s| > 0 {
      NoDupSpec(s[1..]);
      assert forall i :: 1 <= i < |s| ==> s[i] == s[1..][i - 1];
      if NoDup(s) {
        forall i, j | 0 <= i < j < |s|
          ensures s[i] != s[j]
        {
          if i == 0 {
            assert s[j] in s[1..];
          }
        }
      }
      if forall i, j :: 0 <= i < j < |s| ==> s[i] != s[j] {
        assert forall i, j :: 0 <= i < j < |s[1..]| ==> s[1..][i] != s[1..][j];
        assert forall k :: 0 <= k < |s[1..]| ==> s[0] != s[1..][k];
      }
    }
  }

  /** The entries of `s` as a set (what a display with `set(lst)` shows). */
  function Elems<T>(s: seq<T>): set<T> {
    set x | x in s
  }

  /** `a` occurs in `s` at a position before one holding `b`. */
  predicate Before<T(==)>(s: seq<T>, a: T, b: T) {
    exists p, q :: 0 <= p < q < |s| && s[p] == a && s[q] == b
  }

  /** The entries of a concatenation are the entries of both parts. */
  lemma ElemsConcat<T>(a: seq<T>, b: seq<T>)
    ensures Elems(a + b) == Elems(a) + Elems(b)
  {
  }

  /**
   * Appends each candidate, in order, unless it is already in the list
   * built so far.
   */
  function AppendNew<T(==)>(xs: seq<T>, cands: seq<T>): (r: seq<T>)
    ensures xs <= r && |r| <= |xs| + |cands|
    decreases |cands|
  {
    if cands == [] then xs
    else AppendNew(if cands[0] in xs then xs else xs + [cands[0]], cands[1..])
  }

  /**
   * The result holds exactly the old entries and the candidates; an old
   * entry gains no further copy, and a new entry appears once.
   */
  lemma {:induction false} AppendNewSpec<T(!new)>(xs: seq<T>, cands: seq<T>)
    ensures forall x :: x in AppendNew(xs, cands) <==> x in xs || x in cands
    ensures forall x :: x in xs ==> multiset(AppendNew(xs, cands))[x] == multiset(xs)[x]
    ensures forall x :: x !in xs ==> multiset(AppendNew(xs, cands))[x] <= 1
    decreases |cands|
  {
    if cands != [] {
      var c := cands[0];
      var ys := if c in xs then xs else xs + [c];
      AppendNewSpec(ys, cands[1..]);
      assert AppendNew(xs, cands) == AppendNew(ys, cands[1..]);
      assert forall x :: x in xs ==> multiset(ys)[x] == multiset(xs)[x];
      assert c !in xs ==> multiset(ys)[c] == 1;
      assert forall x :: x in cands <==> x == c || x in cands[1..];
    }
  }

  /** A list whose every entry occurs at most once has no duplicates. */
  lemma {:induction false} NoDupFromCounts<T(!new)>(s: seq<T>)
    requires forall x :: multiset(s)[x] <= 1
    ensures NoDup(s)
  {
    if s != [] {
      assert s == [s[0]] + s[1..];
      var t := s[1..];
      assert multiset(s) == multiset{s[0]} + multiset(t);
      forall x ensures multiset(t)[x] <= 1 {
        assert multiset(t)[x] <= multiset(s)[x];
      }
      NoDupFromCounts(t);
      assert multiset(s)[s[0]] <= 1;
      assert multiset(t)[s[0]] == 0;
      assert s[0] !in t;
      assert s[1..] == t;
    }
  }

  /** In a list without duplicates every entry occurs exactly once. */
  lemma {:induction false} CountsFromNoDup<T(!new)>(s: seq<T>)
    requires NoDup(s)
    ensures forall x :: multiset(s)[x] <= 1
  {
    if s != [] {
      CountsFromNoDup(s[1..]);
      assert s == [s[0]] + s[1..];
      assert s[0] !in s[1..];
    }
  }

  /** Appending new entries keeps a duplicate-free list duplicate-free. */
  lemma AppendNewNoDup<T(!new)>(xs: seq<T>, cands: seq<T>)
    ensures NoDup(xs) ==> NoDup(AppendNew(xs, cands))
  {
    if NoDup(xs) {
      AppendNewSpec(xs, cands);
      CountsFromNoDup(xs);
      NoDupFromCounts(AppendNew(xs, cands));
    }
  }

  /** A duplicate-free list has as many entries as its set of entries. */
  lemma {:induction false} NoDupCardinality<T>(s: seq<T>)
    requires NoDup(s)
    ensures |Elems(s)| == |s|
  {
    if s != [] {
      NoDupCardinality(s[1..]);
      assert Elems(s) == {s[0]} + Elems(s[1..]);
      assert s[0] !in Elems(s[1..]);
    }
  }

  /** Two duplicate-free lists with the same entries have the same length. */
  lemma SameElemsSameLength<T>(a: seq<T>, b: seq<T>)
    requires NoDup(a) && NoDup(b)
    requires Elems(a) == Elems(b)
    ensures |a| == |b|
  {
    NoDupCardinality(a);
    NoDupCardinality(b);
  }
}
