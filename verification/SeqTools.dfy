/** Filtering and stable sorting of sequences. */
module SeqTools {

  function Filter<T>(xs: seq<T>, keep: T -> bool): seq<T> {
    if xs == [] then []
    else Filter(xs[..|xs| - 1], keep) + if keep(xs[|xs| - 1]) then [xs[|xs| - 1]] else []
  }

  lemma {:induction false} FilterMembers<T>(xs: seq<T>, keep: T -> bool)
    ensures forall x :: x in Filter(xs, keep) ==> x in xs && keep(x)
    ensures forall x :: x in xs && keep(x) ==> x in Filter(xs, keep)
  {
    if xs != [] {
      FilterMembers(xs[..|xs| - 1], keep);
      assert xs == xs[..|xs| - 1] + [xs[|xs| - 1]];
    }
  }

  predicate Distinct<T>(xs: seq<T>, key: T -> nat) {
    forall i, j | 0 <= i < j < |xs| :: key(xs[i]) != key(xs[j])
  }

  lemma {:induction false} FilterKeepsDistinct<T>(xs: seq<T>, keep: T -> bool, key: T -> nat)
    requires Distinct(xs, key)
    ensures Distinct(Filter(xs, keep), key)
  {
    if xs != [] {
      var front, last := xs[..|xs| - 1], xs[|xs| - 1];
      FilterKeepsDistinct(front, keep, key);
      FilterMembers(front, keep);
      var kept := Filter(front, keep);
      forall i | 0 <= i < |kept| ensures key(kept[i]) != key(last) {
        var x := kept[i];
        assert x in kept;
        assert x in front;
        var j :| 0 <= j < |front| && front[j] == kept[i];
        assert xs[j] == front[j];
      }
    }
  }

  // The largest key, or the floor when no key exceeds it.
  function MaxBy<T>(xs: seq<T>, key: T -> nat, floor: nat): nat {
    if xs == [] then floor
    else
      var m := MaxBy(xs[..|xs| - 1], key, floor);
      if key(xs[|xs| - 1]) > m then key(xs[|xs| - 1]) else m
  }

  lemma {:induction false} MaxByIsMax<T>(xs: seq<T>, key: T -> nat, floor: nat)
    ensures MaxBy(xs, key, floor) >= floor
    ensures forall x | x in xs :: key(x) <= MaxBy(xs, key, floor)
    ensures MaxBy(xs, key, floor) == floor || exists x :: x in xs && key(x) == MaxBy(xs, key, floor)
  {
    if xs != [] {
      MaxByIsMax(xs[..|xs| - 1], key, floor);
      assert xs == xs[..|xs| - 1] + [xs[|xs| - 1]];
    }
  }

  // In any increasing arrangement of the same elements the largest key is the last one.
  lemma MaxByIsLast<T>(xs: seq<T>, sorted: seq<T>, key: T -> nat, floor: nat)
    requires sorted != [] && (forall i, j | 0 <= i < j < |sorted| :: key(sorted[i]) < key(sorted[j]))
    requires forall x :: x in sorted <==> x in xs
    requires forall x | x in xs :: key(x) > floor
    ensures MaxBy(xs, key, floor) == key(sorted[|sorted| - 1])
  {
    MaxByIsMax(xs, key, floor);
    assert sorted[|sorted| - 1] in xs;
    var x :| x in xs && key(x) == MaxBy(xs, key, floor);
    var k :| 0 <= k < |sorted| && sorted[k] == x;
  }

  // Insertion from the right: x goes after everything that may stand before it.
  function Insert<T>(x: T, sorted: seq<T>, leq: (T, T) -> bool): seq<T> {
    if sorted == [] || leq(sorted[|sorted| - 1], x) then sorted + [x]
    else Insert(x, sorted[..|sorted| - 1], leq) + [sorted[|sorted| - 1]]
  }

  function StableSort<T>(xs: seq<T>, leq: (T, T) -> bool): seq<T> {
    if xs == [] then [] else Insert(xs[|xs| - 1], StableSort(xs[..|xs| - 1], leq), leq)
  }

  ghost predicate TotalPreorder<T(!new)>(leq: (T, T) -> bool) {
    && (forall a, b :: leq(a, b) || leq(b, a))
    && (forall a, b, c :: leq(a, b) && leq(b, c) ==> leq(a, c))
  }

  predicate SortedBy<T>(xs: seq<T>, leq: (T, T) -> bool) {
    forall i, j | 0 <= i < j < |xs| :: leq(xs[i], xs[j])
  }

  lemma {:induction false} InsertKeepsMembers<T>(x: T, sorted: seq<T>, leq: (T, T) -> bool)
    ensures multiset(Insert(x, sorted, leq)) == multiset(sorted) + multiset{x}
  {
    if sorted != [] && !leq(sorted[|sorted| - 1], x) {
      var front := sorted[..|sorted| - 1];
      assert sorted == front + [sorted[|sorted| - 1]];
      InsertKeepsMembers(x, front, leq);
    }
  }

  lemma {:induction false} SortKeepsMembers<T>(xs: seq<T>, leq: (T, T) -> bool)
    ensures multiset(StableSort(xs, leq)) == multiset(xs)
  {
    if xs != [] {
      var front := xs[..|xs| - 1];
      assert xs == front + [xs[|xs| - 1]];
      SortKeepsMembers(front, leq);
      InsertKeepsMembers(xs[|xs| - 1], StableSort(front, leq), leq);
    }
  }

  lemma {:induction false} InsertSorts<T(!new)>(x: T, sorted: seq<T>, leq: (T, T) -> bool)
    requires TotalPreorder(leq) && SortedBy(sorted, leq)
    ensures SortedBy(Insert(x, sorted, leq), leq)
  {
    if sorted != [] && !leq(sorted[|sorted| - 1], x) {
      var front, last := sorted[..|sorted| - 1], sorted[|sorted| - 1];
      InsertSorts(x, front, leq);
      InsertKeepsMembers(x, front, leq);
      var r := Insert(x, front, leq);
      forall i | 0 <= i < |r| ensures leq(r[i], last) {
        assert r[i] in multiset(r);
        if r[i] != x {
          assert r[i] in multiset(front);
          var j :| 0 <= j < |front| && front[j] == r[i];
          assert sorted[j] == front[j];
        }
      }
    }
  }

  lemma {:induction false} SortSorts<T(!new)>(xs: seq<T>, leq: (T, T) -> bool)
    requires TotalPreorder(leq)
    ensures SortedBy(StableSort(xs, leq), leq)
  {
    if xs != [] {
      SortSorts(xs[..|xs| - 1], leq);
      InsertSorts(xs[|xs| - 1], StableSort(xs[..|xs| - 1], leq), leq);
    }
  }

  lemma SameMembers<T>(a: seq<T>, b: seq<T>)
    requires multiset(a) == multiset(b)
    ensures |a| == |b| && forall x :: x in a <==> x in b
  {
    assert |a| == |multiset(a)| && |b| == |multiset(b)|;
    assert forall x :: x in a <==> x in multiset(a);
    assert forall x :: x in b <==> x in multiset(b);
  }

  lemma {:induction false} DistinctOnce<T>(xs: seq<T>, key: T -> nat, a: T, b: T)
    requires Distinct(xs, key)
    ensures multiset(xs)[a] <= 1
    ensures a in multiset(xs) && b in multiset(xs) && key(a) == key(b) ==> a == b
  {
    if xs != [] {
      var front, last := xs[..|xs| - 1], xs[|xs| - 1];
      assert xs == front + [last];
      DistinctOnce(front, key, a, b);
      forall x | x in multiset(front) ensures key(x) != key(last) {
        assert x in front;
        var i :| 0 <= i < |front| && front[i] == x;
        assert xs[i] == x;
      }
    }
  }

  lemma TwiceCounted<T>(xs: seq<T>, i: nat, j: nat)
    requires i < j < |xs| && xs[i] == xs[j]
    ensures multiset(xs)[xs[i]] >= 2
  {
    assert xs == xs[..j] + [xs[j]] + xs[j + 1..];
    assert xs[..j][i] == xs[i];
    assert xs[i] in multiset(xs[..j]);
  }

  // A rearrangement of elements with distinct keys has distinct keys.
  lemma PermutationKeepsDistinct<T>(xs: seq<T>, ys: seq<T>, key: T -> nat)
    requires multiset(xs) == multiset(ys) && Distinct(xs, key)
    ensures Distinct(ys, key)
  {
    forall i, j | 0 <= i < j < |ys| ensures key(ys[i]) != key(ys[j]) {
      if ys[i] == ys[j] {
        TwiceCounted(ys, i, j);
      }
      assert ys[i] in multiset(ys) && ys[j] in multiset(ys);
      DistinctOnce(xs, key, ys[i], ys[j]);
    }
  }

  // ---- slices of slices ----

  lemma DropTwice<T>(s: seq<T>, a: nat, b: nat)
    requires a + b <= |s|
    ensures s[a..][b..] == s[a + b..]
  {
  }

  lemma SliceOfWindow<T>(s: seq<T>, c: nat, n: nat, a: nat, b: nat)
    requires c <= n <= |s| && a <= b <= n - c
    ensures s[c..n][a..b] == s[c + a..c + b]
  {
    var window, x, y := s[c..n], s[c..n][a..b], s[c + a..c + b];
    forall i | 0 <= i < b - a ensures x[i] == y[i] {
      assert x[i] == window[a + i] == s[c + (a + i)];
    }
  }

  lemma SliceOfTail<T>(s: seq<T>, p: nat, a: nat, b: nat)
    requires p <= |s| && a <= b <= |s| - p
    ensures s[p..][a..b] == s[p + a..p + b]
  {
    assert s[p..] == s[p..|s|];
    SliceOfWindow(s, p, |s|, a, b);
  }
}
