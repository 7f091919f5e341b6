/** The order in which the pool takes its per-group runtime locks. */
module LockOrder {
  import opened SeqTools

  datatype Group = Group(protocol: string, agent: string)

  predicate StringLess(a: string, b: string) {
    b != "" && (a == "" || a[0] < b[0] || (a[0] == b[0] && StringLess(a[1..], b[1..])))
  }

  lemma {:induction false} StringLessTotal(a: string, b: string)
    ensures StringLess(a, b) || StringLess(b, a) || a == b
    ensures !(StringLess(a, b) && StringLess(b, a))
    ensures !StringLess(a, a)
  {
    if a != "" {
      StringLessTotal(a[1..], a[1..]);
    }
    if a != "" && b != "" && a[0] == b[0] {
      StringLessTotal(a[1..], b[1..]);
      assert a == [a[0]] + a[1..] && b == [b[0]] + b[1..];
    }
  }

  lemma {:induction false} StringLessTransitive(a: string, b: string, c: string)
    requires StringLess(a, b) && StringLess(b, c)
    ensures StringLess(a, c)
  {
    if a != "" && a[0] == b[0] == c[0] {
      StringLessTransitive(a[1..], b[1..], c[1..]);
    }
  }

  predicate GroupLess(x: Group, y: Group) {
    if x.protocol != y.protocol then StringLess(x.protocol, y.protocol) else StringLess(x.agent, y.agent)
  }

  lemma GroupLessTotal(x: Group, y: Group)
    ensures GroupLess(x, y) || GroupLess(y, x) || x == y
    ensures !(GroupLess(x, y) && GroupLess(y, x))
    ensures !GroupLess(x, x)
  {
    StringLessTotal(x.protocol, y.protocol);
    StringLessTotal(x.agent, y.agent);
  }

  lemma GroupLessTransitive(x: Group, y: Group, z: Group)
    requires GroupLess(x, y) && GroupLess(y, z)
    ensures GroupLess(x, z)
  {
    StringLessTotal(x.protocol, y.protocol);
    if x.protocol != y.protocol && y.protocol != z.protocol {
      StringLessTransitive(x.protocol, y.protocol, z.protocol);
    } else if x.protocol == y.protocol == z.protocol {
      StringLessTransitive(x.agent, y.agent, z.agent);
    }
  }

  predicate GroupLeq(x: Group, y: Group) {
    !GroupLess(y, x)
  }

  lemma GroupLeqIsPreorder()
    ensures TotalPreorder(GroupLeq)
  {
    forall x, y ensures GroupLeq(x, y) || GroupLeq(y, x) {
      GroupLessTotal(x, y);
    }
    forall x, y, z | GroupLeq(x, y) && GroupLeq(y, z) ensures GroupLeq(x, z) {
      GroupLessTotal(x, y);
      GroupLessTotal(y, z);
      if GroupLess(z, x) {
        if x == y || y == z {
        } else {
          GroupLessTransitive(x, y, z);
          GroupLessTotal(x, z);
        }
      }
    }
  }

  predicate StrictlyIncreasing(groups: seq<Group>) {
    forall i, j | 0 <= i < j < |groups| :: GroupLess(groups[i], groups[j])
  }

  predicate NoRepeats(groups: seq<Group>) {
    forall i, j | 0 <= i < j < |groups| :: groups[i] != groups[j]
  }

  // A sorted list without repeats increases strictly.
  lemma SortedDistinctIncreases(groups: seq<Group>, sorted: seq<Group>)
    requires NoRepeats(groups) && sorted == StableSort(groups, GroupLeq)
    ensures StrictlyIncreasing(sorted)
    ensures forall g :: g in sorted <==> g in groups
  {
    GroupLeqIsPreorder();
    SortSorts(groups, GroupLeq);
    SortKeepsMembers(groups, GroupLeq);
    SameMembers(sorted, groups);
    forall i, j | 0 <= i < j < |sorted| ensures GroupLess(sorted[i], sorted[j]) {
      assert GroupLeq(sorted[i], sorted[j]);
      GroupLessTotal(sorted[i], sorted[j]);
      if sorted[i] == sorted[j] {
        TwiceCounted(sorted, i, j);
        CountedOnce(groups, sorted[i]);
      }
    }
  }

  lemma {:induction false} CountedOnce(groups: seq<Group>, g: Group)
    requires NoRepeats(groups)
    ensures multiset(groups)[g] <= 1
  {
    if groups != [] {
      var front, last := groups[..|groups| - 1], groups[|groups| - 1];
      assert groups == front + [last];
      CountedOnce(front, g);
      if g == last {
        assert forall i | 0 <= i < |front| :: front[i] == groups[i];
        assert last !in front;
      }
    }
  }

  /** The acquisition order lockRuntimeGroups computes: whatever list it is given, each group once, in
      strictly increasing order, and no group left out. */
  method OrderGroups(groups: seq<Group>) returns (ordered: seq<Group>)
    ensures StrictlyIncreasing(ordered)
    ensures forall g :: g in ordered <==> g in groups
  {
    var unique: set<Group> := {};
    ordered := [];
    for i := 0 to |groups|
      invariant unique == set g | g in groups[..i]
      invariant forall g :: g in ordered <==> g in unique
      invariant NoRepeats(ordered)
    {
      var group := groups[i];
      assert groups[..i + 1] == groups[..i] + [group];
      if group in unique { continue; }
      unique := unique + {group};
      ordered := ordered + [group];
    }
    assert groups[..|groups|] == groups;
    SortedDistinctIncreases(ordered, StableSort(ordered, GroupLeq));
    ordered := StableSort(ordered, GroupLeq);
  }

  // There is only one such order, so every caller with the same groups takes the same locks in the same order.
  lemma {:induction false} OrderIsUnique(a: seq<Group>, b: seq<Group>)
    requires StrictlyIncreasing(a) && StrictlyIncreasing(b)
    requires forall g :: g in a <==> g in b
    ensures a == b
  {
    assert b == [] || b[0] in a;
    if a != [] {
      assert a[0] in b;
      FirstIsLeast(a, b[0]);
      FirstIsLeast(b, a[0]);
      GroupLessTotal(a[0], b[0]);
      forall g ensures g in a[1..] <==> g in b[1..] {
        TailMembers(a, g);
        TailMembers(b, g);
      }
      OrderIsUnique(a[1..], b[1..]);
      assert a == [a[0]] + a[1..] && b == [b[0]] + b[1..];
    }
  }

  lemma FirstIsLeast(a: seq<Group>, g: Group)
    requires StrictlyIncreasing(a) && g in a
    ensures g == a[0] || GroupLess(a[0], g)
  {
  }

  lemma TailMembers(a: seq<Group>, g: Group)
    requires StrictlyIncreasing(a) && a != []
    ensures g in a[1..] <==> g in a && g != a[0]
  {
    GroupLessTotal(a[0], a[0]);
    assert a == [a[0]] + a[1..];
    if g in a[1..] {
      var i :| 0 <= i < |a[1..]| && a[1..][i] == g;
      assert a[i + 1] == g;
    }
  }
}
