/**
 * The subtask lists that `createTodoTreeStructure` builds, read as a forest: a todo
 * together with everything nested under it, and the proof that following the
 * subtasks from the todos that are nobody's subtask reaches every todo exactly once.
 */
module TodoForest {
  import opened Wrappers
  import opened TodoTree

  /** Subtasks come after their parent and are todos of the list. */
  ghost predicate Forward(subs: Subtasks) {
    forall j: nat, k: nat :: Entry(subs, j, k) ==> j < subs[j].value[k] < |subs|
  }

  ghost predicate IsForest(subs: Subtasks) {
    Forward(subs) && Ordered(subs) && Unique(subs)
  }

  /** Todo `j` followed by everything nested under it, depth first: the order in which
      walking the subtasks visits them. */
  ghost function Nodes(subs: Subtasks, j: nat): (r: seq<nat>)
    requires Forward(subs) && j < |subs|
    ensures forall i :: 0 <= i < |r| ==> r[i] < |subs|
    decreases |subs| - j, 1
  {
    [j] + (if subs[j].Some? then NodesOfList(subs, j, subs[j].value, 0) else [])
  }

  /** The nodes under `cs[k..]`, the tail of the subtask list of `p`. */
  ghost function NodesOfList(subs: Subtasks, p: nat, cs: seq<nat>, k: nat): (r: seq<nat>)
    requires Forward(subs) && p < |subs| && subs[p] == Some(cs) && k <= |cs|
    ensures forall i :: 0 <= i < |r| ==> r[i] < |subs|
    decreases |subs| - p, 0, |cs| - k
  {
    if k == |cs| then []
    else
      assert Entry(subs, p, k);
      Nodes(subs, cs[k]) + NodesOfList(subs, p, cs, k + 1)
  }

  /** The nodes under each of `xs` in turn. */
  ghost function NodesOfAll(subs: Subtasks, xs: seq<nat>): (r: seq<nat>)
    requires Forward(subs) && forall i :: 0 <= i < |xs| ==> xs[i] < |subs|
    ensures forall i :: 0 <= i < |r| ==> r[i] < |subs|
  {
    if xs == [] then [] else Nodes(subs, xs[0]) + NodesOfAll(subs, xs[1..])
  }

  ghost predicate IsChild(subs: Subtasks, c: nat) {
    exists j: nat, k: nat :: Entry(subs, j, k) && subs[j].value[k] == c
  }

  /** The todo whose subtask `c` is. */
  ghost function Parent(subs: Subtasks, c: nat): (p: nat)
    requires Forward(subs) && IsChild(subs, c)
    ensures p < c && exists k: nat :: Entry(subs, p, k) && subs[p].value[k] == c
  {
    var j: nat, k: nat :| Entry(subs, j, k) && subs[j].value[k] == c;
    j
  }

  /** `a` is `c` or an ancestor of `c`. */
  ghost predicate Above(subs: Subtasks, a: nat, c: nat)
    requires Forward(subs)
    decreases c
  {
    c == a || (IsChild(subs, c) && Above(subs, a, Parent(subs, c)))
  }

  lemma ParentIs(subs: Subtasks, p: nat, k: nat)
    requires IsForest(subs) && Entry(subs, p, k)
    ensures IsChild(subs, subs[p].value[k]) && Parent(subs, subs[p].value[k]) == p
  {
    var c := subs[p].value[k];
    assert IsChild(subs, c);
    var q := Parent(subs, c);
    var k': nat :| Entry(subs, q, k') && subs[q].value[k'] == c;
  }

  lemma {:induction false} AboveBelow(subs: Subtasks, a: nat, c: nat)
    requires Forward(subs) && Above(subs, a, c)
    ensures a <= c
    decreases c
  {
    if c != a {
      AboveBelow(subs, a, Parent(subs, c));
    }
  }

  lemma {:induction false} AboveTransitive(subs: Subtasks, a: nat, b: nat, c: nat)
    requires Forward(subs) && Above(subs, a, b) && Above(subs, b, c)
    ensures Above(subs, a, c)
    decreases c
  {
    if c != b {
      AboveTransitive(subs, a, b, Parent(subs, c));
    }
  }

  /** Two ancestors of one todo are on one line of descent. */
  lemma {:induction false} AboveComparable(subs: Subtasks, a: nat, b: nat, c: nat)
    requires Forward(subs) && Above(subs, a, c) && Above(subs, b, c) && a <= b
    ensures Above(subs, a, b)
    decreases c
  {
    if c != b {
      if c == a {
        AboveBelow(subs, b, c);
      } else {
        AboveComparable(subs, a, b, Parent(subs, c));
      }
    }
  }

  /** Below `p`, a todo other than `p` is under exactly the subtask of `p` that is on
      its line of descent. */
  lemma AboveThroughChild(subs: Subtasks, p: nat, c: nat)
    requires IsForest(subs) && p < |subs| && c != p && Above(subs, p, c)
    ensures subs[p].Some? && exists k: nat :: k < |subs[p].value| && Above(subs, subs[p].value[k], c)
    decreases c
  {
    var q := Parent(subs, c);
    if q == p {
      var k: nat :| Entry(subs, p, k) && subs[p].value[k] == c;
    } else {
      AboveThroughChild(subs, p, q);
      var k: nat :| k < |subs[p].value| && Above(subs, subs[p].value[k], q);
      assert Above(subs, subs[p].value[k], c);
    }
  }

  /** No todo is under two different subtasks of one todo. */
  lemma UnderOneChild(subs: Subtasks, p: nat, k: nat, k': nat, c: nat)
    requires IsForest(subs) && Entry(subs, p, k) && Entry(subs, p, k') && k < k'
    requires Above(subs, subs[p].value[k], c)
    ensures !Above(subs, subs[p].value[k'], c)
  {
    var a := subs[p].value[k];
    var b := subs[p].value[k'];
    if Above(subs, b, c) {
      AboveComparable(subs, a, b, c);
      ParentIs(subs, p, k');
      assert b != a;
      AboveBelow(subs, a, p);
    }
  }

  /** Every todo occurs in its own walk, once for each ancestor. */
  lemma {:induction false} NodesCount(subs: Subtasks, j: nat, c: nat)
    requires IsForest(subs) && j < |subs|
    ensures multiset(Nodes(subs, j))[c] == if Above(subs, j, c) then 1 else 0
    decreases |subs| - j, 1
  {
    if subs[j].Some? {
      var cs := subs[j].value;
      NodesOfListCount(subs, j, cs, 0, c);
      if c == j {
        forall k: nat | k < |cs|
          ensures !Above(subs, cs[k], c)
        {
          assert Entry(subs, j, k);
          if Above(subs, cs[k], c) {
            AboveBelow(subs, cs[k], c);
          }
        }
      } else if Above(subs, j, c) {
        AboveThroughChild(subs, j, c);
      } else {
        forall k: nat | k < |cs|
          ensures !Above(subs, cs[k], c)
        {
          if Above(subs, cs[k], c) {
            ParentIs(subs, j, k);
            assert Above(subs, j, cs[k]);
            AboveTransitive(subs, j, cs[k], c);
          }
        }
      }
    } else {
      if c != j && Above(subs, j, c) {
        AboveThroughChild(subs, j, c);
      }
    }
  }

  /** Some subtask in `cs[k..]` is on the line of descent of `c`. */
  ghost predicate UnderList(subs: Subtasks, cs: seq<nat>, k: nat, c: nat)
    requires Forward(subs)
  {
    exists k': nat :: k <= k' < |cs| && Above(subs, cs[k'], c)
  }

  lemma UnderListStep(subs: Subtasks, p: nat, cs: seq<nat>, k: nat, c: nat)
    requires IsForest(subs) && p < |subs| && subs[p] == Some(cs) && k < |cs|
    ensures Above(subs, cs[k], c) ==> UnderList(subs, cs, k, c) && !UnderList(subs, cs, k + 1, c)
    ensures !Above(subs, cs[k], c) ==> (UnderList(subs, cs, k, c) <==> UnderList(subs, cs, k + 1, c))
  {
    if Above(subs, cs[k], c) {
      assert Entry(subs, p, k);
      forall k': nat | k < k' < |cs|
        ensures !Above(subs, cs[k'], c)
      {
        assert Entry(subs, p, k');
        UnderOneChild(subs, p, k, k', c);
      }
    }
  }

  lemma {:induction false} NodesOfListCount(subs: Subtasks, p: nat, cs: seq<nat>, k: nat, c: nat)
    requires IsForest(subs) && p < |subs| && subs[p] == Some(cs) && k <= |cs|
    ensures multiset(NodesOfList(subs, p, cs, k))[c] == if UnderList(subs, cs, k, c) then 1 else 0
    decreases |subs| - p, 0, |cs| - k
  {
    if k < |cs| {
      assert Entry(subs, p, k);
      NodesCount(subs, cs[k], c);
      NodesOfListCount(subs, p, cs, k + 1, c);
      UnderListStep(subs, p, cs, k, c);
      var a, b := Nodes(subs, cs[k]), NodesOfList(subs, p, cs, k + 1);
      assert NodesOfList(subs, p, cs, k) == a + b;
      CountConcat(NodesOfList(subs, p, cs, k), a, b, c);
    }
  }

  lemma CountConcat(x: seq<nat>, a: seq<nat>, b: seq<nat>, c: nat)
    requires x == a + b
    ensures multiset(x)[c] == multiset(a)[c] + multiset(b)[c]
  {
  }

  /** The todo at the top of the line of descent of `c`. */
  ghost function Root(subs: Subtasks, c: nat): (r: nat)
    requires Forward(subs)
    ensures !IsChild(subs, r) && Above(subs, r, c)
    decreases c
  {
    if IsChild(subs, c) then Root(subs, Parent(subs, c)) else c
  }

  lemma {:induction false} OneRoot(subs: Subtasks, r: nat, c: nat)
    requires Forward(subs) && !IsChild(subs, r) && Above(subs, r, c)
    ensures r == Root(subs, c)
    decreases c
  {
    if c != r {
      OneRoot(subs, r, Parent(subs, c));
    }
  }

  /** Walking from a list of todos none of which is a subtask reaches every todo
      whose top ancestor is in the list, once. */
  lemma {:induction false} NodesOfAllCount(subs: Subtasks, xs: seq<nat>, c: nat)
    requires IsForest(subs) && forall i :: 0 <= i < |xs| ==> xs[i] < |subs| && !IsChild(subs, xs[i])
    requires forall a, b :: 0 <= a < b < |xs| ==> xs[a] != xs[b]
    ensures multiset(NodesOfAll(subs, xs))[c] == if Root(subs, c) in xs then 1 else 0
  {
    if xs != [] {
      NodesCount(subs, xs[0], c);
      NodesOfAllCount(subs, xs[1..], c);
      if Above(subs, xs[0], c) {
        OneRoot(subs, xs[0], c);
        assert Root(subs, c) !in xs[1..] by {
          forall i | 0 <= i < |xs[1..]|
            ensures xs[1..][i] != xs[0]
          {
            assert xs[1..][i] == xs[i + 1];
          }
        }
      } else {
        assert Root(subs, c) != xs[0];
        assert Root(subs, c) in xs <==> Root(subs, c) in xs[1..] by {
          assert xs == [xs[0]] + xs[1..];
        }
      }
    }
  }
}
