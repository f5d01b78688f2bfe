/**
 * `FileTodoParser`: from the content of one file to its todos, each with its subtasks
 * nested inside it, and only the todos that are nobody's subtask at the top.
 */
module FileTodoParser {
  import opened Wrappers
  import opened Strings
  import opened TodoItems
  import opened LineFormat
  import opened LineOperations
  import opened TodoTree
  import opened TodoForest

  // ---------------------------------------------------------------------------
  // `removeSubtasksFromTree`

  /** `0, 1, …, n - 1`: the todo objects, in list order. */
  function Range(n: nat): (r: seq<nat>)
    ensures |r| == n && forall i :: 0 <= i < n ==> r[i] == i
  {
    seq(n, i => i)
  }

  /** The subtask lists of the todos before position `i`, one after the other. */
  function SubtaskList(subs: Subtasks, i: nat): seq<nat>
    requires i <= |subs|
  {
    if i == 0 then [] else SubtaskList(subs, i - 1) + (if subs[i - 1].Some? then subs[i - 1].value else [])
  }

  /** Every todo that is somebody's subtask. */
  ghost function Children(subs: Subtasks): set<nat> {
    set j, k | 0 <= j < |subs| && subs[j].Some? && 0 <= k < |subs[j].value| :: subs[j].value[k]
  }

  predicate NoDuplicates(xs: seq<nat>) {
    forall a, b :: 0 <= a < b < |xs| ==> xs[a] != xs[b]
  }

  /** `xs` without the members of `out`, in order. */
  function Keep(xs: seq<nat>, out: set<nat>): (r: seq<nat>)
    ensures forall x :: x in r <==> x in xs && x !in out
  {
    if xs == [] then []
    else (if xs[0] in out then [] else [xs[0]]) + Keep(xs[1..], out)
  }

  /** The todos that are nobody's subtask, in list order. */
  ghost function Roots(subs: Subtasks): seq<nat> {
    Keep(Range(|subs|), Children(subs))
  }

  /** `findIndex(t => t === x)`: the first position holding `x`, or -1. */
  function FindIndex(xs: seq<nat>, x: nat): (r: int)
    ensures -1 <= r < |xs|
    ensures r == -1 <==> x !in xs
    ensures r >= 0 ==> xs[r] == x && x !in xs[..r]
  {
    if xs == [] then -1
    else if xs[0] == x then 0
    else
      var r := FindIndex(xs[1..], x);
      assert r >= 0 ==> xs[1..][..r] == xs[1..r + 1];
      if r == -1 then -1 else r + 1
  }

  /** `xs.splice(idx, 1)`: a position counted from the end when negative, so that -1
      removes the last element. */
  function Splice(xs: seq<nat>, idx: int): (r: seq<nat>)
    requires -1 <= idx < |xs|
  {
    if idx >= 0 then xs[..idx] + xs[idx + 1..]
    else if |xs| > 0 then xs[..|xs| - 1]
    else xs
  }

  lemma SubtaskListMembers(subs: Subtasks, i: nat, x: nat)
    requires i <= |subs|
    ensures x in SubtaskList(subs, i) <==> exists j: nat, k: nat :: j < i && Entry(subs, j, k) && subs[j].value[k] == x
  {
    if i > 0 {
      SubtaskListMembers(subs, i - 1, x);
      var tail := if subs[i - 1].Some? then subs[i - 1].value else [];
      if x in tail {
        var k :| 0 <= k < |tail| && tail[k] == x;
        assert Entry(subs, i - 1, k);
      }
    }
  }

  lemma {:induction false} SubtaskListDistinct(subs: Subtasks, i: nat)
    requires i <= |subs| && Ordered(subs) && Unique(subs)
    ensures NoDuplicates(SubtaskList(subs, i))
  {
    if i > 0 {
      SubtaskListDistinct(subs, i - 1);
      var head := SubtaskList(subs, i - 1);
      var tail := if subs[i - 1].Some? then subs[i - 1].value else [];
      forall a, b | 0 <= a < b < |tail|
        ensures tail[a] != tail[b]
      {
        assert Entry(subs, i - 1, a) && Entry(subs, i - 1, b);
      }
      forall a, b | 0 <= a < |head| && 0 <= b < |tail|
        ensures head[a] != tail[b]
      {
        SubtaskListMembers(subs, i - 1, head[a]);
        assert Entry(subs, i - 1, b);
      }
      var r := head + tail;
      forall a, b | 0 <= a < b < |r|
        ensures r[a] != r[b]
      {
        if b < |head| {
        } else if a >= |head| {
          assert r[a] == tail[a - |head|] && r[b] == tail[b - |head|];
        } else {
          assert r[b] == tail[b - |head|];
        }
      }
    }
  }

  lemma SubtaskListChildren(subs: Subtasks)
    ensures forall x :: x in SubtaskList(subs, |subs|) <==> x in Children(subs)
  {
    forall x
      ensures x in SubtaskList(subs, |subs|) <==> x in Children(subs)
    {
      SubtaskListMembers(subs, |subs|, x);
      if x in Children(subs) {
        var j, k :| 0 <= j < |subs| && subs[j].Some? && 0 <= k < |subs[j].value| && subs[j].value[k] == x;
        assert Entry(subs, j, k);
      }
    }
  }

  /** The first occurrence of `x` taken out. */
  function RemoveFirst(xs: seq<nat>, x: nat): seq<nat> {
    if xs == [] then []
    else if xs[0] == x then xs[1..]
    else [xs[0]] + RemoveFirst(xs[1..], x)
  }

  lemma {:induction false} SpliceFound(xs: seq<nat>, x: nat)
    requires x in xs
    ensures Splice(xs, FindIndex(xs, x)) == RemoveFirst(xs, x)
  {
    if xs[0] != x {
      SpliceFound(xs[1..], x);
      var r := FindIndex(xs[1..], x);
      assert FindIndex(xs, x) == r + 1;
      SpliceCons(xs, r);
    }
  }

  lemma SpliceCons(xs: seq<nat>, r: nat)
    requires r + 1 < |xs|
    ensures Splice(xs, r + 1) == [xs[0]] + Splice(xs[1..], r)
  {
    var t := xs[1..];
    var a, b := t[..r], t[r + 1..];
    assert xs[..r + 1] == [xs[0]] + a;
    assert xs[r + 2..] == b;
    assert ([xs[0]] + a) + b == [xs[0]] + (a + b);
  }

  /** Taking one more member out of a sequence without duplicates removes its one
      occurrence from what was kept. */
  lemma {:induction false} KeepOneMore(xs: seq<nat>, out: set<nat>, x: nat)
    requires NoDuplicates(xs) && x in xs && x !in out
    ensures Keep(xs, out + {x}) == RemoveFirst(Keep(xs, out), x)
  {
    assert NoDuplicates(xs[1..]) by {
      forall a, b | 0 <= a < b < |xs[1..]|
        ensures xs[1..][a] != xs[1..][b]
      {
        assert xs[1..][a] == xs[a + 1] && xs[1..][b] == xs[b + 1];
      }
    }
    if xs[0] == x {
      assert x !in xs[1..] by {
        forall a | 0 <= a < |xs[1..]|
          ensures xs[1..][a] != x
        {
          assert xs[1..][a] == xs[a + 1];
        }
      }
      KeepWithout(xs[1..], out, x);
    } else {
      assert x in xs[1..];
      KeepOneMore(xs[1..], out, x);
      var k := Keep(xs[1..], out);
      if xs[0] !in out {
        assert ([xs[0]] + k)[1..] == k;
      } else {
        assert [] + k == k;
      }
    }
  }

  lemma {:induction false} KeepNothing(xs: seq<nat>)
    ensures Keep(xs, {}) == xs
  {
    if xs != [] {
      KeepNothing(xs[1..]);
    }
  }

  lemma {:induction false} KeepWithout(xs: seq<nat>, out: set<nat>, x: nat)
    requires x !in xs
    ensures Keep(xs, out + {x}) == Keep(xs, out)
  {
    if xs != [] {
      KeepWithout(xs[1..], out, x);
    }
  }

  /** One splice of the second loop: the next subtask is still in the list, and
      splicing it out at the position `findIndex` gives keeps one more member out. */
  lemma SpliceStep(subs: Subtasks, toRemove: seq<nat>, t: nat, removed: set<nat>, todos: seq<nat>)
    requires forall j: nat, k: nat :: Entry(subs, j, k) ==> subs[j].value[k] < |subs|
    requires toRemove == SubtaskList(subs, |subs|) && NoDuplicates(toRemove) && t < |toRemove|
    requires forall y :: y in removed <==> y in toRemove[..t]
    requires todos == Keep(Range(|subs|), removed)
    ensures Splice(todos, FindIndex(todos, toRemove[t])) == Keep(Range(|subs|), removed + {toRemove[t]})
  {
    var x := toRemove[t];
    assert x !in removed;
    SubtaskListMembers(subs, |subs|, x);
    assert Range(|subs|)[x] == x;
    SpliceFound(todos, x);
    KeepOneMore(Range(|subs|), removed, x);
  }

  /** The set of subtasks spliced out so far grows with the prefix of the list. */
  lemma RemovedStep(toRemove: seq<nat>, t: nat, removed: set<nat>)
    requires t < |toRemove| && forall y :: y in removed <==> y in toRemove[..t]
    ensures forall y :: y in removed + {toRemove[t]} <==> y in toRemove[..t + 1]
  {
    assert toRemove[..t + 1] == toRemove[..t] + [toRemove[t]];
  }

  /** `removeSubtasksFromTree(todos)`: collect the subtasks of every todo, then splice
      each of them out of the list at the position `findIndex` gives. Every subtask is
      found, as no todo is the subtask of two todos, so what is left is exactly the
      todos that are nobody's subtask, in their original order. */
  method RemoveSubtasksFromTree(subs: Subtasks) returns (todos: seq<nat>)
    requires Ordered(subs) && Unique(subs)
    requires forall j: nat, k: nat :: Entry(subs, j, k) ==> subs[j].value[k] < |subs|
    ensures todos == Roots(subs)
  {
    todos := Range(|subs|);
    var toRemove: seq<nat> := [];
    for i := 0 to |subs|
      invariant toRemove == SubtaskList(subs, i)
    {
      if subs[i].Some? {
        toRemove := toRemove + subs[i].value;
      }
    }
    SubtaskListDistinct(subs, |subs|);
    SubtaskListChildren(subs);
    ghost var removed: set<nat> := {};
    KeepNothing(Range(|subs|));
    for t := 0 to |toRemove|
      invariant forall y :: y in removed <==> y in toRemove[..t]
      invariant todos == Keep(Range(|subs|), removed)
    {
      var x := toRemove[t];
      SpliceStep(subs, toRemove, t, removed, todos);
      var idx := FindIndex(todos, x);
      todos := Splice(todos, idx);
      RemovedStep(toRemove, t, removed);
      removed := removed + {x};
    }
    assert toRemove[..|toRemove|] == toRemove;
    assert removed == Children(subs);
  }

  // ---------------------------------------------------------------------------
  // The todos that are nobody's subtask reach every todo exactly once

  lemma TreeIsForest(lines: seq<string>, rs: seq<TodoParsingResult>, subs: Subtasks)
    requires |rs| <= |lines| && TreeInv(lines, rs, |rs|, subs)
    ensures IsForest(subs)
  {
    forall j: nat, k: nat | Entry(subs, j, k)
      ensures j < subs[j].value[k] < |subs|
    {
      assert ChildOk(lines, rs, j, subs[j].value[k]);
    }
  }

  lemma ChildrenAreChildren(subs: Subtasks, c: nat)
    ensures c in Children(subs) <==> IsChild(subs, c)
  {
    if c in Children(subs) {
      var j, k :| 0 <= j < |subs| && subs[j].Some? && 0 <= k < |subs[j].value| && subs[j].value[k] == c;
      assert Entry(subs, j, k);
    }
  }

  lemma {:induction false} KeepDistinct(xs: seq<nat>, out: set<nat>)
    requires NoDuplicates(xs)
    ensures NoDuplicates(Keep(xs, out))
  {
    if xs != [] {
      assert NoDuplicates(xs[1..]) by {
        forall a, b | 0 <= a < b < |xs[1..]|
          ensures xs[1..][a] != xs[1..][b]
        {
          assert xs[1..][a] == xs[a + 1] && xs[1..][b] == xs[b + 1];
        }
      }
      KeepDistinct(xs[1..], out);
      assert xs[0] !in xs[1..] by {
        forall a | 0 <= a < |xs[1..]|
          ensures xs[1..][a] != xs[0]
        {
          assert xs[1..][a] == xs[a + 1];
        }
      }
    }
  }

  lemma {:induction false} RangeCount(n: nat, c: nat)
    ensures multiset(Range(n))[c] == if c < n then 1 else 0
  {
    if n > 0 {
      RangeCount(n - 1, c);
      assert Range(n) == Range(n - 1) + [n - 1];
    }
  }

  /** Each todo of the list is reached exactly once from the todos that are nobody's
      subtask, and nothing else is reached. */
  lemma RootsReachAll(subs: Subtasks)
    requires IsForest(subs)
    ensures forall i :: 0 <= i < |Roots(subs)| ==> Roots(subs)[i] < |subs|
    ensures multiset(NodesOfAll(subs, Roots(subs))) == multiset(Range(|subs|))
  {
    var roots := Roots(subs);
    forall i | 0 <= i < |roots|
      ensures roots[i] < |subs| && !IsChild(subs, roots[i])
    {
      assert roots[i] in roots;
      ChildrenAreChildren(subs, roots[i]);
    }
    forall a, b | 0 <= a < b < |Range(|subs|)|
      ensures Range(|subs|)[a] != Range(|subs|)[b]
    {
    }
    KeepDistinct(Range(|subs|), Children(subs));
    forall c: nat
      ensures multiset(NodesOfAll(subs, roots))[c] == multiset(Range(|subs|))[c]
    {
      NodesOfAllCount(subs, roots, c);
      RangeCount(|subs|, c);
      RootIsRoot(subs, c);
    }
  }

  lemma RootIsRoot(subs: Subtasks, c: nat)
    requires IsForest(subs)
    ensures Root(subs, c) in Roots(subs) <==> c < |subs|
  {
    var r := Root(subs, c);
    AboveBelow(subs, r, c);
    ChildrenAreChildren(subs, r);
    if c < |subs| {
      assert Range(|subs|)[r] == r;
    } else {
      assert !IsChild(subs, c);
    }
  }

  // ---------------------------------------------------------------------------
  // The todos with their subtasks nested inside them

  /** Todo `j` as the linked objects show it: its `subtasks` array holds the todos the
      tree gave it, each with its own subtasks inside. */
  function Tree(items: seq<TodoItem>, subs: Subtasks, j: nat): TodoItem
    requires Forward(subs) && |items| == |subs| && j < |subs|
    decreases |subs| - j, 1
  {
    if subs[j].Some? then items[j].(subtasks := HasSubtasks(TreeList(items, subs, j, subs[j].value, 0)))
    else items[j]
  }

  function TreeList(items: seq<TodoItem>, subs: Subtasks, p: nat, cs: seq<nat>, k: nat): (r: seq<TodoItem>)
    requires Forward(subs) && |items| == |subs| && p < |subs| && subs[p] == Some(cs) && k <= |cs|
    ensures |r| == |cs| - k
    decreases |subs| - p, 0, |cs| - k
  {
    if k == |cs| then []
    else
      assert Entry(subs, p, k);
      [Tree(items, subs, cs[k])] + TreeList(items, subs, p, cs, k + 1)
  }

  function Forest(items: seq<TodoItem>, subs: Subtasks, xs: seq<nat>): (r: seq<TodoItem>)
    requires Forward(subs) && |items| == |subs| && forall i :: 0 <= i < |xs| ==> xs[i] < |subs|
    ensures |r| == |xs|
  {
    if xs == [] then [] else [Tree(items, subs, xs[0])] + Forest(items, subs, xs[1..])
  }

  /** A nested todo with its subtasks taken off, followed by everything nested under
      it, each todo before its own subtasks. */
  function FlatOne(t: TodoItem): seq<TodoItem>
    decreases t, 1
  {
    [t.(subtasks := NoSubtasks)] + (if t.subtasks.HasSubtasks? then FlatFrom(t, 0) else [])
  }

  function FlatFrom(t: TodoItem, k: nat): seq<TodoItem>
    requires t.subtasks.HasSubtasks? && k <= |t.subtasks.todos|
    decreases t, 0, |t.subtasks.todos| - k
  {
    if k == |t.subtasks.todos| then []
    else
      assert t.subtasks.todos[k] in t.subtasks.todos;
      FlatOne(t.subtasks.todos[k]) + FlatFrom(t, k + 1)
  }

  /** Every todo of a list of nested todos. */
  function Flat(ts: seq<TodoItem>): seq<TodoItem> {
    if ts == [] then [] else FlatOne(ts[0]) + Flat(ts[1..])
  }

  /** The todos at the given positions. */
  function Pick(items: seq<TodoItem>, idx: seq<nat>): (r: seq<TodoItem>)
    requires forall i :: 0 <= i < |idx| ==> idx[i] < |items|
    ensures |r| == |idx| && forall i :: 0 <= i < |idx| ==> r[i] == items[idx[i]]
  {
    seq(|idx|, i requires 0 <= i < |idx| => items[idx[i]])
  }

  lemma PickConcat(items: seq<TodoItem>, a: seq<nat>, b: seq<nat>)
    requires forall i :: 0 <= i < |a| ==> a[i] < |items|
    requires forall i :: 0 <= i < |b| ==> b[i] < |items|
    ensures Pick(items, a + b) == Pick(items, a) + Pick(items, b)
  {
  }

  ghost predicate Bare(items: seq<TodoItem>) {
    forall i :: 0 <= i < |items| ==> items[i].subtasks == NoSubtasks
  }

  lemma {:induction false} TreeListAt(items: seq<TodoItem>, subs: Subtasks, p: nat, cs: seq<nat>, k: nat, i: nat)
    requires Forward(subs) && |items| == |subs| && p < |subs| && subs[p] == Some(cs) && k <= i < |cs|
    ensures Entry(subs, p, i) && TreeList(items, subs, p, cs, k)[i - k] == Tree(items, subs, cs[i])
    decreases i - k
  {
    assert Entry(subs, p, i);
    if k < i {
      TreeListAt(items, subs, p, cs, k + 1, i);
    }
  }

  /** Flattening a nested todo gives the todos of the walk from it. */
  lemma {:induction false} FlatTree(items: seq<TodoItem>, subs: Subtasks, j: nat)
    requires Forward(subs) && |items| == |subs| && j < |subs| && Bare(items)
    ensures FlatOne(Tree(items, subs, j)) == Pick(items, Nodes(subs, j))
    decreases |subs| - j, 1
  {
    var t := Tree(items, subs, j);
    assert t.(subtasks := NoSubtasks) == items[j];
    if subs[j].Some? {
      FlatTreeFrom(items, subs, j, 0);
      PickConcat(items, [j], NodesOfList(subs, j, subs[j].value, 0));
    }
  }

  lemma {:induction false} FlatTreeFrom(items: seq<TodoItem>, subs: Subtasks, p: nat, k: nat)
    requires Forward(subs) && |items| == |subs| && p < |subs| && subs[p].Some? && Bare(items)
    requires k <= |subs[p].value|
    ensures FlatFrom(Tree(items, subs, p), k) == Pick(items, NodesOfList(subs, p, subs[p].value, k))
    decreases |subs| - p, 0, |subs[p].value| - k
  {
    var cs := subs[p].value;
    if k < |cs| {
      TreeListAt(items, subs, p, cs, 0, k);
      FlatTree(items, subs, cs[k]);
      FlatTreeFrom(items, subs, p, k + 1);
      PickConcat(items, Nodes(subs, cs[k]), NodesOfList(subs, p, cs, k + 1));
    }
  }

  lemma {:induction false} FlatForest(items: seq<TodoItem>, subs: Subtasks, xs: seq<nat>)
    requires Forward(subs) && |items| == |subs| && Bare(items)
    requires forall i :: 0 <= i < |xs| ==> xs[i] < |subs|
    ensures Flat(Forest(items, subs, xs)) == Pick(items, NodesOfAll(subs, xs))
  {
    if xs != [] {
      var f := Forest(items, subs, xs);
      assert f[0] == Tree(items, subs, xs[0]) && f[1..] == Forest(items, subs, xs[1..]);
      FlatTree(items, subs, xs[0]);
      FlatForest(items, subs, xs[1..]);
      PickConcat(items, Nodes(subs, xs[0]), NodesOfAll(subs, xs[1..]));
    }
  }

  /** Picking the positions of a permutation picks a permutation. */
  lemma {:induction false} PickPermutation(items: seq<TodoItem>, a: seq<nat>, b: seq<nat>)
    requires forall i :: 0 <= i < |a| ==> a[i] < |items|
    requires forall i :: 0 <= i < |b| ==> b[i] < |items|
    requires multiset(a) == multiset(b)
    ensures multiset(Pick(items, a)) == multiset(Pick(items, b))
    decreases |a|
  {
    if a != [] {
      assert a[0] in multiset(b);
      var i :| 0 <= i < |b| && b[i] == a[0];
      Unpick(a, b, i);
      PickPermutation(items, a[1..], b[..i] + b[i + 1..]);
      PermutationStep(items, a, b, i);
    } else {
      assert |b| == |multiset(b)| == 0;
    }
  }

  lemma PermutationStep(items: seq<TodoItem>, a: seq<nat>, b: seq<nat>, i: nat)
    requires forall k :: 0 <= k < |a| ==> a[k] < |items|
    requires forall k :: 0 <= k < |b| ==> b[k] < |items|
    requires |a| > 0 && i < |b| && b[i] == a[0]
    requires multiset(Pick(items, a[1..])) == multiset(Pick(items, b[..i] + b[i + 1..]))
    ensures multiset(Pick(items, a)) == multiset(Pick(items, b))
  {
    PickCut(items, b, i);
    PickHead(items, a);
  }

  lemma PickHead(items: seq<TodoItem>, a: seq<nat>)
    requires forall k :: 0 <= k < |a| ==> a[k] < |items|
    requires |a| > 0
    ensures multiset(Pick(items, a)) == multiset(Pick(items, a[1..])) + multiset{items[a[0]]}
  {
    var p := Pick(items, a);
    assert p == [p[0]] + p[1..];
    assert Pick(items, a[1..]) == p[1..];
  }

  lemma Unpick(a: seq<nat>, b: seq<nat>, i: nat)
    requires |a| > 0 && i < |b| && b[i] == a[0] && multiset(a) == multiset(b)
    ensures multiset(a[1..]) == multiset(b[..i] + b[i + 1..])
  {
    var x := a[0];
    assert b == b[..i] + [x] + b[i + 1..];
    assert a == [x] + a[1..];
    var rest := b[..i] + b[i + 1..];
    assert multiset(rest) == multiset(b[..i]) + multiset(b[i + 1..]);
    assert multiset(b) == multiset(rest) + multiset{x};
    assert multiset(a) == multiset(a[1..]) + multiset{x};
    assert multiset(a[1..]) == multiset(a) - multiset{x};
    assert multiset(rest) == multiset(b) - multiset{x};
  }

  /** The todo picked at position `i` and the rest. */
  lemma PickCut(items: seq<TodoItem>, b: seq<nat>, i: nat)
    requires forall k :: 0 <= k < |b| ==> b[k] < |items|
    requires i < |b|
    ensures multiset(Pick(items, b)) == multiset(Pick(items, b[..i] + b[i + 1..])) + multiset{items[b[i]]}
  {
    var p := Pick(items, b);
    assert p == p[..i] + [p[i]] + p[i + 1..];
    assert Pick(items, b[..i] + b[i + 1..]) == p[..i] + p[i + 1..];
  }

  // ---------------------------------------------------------------------------
  // `parseMdFileAsync`

  /** `lines.map((line, number) => toTodo(line, number))`, with the parser's settings
      left unset. */
  function ParseResults(lines: seq<string>): (rs: seq<TodoParsingResult>)
    ensures |rs| == |lines|
  {
    seq(|lines|, n requires 0 <= n < |lines| => ToTodo(None, lines[n], Some(n)))
  }

  /** Which lines have a checkbox. */
  function Checkboxes(lines: seq<string>): (marks: seq<bool>)
    ensures |marks| == |lines|
  {
    seq(|lines|, m requires 0 <= m < |lines| => ParseLine(lines[m]).checkbox != "")
  }

  /** `parsingResults.filter(r => r.isTodo)`. */
  function FilterTodos(rs: seq<TodoParsingResult>): (r: seq<TodoParsingResult>)
    ensures |r| <= |rs|
    ensures forall x :: x in r <==> x in rs && x.isTodo
  {
    if rs == [] then []
    else (if rs[0].isTodo then [rs[0]] else []) + FilterTodos(rs[1..])
  }

  /** `todoParsingResults.map(result => result.todo)`, with the file set on each. */
  function Attach(rs: seq<TodoParsingResult>, file: FileRef): (r: seq<TodoItem>)
    requires forall k :: 0 <= k < |rs| ==> rs[k].todo.Some?
    ensures |r| == |rs|
  {
    seq(|rs|, k requires 0 <= k < |rs| => rs[k].todo.value.(file := Some(file)))
  }

  /** What `toTodo(lines[m], m)` gives: the number `m`, a todo exactly when the line
      has a checkbox, and that todo without file or subtasks, at line `m`. */
  ghost predicate ResultOf(marks: seq<bool>, r: TodoParsingResult, m: nat) {
    && m < |marks| && r.lineNumber == Some(m)
    && (r.isTodo <==> marks[m])
    && (r.isTodo ==> r.todo.Some? && r.todo.value.file.None? && r.todo.value.line == Some(m) && r.todo.value.subtasks == NoSubtasks)
  }

  ghost predicate ResultsOf(marks: seq<bool>, ps: seq<TodoParsingResult>, n: nat) {
    forall k :: 0 <= k < |ps| ==> ResultOf(marks, ps[k], n + k)
  }

  lemma ParseResultsOf(lines: seq<string>)
    ensures ResultsOf(Checkboxes(lines), ParseResults(lines), 0)
  {
    forall k | 0 <= k < |lines|
      ensures ResultOf(Checkboxes(lines), ParseResults(lines)[k], k)
    {
      ToTodoBare(None, lines[k], Some(k));
    }
  }

  /** Every result the filter keeps is a todo fresh from a line with a checkbox. */
  lemma FilteredSome(marks: seq<bool>, ps: seq<TodoParsingResult>, n: nat)
    requires ResultsOf(marks, ps, n)
    ensures forall k :: 0 <= k < |FilterTodos(ps)| ==> FilterTodos(ps)[k].todo.Some?
    ensures forall k :: 0 <= k < |FilterTodos(ps)| ==> Kept(marks, FilterTodos(ps)[k])
  {
    var rs := FilterTodos(ps);
    forall k | 0 <= k < |rs|
      ensures rs[k].todo.Some? && Kept(marks, rs[k])
    {
      assert rs[k] in rs;
      var i :| 0 <= i < |ps| && ps[i] == rs[k];
      assert ResultOf(marks, ps[i], n + i);
    }
  }

  ghost predicate Kept(marks: seq<bool>, r: TodoParsingResult) {
    && r.isTodo && r.todo.Some? && r.lineNumber.Some? && r.lineNumber.value < |marks|
    && marks[r.lineNumber.value] && r.todo.value.subtasks == NoSubtasks
  }

  /** The todos of a file, in line order, each with the file set: what the parser
      returns once the subtasks are flattened back out. */
  function FileTodos(file: FileRef, content: string): seq<TodoItem> {
    var lines := Split(content, "\n");
    ParseResultsOf(lines);
    FilteredSome(Checkboxes(lines), ParseResults(lines), 0);
    Attach(FilterTodos(ParseResults(lines)), file)
  }

  /** The todos read from the lines `n` on are exactly those of the lines with a
      checkbox, in line order, each with the file, no subtasks and its line's number. */
  ghost predicate TodosOfLines(marks: seq<bool>, ts: seq<TodoItem>, file: FileRef, n: nat) {
    EachFromLine(marks, ts, file, n) && EveryLine(marks, ts, n) && InLineOrder(ts)
  }

  ghost predicate EachFromLine(marks: seq<bool>, ts: seq<TodoItem>, file: FileRef, n: nat) {
    forall k :: 0 <= k < |ts| ==>
      && ts[k].file == Some(file) && ts[k].subtasks == NoSubtasks
      && ts[k].line.Some? && n <= ts[k].line.value < |marks| && marks[ts[k].line.value]
  }

  ghost predicate EveryLine(marks: seq<bool>, ts: seq<TodoItem>, n: nat) {
    forall m :: n <= m < |marks| && marks[m] ==> exists k :: 0 <= k < |ts| && ts[k].line == Some(m)
  }

  ghost predicate InLineOrder(ts: seq<TodoItem>) {
    forall a, b :: 0 <= a < b < |ts| ==> ts[a].line.Some? && ts[b].line.Some? && ts[a].line.value < ts[b].line.value
  }

  lemma {:induction false} FilteredSpec(file: FileRef, marks: seq<bool>, ps: seq<TodoParsingResult>, n: nat)
    requires ResultsOf(marks, ps, n) && n + |ps| == |marks|
    ensures forall k :: 0 <= k < |FilterTodos(ps)| ==> FilterTodos(ps)[k].todo.Some?
    ensures TodosOfLines(marks, Attach(FilterTodos(ps), file), file, n)
    decreases |ps|
  {
    FilteredSome(marks, ps, n);
    if ps != [] {
      assert ResultsOf(marks, ps[1..], n + 1) by {
        forall k | 0 <= k < |ps[1..]|
          ensures ResultOf(marks, ps[1..][k], n + 1 + k)
        {
          assert ps[1..][k] == ps[k + 1];
        }
      }
      FilteredSpec(file, marks, ps[1..], n + 1);
      assert ResultOf(marks, ps[0], n);
      var t := Attach(FilterTodos(ps[1..]), file);
      if ps[0].isTodo {
        assert FilterTodos(ps) == [ps[0]] + FilterTodos(ps[1..]);
        AttachCons(ps[0], FilterTodos(ps[1..]), file);
        TodosOfLinesCons(marks, ps[0].todo.value.(file := Some(file)), t, file, n);
      } else {
        assert FilterTodos(ps) == FilterTodos(ps[1..]);
        TodosOfLinesSkip(marks, t, file, n);
      }
    }
  }

  lemma AttachCons(r: TodoParsingResult, rs: seq<TodoParsingResult>, file: FileRef)
    requires r.todo.Some? && forall k :: 0 <= k < |rs| ==> rs[k].todo.Some?
    ensures Attach([r] + rs, file) == [r.todo.value.(file := Some(file))] + Attach(rs, file)
  {
  }

  lemma TodosOfLinesCons(marks: seq<bool>, x: TodoItem, t: seq<TodoItem>, file: FileRef, n: nat)
    requires n < |marks| && marks[n] && TodosOfLines(marks, t, file, n + 1)
    requires x.file == Some(file) && x.subtasks == NoSubtasks && x.line == Some(n)
    ensures TodosOfLines(marks, [x] + t, file, n)
  {
    EachFromLineCons(marks, x, t, file, n);
    EveryLineCons(marks, x, t, n);
    InLineOrderCons(x, t, n);
  }

  lemma EachFromLineCons(marks: seq<bool>, x: TodoItem, t: seq<TodoItem>, file: FileRef, n: nat)
    requires n < |marks| && marks[n] && EachFromLine(marks, t, file, n + 1)
    requires x.file == Some(file) && x.subtasks == NoSubtasks && x.line == Some(n)
    ensures EachFromLine(marks, [x] + t, file, n)
  {
    var ts := [x] + t;
    forall k | 0 < k < |ts|
      ensures ts[k] == t[k - 1]
    {
    }
  }

  lemma EveryLineCons(marks: seq<bool>, x: TodoItem, t: seq<TodoItem>, n: nat)
    requires n < |marks| && EveryLine(marks, t, n + 1) && x.line == Some(n)
    ensures EveryLine(marks, [x] + t, n)
  {
    var ts := [x] + t;
    forall m | n <= m < |marks| && marks[m]
      ensures exists k :: 0 <= k < |ts| && ts[k].line == Some(m)
    {
      if m == n {
        assert ts[0].line == Some(m);
      } else {
        var k :| 0 <= k < |t| && t[k].line == Some(m);
        assert ts[k + 1] == t[k];
      }
    }
  }

  lemma InLineOrderCons(x: TodoItem, t: seq<TodoItem>, n: nat)
    requires InLineOrder(t) && x.line == Some(n)
    requires forall k :: 0 <= k < |t| ==> t[k].line.Some? && n < t[k].line.value
    ensures InLineOrder([x] + t)
  {
    var ts := [x] + t;
    forall a, b | 0 <= a < b < |ts|
      ensures ts[a].line.Some? && ts[b].line.Some? && ts[a].line.value < ts[b].line.value
    {
      assert ts[b] == t[b - 1];
      if a > 0 {
        assert ts[a] == t[a - 1];
      }
    }
  }

  lemma TodosOfLinesSkip(marks: seq<bool>, t: seq<TodoItem>, file: FileRef, n: nat)
    requires n < |marks| && !marks[n] && TodosOfLines(marks, t, file, n + 1)
    ensures TodosOfLines(marks, t, file, n)
  {
  }

  /** The todos of a file come one from each line with a checkbox, in line order, each
      with the file and its line's number and without subtasks. */
  lemma FileTodosSpec(file: FileRef, content: string)
    ensures TodosOfLines(Checkboxes(Split(content, "\n")), FileTodos(file, content), file, 0)
  {
    var lines := Split(content, "\n");
    ParseResultsOf(lines);
    FilteredSpec(file, Checkboxes(lines), ParseResults(lines), 0);
  }

  /** `todos.forEach(todo => todo.file = file)`. */
  method AssignFile(items: seq<TodoItem>, file: FileRef) returns (r: seq<TodoItem>)
    ensures |r| == |items|
    ensures forall k :: 0 <= k < |r| ==> r[k] == items[k].(file := Some(file))
  {
    r := items;
    for k := 0 to |r|
      invariant |r| == |items|
      invariant forall i :: 0 <= i < k ==> r[i] == items[i].(file := Some(file))
      invariant forall i :: k <= i < |r| ==> r[i] == items[i]
    {
      r := r[k := r[k].(file := Some(file))];
    }
  }

  predicate Increasing(xs: seq<nat>) {
    forall a, b :: 0 <= a < b < |xs| ==> xs[a] < xs[b]
  }

  lemma {:induction false} KeepIncreasing(xs: seq<nat>, out: set<nat>)
    requires Increasing(xs)
    ensures Increasing(Keep(xs, out))
  {
    if xs != [] {
      assert Increasing(xs[1..]) by {
        forall a, b | 0 <= a < b < |xs[1..]|
          ensures xs[1..][a] < xs[1..][b]
        {
          assert xs[1..][a] == xs[a + 1] && xs[1..][b] == xs[b + 1];
        }
      }
      KeepIncreasing(xs[1..], out);
      var t := Keep(xs[1..], out);
      forall x | x in t
        ensures xs[0] < x
      {
        var k :| 0 <= k < |xs[1..]| && xs[1..][k] == x;
        assert x == xs[k + 1];
      }
      if xs[0] !in out {
        assert Keep(xs, out) == [xs[0]] + t;
        IncreasingCons(xs[0], t);
      } else {
        assert Keep(xs, out) == t;
      }
    }
  }

  lemma IncreasingCons(x: nat, t: seq<nat>)
    requires Increasing(t)
    requires forall y :: y in t ==> x < y
    ensures Increasing([x] + t)
  {
    var r := [x] + t;
    forall a, b | 0 <= a < b < |r|
      ensures r[a] < r[b]
    {
      assert r[b] == t[b - 1];
      if a > 0 {
        assert r[a] == t[a - 1];
      } else {
        assert r[b] in t;
      }
    }
  }

  lemma ForestTopLevel(items: seq<TodoItem>, subs: Subtasks, xs: seq<nat>)
    requires Forward(subs) && |items| == |subs| && forall i :: 0 <= i < |xs| ==> xs[i] < |subs|
    requires InLineOrder(items) && Increasing(xs)
    ensures InLineOrder(Forest(items, subs, xs))
  {
    forall i | 0 <= i < |xs|
      ensures Forest(items, subs, xs)[i].line == items[xs[i]].line
    {
      ForestAt(items, subs, xs, i);
    }
  }

  lemma {:induction false} ForestAt(items: seq<TodoItem>, subs: Subtasks, xs: seq<nat>, i: nat)
    requires Forward(subs) && |items| == |subs| && forall i :: 0 <= i < |xs| ==> xs[i] < |subs|
    requires i < |xs|
    ensures Forest(items, subs, xs)[i] == Tree(items, subs, xs[i])
  {
    if i > 0 {
      ForestAt(items, subs, xs[1..], i - 1);
    }
  }

  /** The todos that are nobody's subtask, each with its subtasks nested inside, are
      in line order and, flattened back out, are every todo once. */
  lemma RootForest(items: seq<TodoItem>, subs: Subtasks)
    requires IsForest(subs) && |items| == |subs| && Bare(items) && InLineOrder(items)
    ensures forall i :: 0 <= i < |Roots(subs)| ==> Roots(subs)[i] < |subs|
    ensures multiset(Flat(Forest(items, subs, Roots(subs)))) == multiset(items)
    ensures InLineOrder(Forest(items, subs, Roots(subs)))
  {
    var roots := Roots(subs);
    RootsReachAll(subs);
    FlatForest(items, subs, roots);
    PickPermutation(items, NodesOfAll(subs, roots), Range(|subs|));
    assert Pick(items, Range(|subs|)) == items;
    KeepIncreasing(Range(|subs|), Children(subs));
    ForestTopLevel(items, subs, roots);
  }

  /** `todos` is the forest the subtask lists `subs` make of the todos of `rs`, with
      the file set on each, listing only the todos that are nobody's subtask. */
  ghost predicate Built(file: FileRef, rs: seq<TodoParsingResult>, subs: Subtasks, todos: seq<TodoItem>) {
    && (forall k :: 0 <= k < |rs| ==> rs[k].todo.Some?)
    && |subs| == |rs| && Forward(subs)
    && (forall i :: 0 <= i < |Roots(subs)| ==> Roots(subs)[i] < |subs|)
    && todos == Forest(Attach(rs, file), subs, Roots(subs))
  }

  /** The nesting when no line read is blank: the lists are ordered and each todo after
      the first goes under the nearest earlier todo indented less than it. */
  ghost predicate IntendedNesting(rs: seq<TodoParsingResult>, subs: Subtasks) {
    && |subs| == |rs| && Ordered(subs)
    && forall p: nat, c: nat :: p < |rs| && c < |rs| ==>
      (InList(subs, p, c) <==>
        && 0 < c && p < c && Level(rs, p) < Level(rs, c)
        && forall x :: p < x < c ==> Level(rs, x) >= Level(rs, c))
  }

  /** Each todo's own line, which has a checkbox and so is not blank. */
  function OwnLines(lines: seq<string>, rs: seq<TodoParsingResult>): (own: seq<string>)
    requires forall k :: 0 <= k < |rs| ==> Kept(Checkboxes(lines), rs[k])
    ensures |own| == |rs| && forall k :: 0 <= k < |rs| ==> !Blank(own[k])
  {
    var own := seq(|rs|, k requires 0 <= k < |rs| && Kept(Checkboxes(lines), rs[k]) => lines[rs[k].lineNumber.value]);
    assert forall k :: 0 <= k < |rs| ==> !Blank(own[k]) by {
      forall k | 0 <= k < |rs|
        ensures !Blank(own[k])
      {
        assert Kept(Checkboxes(lines), rs[k]);
        CheckboxLineNotBlank(lines[rs[k].lineNumber.value]);
      }
    }
    own
  }

  lemma IntendedRule(own: seq<string>, rs: seq<TodoParsingResult>, subs: Subtasks)
    requires |rs| <= |own| && Follows(own, rs, subs) && TreeInv(own, rs, |rs|, subs)
    requires forall k :: 0 <= k < |rs| ==> rs[k].isTodo && !Blank(own[k])
    ensures forall i :: 0 < i < |rs| && rs[i].indentLevel > rs[i - 1].indentLevel ==>
      |subs| == |rs| && subs[i - 1].Some? && |subs[i - 1].value| > 0 && subs[i - 1].value[0] == i
    ensures IntendedNesting(rs, subs)
  {
    forall i | 0 < i < |rs| && rs[i].indentLevel > rs[i - 1].indentLevel
      ensures subs[i - 1].Some? && |subs[i - 1].value| > 0 && subs[i - 1].value[0] == i
    {
      DeeperNests(own, rs, subs, i);
    }
    forall p: nat, c: nat | p < |rs| && c < |rs|
      ensures InList(subs, p, c) <==>
        && 0 < c && p < c && Level(rs, p) < Level(rs, c)
        && forall x :: p < x < c ==> Level(rs, x) >= Level(rs, c)
    {
      AttachesToPlain(own, rs, p, c);
    }
  }

  /** What both readings of `parseMdFileAsync` share: build the tree over the todo
      results, reading `treeLines` for the blank test, set the file on every todo and
      keep the todos that are nobody's subtask. */
  method NestTodos(file: FileRef, treeLines: seq<string>, rs: seq<TodoParsingResult>)
    returns (todos: seq<TodoItem>, subs: Subtasks)
    requires |rs| <= |treeLines|
    requires forall k :: 0 <= k < |rs| ==> rs[k].isTodo && rs[k].todo.Some? && rs[k].todo.value.subtasks == NoSubtasks
    requires InLineOrder(Attach(rs, file))
    ensures TreeInv(treeLines, rs, |rs|, subs) && IsForest(subs) && Follows(treeLines, rs, subs)
    ensures Built(file, rs, subs, todos)
    ensures multiset(Flat(todos)) == multiset(Attach(rs, file))
    ensures InLineOrder(todos)
  {
    subs := CreateTodoTree(treeLines, rs);
    TreeIsForest(treeLines, rs, subs);
    var items := seq(|rs|, k requires 0 <= k < |rs| => rs[k].todo.value);
    items := AssignFile(items, file);
    assert items == Attach(rs, file);
    var roots := RemoveSubtasksFromTree(subs);
    RootForest(items, subs);
    todos := Forest(items, subs, roots);
  }

  /** `parseMdFileAsync(file)`, with the content read from the file given: the todos
      of the file, each with its subtasks nested inside it and only the todos that are
      nobody's subtask at the top, in line order. Flattened back out, they are the
      todos of the file's lines with a checkbox, each once. The results the tree was
      built from and its subtask lists are returned beside them. */
  method ParseMdFile(file: FileRef, content: string)
    returns (todos: seq<TodoItem>, rs: seq<TodoParsingResult>, subs: Subtasks)
    ensures multiset(Flat(todos)) == multiset(FileTodos(file, content))
    ensures InLineOrder(todos)
    ensures rs == FilterTodos(ParseResults(Split(content, "\n")))
    ensures |rs| <= |Split(content, "\n")| && TreeInv(Split(content, "\n"), rs, |rs|, subs)
    ensures Follows(Split(content, "\n"), rs, subs)
    ensures Built(file, rs, subs, todos)
  {
    var lines := Split(content, "\n");
    var parsingResults := ParseResults(lines);
    rs := FilterTodos(parsingResults);
    ParseResultsOf(lines);
    FilteredSome(Checkboxes(lines), parsingResults, 0);
    FilteredSpec(file, Checkboxes(lines), parsingResults, 0);
    todos, subs := NestTodos(file, lines, rs);
  }

  /** `parseMdFileAsync` with the blank test of the tree reading each todo's own line
      rather than the line at the todo's position in the filtered list. A todo's own
      line has a checkbox and so is never blank: every todo after the first is visited
      right after the one before it, and one indented deeper than the todo before it
      becomes that todo's first subtask. */
  method ParseMdFileIntended(file: FileRef, content: string)
    returns (todos: seq<TodoItem>, rs: seq<TodoParsingResult>, subs: Subtasks)
    ensures multiset(Flat(todos)) == multiset(FileTodos(file, content))
    ensures InLineOrder(todos)
    ensures rs == FilterTodos(ParseResults(Split(content, "\n")))
    ensures forall i :: 0 < i < |rs| && rs[i].indentLevel > rs[i - 1].indentLevel ==>
      |subs| == |rs| && subs[i - 1].Some? && |subs[i - 1].value| > 0 && subs[i - 1].value[0] == i
    ensures |subs| == |rs| && Ordered(subs)
    ensures forall p: nat, c: nat :: p < |rs| && c < |rs| ==>
      (InList(subs, p, c) <==>
        && 0 < c && p < c && Level(rs, p) < Level(rs, c)
        && forall x :: p < x < c ==> Level(rs, x) >= Level(rs, c))
    ensures Built(file, rs, subs, todos)
  {
    var lines := Split(content, "\n");
    var parsingResults := ParseResults(lines);
    rs := FilterTodos(parsingResults);
    ParseResultsOf(lines);
    FilteredSome(Checkboxes(lines), parsingResults, 0);
    FilteredSpec(file, Checkboxes(lines), parsingResults, 0);
    var own := OwnLines(lines, rs);
    todos, subs := NestTodos(file, own, rs);
    IntendedRule(own, rs, subs);
  }
}
