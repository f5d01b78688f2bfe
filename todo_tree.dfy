/**
 * `FileTodoParser.createTodoTreeStructure`: the nesting of the todos of one file.
 *
 * The todos are objects that the loop links to each other by assigning and pushing
 * `subtasks` arrays. Here a todo is its position `j` in the list handed to the loop,
 * and `subs[j]` is the `subtasks` array of that todo as a sequence of positions
 * (`None` while the property is unset).
 */
module TodoTree {
  import opened Wrappers
  import opened Strings
  import opened LineOperations

  type Subtasks = seq<Option<seq<nat>>>

  /** `lines[i].match(/^\s*$/)`: the whole line is white space. */
  predicate Blank(line: string) {
    AllWhitespace(line)
  }

  function Level(rs: seq<TodoParsingResult>, i: nat): nat
    requires i < |rs|
  {
    rs[i].indentLevel
  }

  /** The value of `lastVisitedTodo` when the loop reaches position `i`: the first todo
      becomes it unconditionally, and afterwards every todo whose line (read, as the
      loop does, at the position in the list rather than at the todo's own line) is not
      blank. */
  function LastVisited(lines: seq<string>, rs: seq<TodoParsingResult>, i: nat): (r: Option<nat>)
    requires i <= |rs| <= |lines|
    ensures r.Some? ==> r.value < i && rs[r.value].isTodo
  {
    if i == 0 then None
    else
      var p := LastVisited(lines, rs, i - 1);
      if p.None? then (if rs[i - 1].isTodo then Some(i - 1) else None)
      else if Blank(lines[i - 1]) then p
      else if rs[i - 1].isTodo then Some(i - 1)
      else p
  }

  /** The loop made position `j` the last visited todo. */
  predicate Visited(lines: seq<string>, rs: seq<TodoParsingResult>, j: nat)
    requires j < |rs| <= |lines|
  {
    LastVisited(lines, rs, j + 1) == Some(j)
  }

  /** Position `i` is a todo that the loop nests under the last visited todo because it
      is indented deeper than that todo. */
  predicate Deeper(lines: seq<string>, rs: seq<TodoParsingResult>, i: nat)
    requires i < |rs| <= |lines|
  {
    var l := LastVisited(lines, rs, i);
    && l.Some? && !Blank(lines[i]) && rs[i].isTodo
    && Level(rs, i) > Level(rs, l.value)
  }

  /** The position holds a subtask list with an entry at `k`. */
  predicate Entry(subs: Subtasks, j: nat, k: nat) {
    j < |subs| && subs[j].Some? && k < |subs[j].value|
  }

  /** The list of subtasks with `c` appended (a missing list stays missing, as with
      `subtasks?.push`). */
  function Push(subs: Subtasks, p: nat, c: nat): Subtasks
    requires p < |subs|
  {
    if subs[p].Some? then subs[p := Some(subs[p].value + [c])] else subs
  }

  /** `c` may be a subtask of `j`: it comes after `j`, it is indented deeper, and it is
      a todo on a non-blank line read after a first todo. */
  predicate ChildOk(lines: seq<string>, rs: seq<TodoParsingResult>, j: nat, c: nat)
    requires |rs| <= |lines|
  {
    && j < c < |rs| && Level(rs, c) > Level(rs, j) && rs[c].isTodo && !Blank(lines[c])
    && LastVisited(lines, rs, c).Some?
  }

  ghost predicate ChildrenOk(lines: seq<string>, rs: seq<TodoParsingResult>, subs: Subtasks)
    requires |rs| <= |lines|
  {
    forall j: nat, k: nat :: Entry(subs, j, k) ==> ChildOk(lines, rs, j, subs[j].value[k])
  }

  /** Every subtask comes before `i`. */
  ghost predicate Below(subs: Subtasks, i: nat) {
    forall j: nat, k: nat :: Entry(subs, j, k) ==> subs[j].value[k] < i
  }

  /** Every todo with subtasks comes before `i` and was visited. */
  ghost predicate ParentsOk(lines: seq<string>, rs: seq<TodoParsingResult>, i: nat, subs: Subtasks)
    requires i <= |rs| <= |lines| && |subs| == |rs|
  {
    forall j :: 0 <= j < |subs| && subs[j].Some? ==> j < i && Visited(lines, rs, j)
  }

  /** Within one list the subtasks are in increasing order. */
  ghost predicate Ordered(subs: Subtasks) {
    forall j: nat, k: nat, k': nat :: Entry(subs, j, k) && Entry(subs, j, k') && k < k' ==>
      subs[j].value[k] < subs[j].value[k']
  }

  /** No position is the subtask of two todos. */
  ghost predicate Unique(subs: Subtasks) {
    forall j: nat, k: nat, j': nat, k': nat ::
      Entry(subs, j, k) && Entry(subs, j', k') && subs[j].value[k] == subs[j'].value[k'] ==>
      j == j'
  }

  /** Every deeper todo before `i` is the first subtask of the todo visited before it. */
  ghost predicate FirstChildren(lines: seq<string>, rs: seq<TodoParsingResult>, i: nat, subs: Subtasks)
    requires i <= |rs| <= |lines| && |subs| == |rs|
  {
    forall c :: 0 <= c < i && Deeper(lines, rs, c) ==>
      var l := LastVisited(lines, rs, c).value;
      subs[l].Some? && |subs[l].value| > 0 && subs[l].value[0] == c
  }

  ghost predicate TreeInv(lines: seq<string>, rs: seq<TodoParsingResult>, i: nat, subs: Subtasks)
    requires i <= |rs| <= |lines|
  {
    && |subs| == |rs|
    && ChildrenOk(lines, rs, subs) && Below(subs, i) && ParentsOk(lines, rs, i, subs)
    && Ordered(subs) && Unique(subs)
    && FirstChildren(lines, rs, i, subs)
  }

  /** The last visited todo is a visited todo. */
  lemma {:induction false} LastVisitedVisited(lines: seq<string>, rs: seq<TodoParsingResult>, i: nat)
    requires i <= |rs| <= |lines| && LastVisited(lines, rs, i).Some?
    ensures Visited(lines, rs, LastVisited(lines, rs, i).value)
  {
    var p := LastVisited(lines, rs, i - 1);
    if LastVisited(lines, rs, i) == p {
      LastVisitedVisited(lines, rs, i - 1);
    }
  }


  // ---------------------------------------------------------------------------
  // Where the loop attaches each todo

  /** Position `x` takes part in the loop: a todo was visited before it, and the line
      read at its position is not blank. */
  predicate Active(lines: seq<string>, rs: seq<TodoParsingResult>, x: nat)
    requires x < |rs| <= |lines|
  {
    LastVisited(lines, rs, x).Some? && !Blank(lines[x])
  }

  /** Position `x` takes the visited todo `v` off the parent stack, or keeps it from
      ever going on it: `x` takes part in the loop, it is not deeper than `v`, and it is
      a todo or comes after the first todo visited after `v`. (A line that is not a todo
      and comes right after `v` unwinds the stack while `v` is still `lastVisitedTodo`.) */
  predicate Closes(lines: seq<string>, rs: seq<TodoParsingResult>, v: nat, x: nat)
    requires v < |rs| && x < |rs| <= |lines|
  {
    && Active(lines, rs, x)
    && (rs[x].isTodo || LastVisited(lines, rs, x) != Some(v))
    && Level(rs, x) <= Level(rs, v)
  }

  /** The visited todo `v` is still open when the loop reaches `i`: no position after it
      closes it. The open todos are `lastVisitedTodo` and the todos on the parent
      stack. */
  ghost predicate Open(lines: seq<string>, rs: seq<TodoParsingResult>, v: nat, i: nat)
    requires v < i <= |rs| <= |lines|
  {
    Visited(lines, rs, v) && forall x: nat :: v < x < i ==> !Closes(lines, rs, v, x)
  }

  /** The loop makes `c` a subtask of `p`: `c` is a todo that takes part in the loop,
      and `p` is the latest todo open at `c` that is shallower than `c`. */
  ghost predicate ParentOf(lines: seq<string>, rs: seq<TodoParsingResult>, p: nat, c: nat)
    requires c < |rs| <= |lines|
  {
    && p < c && rs[c].isTodo && Active(lines, rs, c)
    && Open(lines, rs, p, c) && Level(rs, p) < Level(rs, c)
    && forall v: nat :: p < v < c && Open(lines, rs, v, c) ==> Level(rs, v) >= Level(rs, c)
  }

  /** `c` is in the subtask list of `p`. */
  predicate InList(subs: Subtasks, p: nat, c: nat) {
    p < |subs| && subs[p].Some? && c in subs[p].value
  }

  /** The subtask lists up to position `i` follow the parent rule: `c` is in the list
      of `p` exactly when `p` is the parent of `c`, and no list is empty. With `Ordered`
      this fixes every list (`NestingDetermines`). */
  ghost predicate Nesting(lines: seq<string>, rs: seq<TodoParsingResult>, i: nat, subs: Subtasks)
    requires i <= |rs| <= |lines|
  {
    && |subs| == |rs|
    && (forall p: nat, c: nat :: p < |rs| && c < i ==> (InList(subs, p, c) <==> ParentOf(lines, rs, p, c)))
    && (forall p :: 0 <= p < |subs| && subs[p].Some? ==> |subs[p].value| > 0)
  }

  /** After a visited todo there is always a last visited todo. */
  lemma {:induction false} StartedAfter(lines: seq<string>, rs: seq<TodoParsingResult>, u: nat, x: nat)
    requires u < x <= |rs| <= |lines| && Visited(lines, rs, u)
    ensures LastVisited(lines, rs, x).Some?
  {
    if x > u + 1 {
      StartedAfter(lines, rs, u, x - 1);
    }
  }

  /** A todo visited after another one takes part in the loop. */
  lemma VisitedActive(lines: seq<string>, rs: seq<TodoParsingResult>, u: nat, v: nat)
    requires u < v < |rs| <= |lines| && Visited(lines, rs, u) && Visited(lines, rs, v)
    ensures Active(lines, rs, v) && rs[v].isTodo
  {
    StartedAfter(lines, rs, u, v);
  }

  /** Of two open todos, the later one is deeper. */
  lemma OpenLevels(lines: seq<string>, rs: seq<TodoParsingResult>, u: nat, v: nat, i: nat)
    requires u < v < i <= |rs| <= |lines| && Open(lines, rs, u, i) && Visited(lines, rs, v)
    ensures Level(rs, u) < Level(rs, v)
  {
    VisitedActive(lines, rs, u, v);
    assert !Closes(lines, rs, u, v);
  }

  /** Which todos are open one position further on. */
  lemma OpenStep(lines: seq<string>, rs: seq<TodoParsingResult>, i: nat, v: nat)
    requires v <= i < |rs| <= |lines|
    ensures v < i ==> (Open(lines, rs, v, i + 1) <==> Open(lines, rs, v, i) && !Closes(lines, rs, v, i))
    ensures v == i ==> (Open(lines, rs, v, i + 1) <==> Visited(lines, rs, i))
  {
    if v < i && Open(lines, rs, v, i) && !Closes(lines, rs, v, i) {
      forall x: nat | v < x < i + 1
        ensures !Closes(lines, rs, v, x)
      {
        if x < i {
          assert !Closes(lines, rs, v, x);
        }
      }
    }
  }
  // ---------------------------------------------------------------------------
  // How each kind of step keeps the invariant

  lemma BelowSet(subs: Subtasks, l: nat, i: nat)
    requires l < |subs| && Below(subs, i)
    ensures Below(subs[l := Some([i])], i + 1)
  {
    var s' := subs[l := Some([i])];
    forall j: nat, k: nat | Entry(s', j, k)
      ensures s'[j].value[k] < i + 1
    {
      if j != l {
        assert Entry(subs, j, k);
      }
    }
  }

  lemma BelowPush(subs: Subtasks, p: nat, i: nat)
    requires p < |subs| && Below(subs, i)
    ensures Below(Push(subs, p, i), i + 1)
  {
    var s' := Push(subs, p, i);
    forall j: nat, k: nat | Entry(s', j, k)
      ensures s'[j].value[k] < i + 1
    {
      if j != p || k < |subs[p].value| {
        assert Entry(subs, j, k);
      }
    }
  }

  lemma OrderedSet(subs: Subtasks, l: nat, i: nat)
    requires l < |subs| && Ordered(subs)
    ensures Ordered(subs[l := Some([i])])
  {
    var s' := subs[l := Some([i])];
    forall j: nat, k: nat, k': nat | Entry(s', j, k) && Entry(s', j, k') && k < k'
      ensures s'[j].value[k] < s'[j].value[k']
    {
      assert Entry(subs, j, k) && Entry(subs, j, k');
    }
  }

  lemma OrderedPush(subs: Subtasks, p: nat, i: nat)
    requires p < |subs| && Ordered(subs) && Below(subs, i)
    ensures Ordered(Push(subs, p, i))
  {
    var s' := Push(subs, p, i);
    if subs[p].Some? {
      var n := |subs[p].value|;
      forall j: nat, k: nat, k': nat | Entry(s', j, k) && Entry(s', j, k') && k < k'
        ensures s'[j].value[k] < s'[j].value[k']
      {
        if j != p || k' < n {
          assert Entry(subs, j, k) && Entry(subs, j, k');
        } else {
          assert Entry(subs, j, k);
        }
      }
    }
  }

  lemma UniqueSet(subs: Subtasks, l: nat, i: nat)
    requires l < |subs| && Unique(subs) && Below(subs, i)
    ensures Unique(subs[l := Some([i])])
  {
    var s' := subs[l := Some([i])];
    forall j: nat, k: nat, j': nat, k': nat |
      Entry(s', j, k) && Entry(s', j', k') && s'[j].value[k] == s'[j'].value[k']
      ensures j == j'
    {
      if j != l {
        assert Entry(subs, j, k);
      }
      if j' != l {
        assert Entry(subs, j', k');
      }
    }
  }

  lemma UniquePush(subs: Subtasks, p: nat, i: nat)
    requires p < |subs| && Unique(subs) && Below(subs, i)
    ensures Unique(Push(subs, p, i))
  {
    var s' := Push(subs, p, i);
    if subs[p].Some? {
      var n := |subs[p].value|;
      forall j: nat, k: nat, j': nat, k': nat |
        Entry(s', j, k) && Entry(s', j', k') && s'[j].value[k] == s'[j'].value[k']
        ensures j == j'
      {
        if j != p || k < n {
          assert Entry(subs, j, k);
        }
        if j' != p || k' < n {
          assert Entry(subs, j', k');
        }
      }
    }
  }

  lemma ChildrenSet(lines: seq<string>, rs: seq<TodoParsingResult>, subs: Subtasks, l: nat, i: nat)
    requires |rs| <= |lines| && l < |subs| && ChildrenOk(lines, rs, subs) && ChildOk(lines, rs, l, i)
    ensures ChildrenOk(lines, rs, subs[l := Some([i])])
  {
    var s' := subs[l := Some([i])];
    forall j: nat, k: nat | Entry(s', j, k)
      ensures ChildOk(lines, rs, j, s'[j].value[k])
    {
      if j != l {
        assert Entry(subs, j, k);
      }
    }
  }

  lemma ChildrenPush(lines: seq<string>, rs: seq<TodoParsingResult>, subs: Subtasks, p: nat, i: nat)
    requires |rs| <= |lines| && p < |subs| && ChildrenOk(lines, rs, subs) && ChildOk(lines, rs, p, i)
    ensures ChildrenOk(lines, rs, Push(subs, p, i))
  {
    var s' := Push(subs, p, i);
    if subs[p].Some? {
      forall j: nat, k: nat | Entry(s', j, k)
        ensures ChildOk(lines, rs, j, s'[j].value[k])
      {
        if j != p || k < |subs[p].value| {
          assert Entry(subs, j, k);
        }
      }
    }
  }

  /** Nothing is linked at position `i`. */
  lemma SkipStep(lines: seq<string>, rs: seq<TodoParsingResult>, i: nat, subs: Subtasks)
    requires i < |rs| <= |lines| && TreeInv(lines, rs, i, subs) && !Deeper(lines, rs, i)
    ensures TreeInv(lines, rs, i + 1, subs)
  {
  }

  /** Position `i` becomes the only subtask of the last visited todo. */
  lemma AttachStep(lines: seq<string>, rs: seq<TodoParsingResult>, i: nat, subs: Subtasks)
    requires i < |rs| <= |lines| && TreeInv(lines, rs, i, subs) && Deeper(lines, rs, i)
    requires subs[LastVisited(lines, rs, i).value].None?
    ensures TreeInv(lines, rs, i + 1, subs[LastVisited(lines, rs, i).value := Some([i])])
  {
    var l := LastVisited(lines, rs, i).value;
    var s' := subs[l := Some([i])];
    LastVisitedVisited(lines, rs, i);
    BelowSet(subs, l, i);
    OrderedSet(subs, l, i);
    UniqueSet(subs, l, i);
    ChildrenSet(lines, rs, subs, l, i);
    AttachFirst(lines, rs, i, subs, l);
  }

  lemma AttachFirst(lines: seq<string>, rs: seq<TodoParsingResult>, i: nat, subs: Subtasks, l: nat)
    requires i < |rs| <= |lines| && |subs| == |rs| && FirstChildren(lines, rs, i, subs)
    requires Deeper(lines, rs, i) && l == LastVisited(lines, rs, i).value && subs[l].None?
    ensures FirstChildren(lines, rs, i + 1, subs[l := Some([i])])
  {
    var s' := subs[l := Some([i])];
    forall c | 0 <= c < i + 1 && Deeper(lines, rs, c)
      ensures var l' := LastVisited(lines, rs, c).value;
        s'[l'].Some? && |s'[l'].value| > 0 && s'[l'].value[0] == c
    {
      if c < i {
        var l' := LastVisited(lines, rs, c).value;
        assert subs[l'].Some?;
      }
    }
  }

  /** Position `i` is pushed onto the subtasks of the todo `p`. */
  lemma PushStep(lines: seq<string>, rs: seq<TodoParsingResult>, i: nat, subs: Subtasks, p: nat)
    requires i < |rs| <= |lines| && TreeInv(lines, rs, i, subs) && !Deeper(lines, rs, i)
    requires p < i && ChildOk(lines, rs, p, i)
    ensures TreeInv(lines, rs, i + 1, Push(subs, p, i))
  {
    BelowPush(subs, p, i);
    OrderedPush(subs, p, i);
    UniquePush(subs, p, i);
    ChildrenPush(lines, rs, subs, p, i);
    PushFirst(lines, rs, i, subs, p);
  }

  lemma PushFirst(lines: seq<string>, rs: seq<TodoParsingResult>, i: nat, subs: Subtasks, p: nat)
    requires i < |rs| <= |lines| && |subs| == |rs| && FirstChildren(lines, rs, i, subs)
    requires !Deeper(lines, rs, i) && p < |subs|
    ensures FirstChildren(lines, rs, i + 1, Push(subs, p, i))
  {
    var s' := Push(subs, p, i);
    forall c | 0 <= c < i + 1 && Deeper(lines, rs, c)
      ensures var l' := LastVisited(lines, rs, c).value;
        s'[l'].Some? && |s'[l'].value| > 0 && s'[l'].value[0] == c
    {
      var l' := LastVisited(lines, rs, c).value;
      assert subs[l'].Some? && |subs[l'].value| > 0;
    }
  }

  lemma PushParents(lines: seq<string>, rs: seq<TodoParsingResult>, i: nat, subs: Subtasks, p: nat)
    requires i < |rs| <= |lines| && |subs| == |rs| && ParentsOk(lines, rs, i, subs) && p < |subs|
    ensures ParentsOk(lines, rs, i + 1, Push(subs, p, i))
  {
  }

  /** `while (getParent() && !isDeeperThanParent()) parentStack.pop()`: the stack loses
      its top until the top is shallower than `level` or the stack is empty. */
  method Unwind(rs: seq<TodoParsingResult>, stack: seq<nat>, level: nat) returns (st: seq<nat>)
    requires forall t :: 0 <= t < |stack| ==> stack[t] < |rs|
    ensures |st| <= |stack| && st == stack[..|st|]
    ensures |st| > 0 ==> Level(rs, st[|st| - 1]) < level
    ensures forall t :: |st| <= t < |stack| ==> Level(rs, stack[t]) >= level
  {
    st := stack;
    while |st| > 0 && !(level > Level(rs, st[|st| - 1]))
      invariant |st| <= |stack| && st == stack[..|st|]
      invariant forall t :: |st| <= t < |stack| ==> Level(rs, stack[t]) >= level
    {
      st := st[..|st| - 1];
    }
  }

  /** The parent stack when the loop reaches position `i`: visited todos before
      `lastVisitedTodo`, in list order, each with a subtask list, and together with
      `lastVisitedTodo` exactly the open todos. */
  ghost predicate StackOk(lines: seq<string>, rs: seq<TodoParsingResult>, i: nat,
    stack: seq<nat>, last: Option<nat>, subs: Subtasks)
    requires i <= |rs| <= |lines| && |subs| == |rs|
  {
    && (last.Some? ==> last.value < i)
    && (last.None? ==> stack == [])
    && (forall t :: 0 <= t < |stack| ==> last.Some? && stack[t] < last.value && subs[stack[t]].Some?)
    && (forall t, t' :: 0 <= t < t' < |stack| ==> stack[t] < stack[t'])
    && (forall v: nat :: v < i ==> (Open(lines, rs, v, i) <==> v in stack || last == Some(v)))
  }

  /** The state of the loop when it reaches position `i`: the subtask lists so far,
      `lastVisitedTodo`, which has no subtasks yet, and the parent stack. */
  ghost predicate LoopState(lines: seq<string>, rs: seq<TodoParsingResult>, i: nat,
    stack: seq<nat>, last: Option<nat>, subs: Subtasks)
    requires i <= |rs| <= |lines|
  {
    && TreeInv(lines, rs, i, subs)
    && Nesting(lines, rs, i, subs)
    && last == LastVisited(lines, rs, i)
    && (last.Some? ==> subs[last.value].None?)
    && StackOk(lines, rs, i, stack, last, subs)
  }

  /** No list holds a position that is not linked yet. */
  lemma BelowAbsent(subs: Subtasks, i: nat, p: nat)
    requires Below(subs, i)
    ensures !InList(subs, p, i)
  {
    if p < |subs| && subs[p].Some? {
      forall k | 0 <= k < |subs[p].value|
        ensures subs[p].value[k] < i
      {
        assert Entry(subs, p, k);
      }
    }
  }

  /** Nothing is linked at position `i`. */
  lemma NestSkip(lines: seq<string>, rs: seq<TodoParsingResult>, i: nat, subs: Subtasks)
    requires i < |rs| <= |lines| && Nesting(lines, rs, i, subs) && Below(subs, i)
    requires forall p: nat :: !ParentOf(lines, rs, p, i)
    ensures Nesting(lines, rs, i + 1, subs)
  {
    forall p: nat, c: nat | p < |rs| && c < i + 1
      ensures InList(subs, p, c) <==> ParentOf(lines, rs, p, c)
    {
      BelowAbsent(subs, i, p);
    }
  }

  /** Position `i` becomes the only subtask of `l`. */
  lemma NestAttach(lines: seq<string>, rs: seq<TodoParsingResult>, i: nat, subs: Subtasks, l: nat)
    requires i < |rs| <= |lines| && Nesting(lines, rs, i, subs) && Below(subs, i)
    requires l < |subs| && subs[l].None?
    requires forall p: nat :: ParentOf(lines, rs, p, i) <==> p == l
    ensures Nesting(lines, rs, i + 1, subs[l := Some([i])])
  {
    var s' := subs[l := Some([i])];
    forall p: nat, c: nat | p < |rs| && c < i + 1
      ensures InList(s', p, c) <==> ParentOf(lines, rs, p, c)
    {
      BelowAbsent(subs, i, p);
    }
  }

  /** Position `i` is appended to the subtasks of `q`. */
  lemma NestPush(lines: seq<string>, rs: seq<TodoParsingResult>, i: nat, subs: Subtasks, q: nat)
    requires i < |rs| <= |lines| && Nesting(lines, rs, i, subs) && Below(subs, i)
    requires q < |subs| && subs[q].Some?
    requires forall p: nat :: ParentOf(lines, rs, p, i) <==> p == q
    ensures Nesting(lines, rs, i + 1, Push(subs, q, i))
  {
    var s' := Push(subs, q, i);
    forall p: nat, c: nat | p < |rs| && c < i + 1
      ensures InList(s', p, c) <==> ParentOf(lines, rs, p, c)
    {
      BelowAbsent(subs, i, p);
      if c != i && p == q {
        assert InList(s', p, c) <==> InList(subs, p, c);
      }
    }
  }

  /** The first todo: nothing is open yet. */
  lemma StartStep(lines: seq<string>, rs: seq<TodoParsingResult>, i: nat, stack: seq<nat>, subs: Subtasks)
    requires i < |rs| <= |lines| && LoopState(lines, rs, i, stack, None, subs)
    ensures LoopState(lines, rs, i + 1, stack, if rs[i].isTodo then Some(i) else None, subs)
  {
    SkipStep(lines, rs, i, subs);
    NestSkip(lines, rs, i, subs);
    var next := if rs[i].isTodo then Some(i) else None;
    forall v: nat | v < i + 1
      ensures Open(lines, rs, v, i + 1) <==> next == Some(v)
    {
      OpenStep(lines, rs, i, v);
    }
  }

  /** A blank line: nothing changes. */
  lemma BlankStep(lines: seq<string>, rs: seq<TodoParsingResult>, i: nat,
    stack: seq<nat>, l: nat, subs: Subtasks)
    requires i < |rs| <= |lines| && LoopState(lines, rs, i, stack, Some(l), subs) && Blank(lines[i])
    ensures LoopState(lines, rs, i + 1, stack, Some(l), subs)
  {
    SkipStep(lines, rs, i, subs);
    NestSkip(lines, rs, i, subs);
    forall v: nat | v < i + 1
      ensures Open(lines, rs, v, i + 1) <==> v in stack || v == l
    {
      OpenStep(lines, rs, i, v);
    }
  }

  /** A line deeper than `lastVisitedTodo` that is not a todo: nothing changes. */
  lemma DeeperTextStep(lines: seq<string>, rs: seq<TodoParsingResult>, i: nat,
    stack: seq<nat>, l: nat, subs: Subtasks)
    requires i < |rs| <= |lines| && LoopState(lines, rs, i, stack, Some(l), subs)
    requires !Blank(lines[i]) && Level(rs, i) > Level(rs, l) && !rs[i].isTodo
    ensures LoopState(lines, rs, i + 1, stack, Some(l), subs)
  {
    SkipStep(lines, rs, i, subs);
    NestSkip(lines, rs, i, subs);
    forall v: nat | v < i + 1
      ensures Open(lines, rs, v, i + 1) <==> v in stack || v == l
    {
      OpenStep(lines, rs, i, v);
      if v in stack {
        OpenLevels(lines, rs, v, l, i);
      }
    }
  }

  /** A todo deeper than `lastVisitedTodo` `l`: `l` goes on the stack and gets it as its
      only subtask. */
  lemma DeeperStep(lines: seq<string>, rs: seq<TodoParsingResult>, i: nat,
    stack: seq<nat>, l: nat, subs: Subtasks)
    requires i < |rs| <= |lines| && LoopState(lines, rs, i, stack, Some(l), subs)
    requires !Blank(lines[i]) && Level(rs, i) > Level(rs, l) && rs[i].isTodo
    ensures LoopState(lines, rs, i + 1, stack + [l], Some(i), subs[l := Some([i])])
  {
    AttachStep(lines, rs, i, subs);
    var s' := stack + [l];
    DeeperOpen(lines, rs, i, stack, l, subs);
    forall t, t' | 0 <= t < t' < |s'|
      ensures s'[t] < s'[t']
    {
      if t' < |stack| {
        assert s'[t] == stack[t] && s'[t'] == stack[t'];
      }
    }
    forall t | 0 <= t < |s'|
      ensures s'[t] < i
    {
      if t < |stack| {
        assert s'[t] == stack[t];
      }
    }
    assert s'[|s'| - 1] == l;
    ParentIsTop(lines, rs, i, s');
    NestAttach(lines, rs, i, subs, l);
  }

  /** For a todo at `i` deeper than `l`, every open todo is shallower than it, and one
      position further the open todos are the old ones and `i`. */
  lemma DeeperOpen(lines: seq<string>, rs: seq<TodoParsingResult>, i: nat,
    stack: seq<nat>, l: nat, subs: Subtasks)
    requires i < |rs| <= |lines| && LoopState(lines, rs, i, stack, Some(l), subs)
    requires !Blank(lines[i]) && Level(rs, i) > Level(rs, l) && rs[i].isTodo
    ensures forall v: nat :: v < i ==> (Open(lines, rs, v, i) && Level(rs, v) < Level(rs, i) <==> v in stack + [l])
    ensures forall v: nat :: v < i + 1 ==> (Open(lines, rs, v, i + 1) <==> v in stack + [l] || v == i)
  {
    LastVisitedVisited(lines, rs, i);
    forall v: nat | v < i + 1
      ensures Open(lines, rs, v, i + 1) <==> v in stack + [l] || v == i
      ensures v < i ==> (Open(lines, rs, v, i) && Level(rs, v) < Level(rs, i) <==> v in stack + [l])
    {
      OpenStep(lines, rs, i, v);
      if v in stack {
        OpenLevels(lines, rs, v, l, i);
      }
    }
  }

  /** When `st` lists, in increasing order, exactly the todos open at `i` that are
      shallower than `i`, the parent of the todo at `i` is the last of them. */
  lemma ParentIsTop(lines: seq<string>, rs: seq<TodoParsingResult>, i: nat, st: seq<nat>)
    requires i < |rs| <= |lines| && rs[i].isTodo && Active(lines, rs, i)
    requires forall t :: 0 <= t < |st| ==> st[t] < i
    requires forall t, t' :: 0 <= t < t' < |st| ==> st[t] < st[t']
    requires forall v: nat :: v < i ==> (Open(lines, rs, v, i) && Level(rs, v) < Level(rs, i) <==> v in st)
    ensures |st| > 0 ==> forall p: nat :: ParentOf(lines, rs, p, i) <==> p == st[|st| - 1]
    ensures |st| == 0 ==> forall p: nat :: !ParentOf(lines, rs, p, i)
  {
    if |st| > 0 {
      var q := st[|st| - 1];
      assert q in st;
      forall v | v in st
        ensures v <= q
      {
        var t :| 0 <= t < |st| && st[t] == v;
        if t < |st| - 1 {
          assert st[t] < st[|st| - 1];
        }
      }
      assert ParentOf(lines, rs, q, i);
      forall p: nat | ParentOf(lines, rs, p, i)
        ensures p == q
      {
        assert p in st && Open(lines, rs, q, i);
      }
    } else {
      forall p: nat
        ensures !ParentOf(lines, rs, p, i)
      {
        if p < i {
          assert !(p in st);
        }
      }
    }
  }

  /** After the unwinding for a todo at `i` that is not deeper than `l`, the open todos
      one position further are the unwound stack and `i`. */
  lemma SiblingOpen(lines: seq<string>, rs: seq<TodoParsingResult>, i: nat,
    stack: seq<nat>, st: seq<nat>, l: nat, subs: Subtasks)
    requires i < |rs| <= |lines| && LoopState(lines, rs, i, stack, Some(l), subs)
    requires !Blank(lines[i]) && Level(rs, i) <= Level(rs, l) && rs[i].isTodo
    requires |st| <= |stack| && st == stack[..|st|]
    requires |st| > 0 ==> Level(rs, st[|st| - 1]) < Level(rs, i)
    requires forall t :: |st| <= t < |stack| ==> Level(rs, stack[t]) >= Level(rs, i)
    ensures forall v: nat :: v < i + 1 ==> (Open(lines, rs, v, i + 1) <==> v in st || v == i)
    ensures |st| > 0 ==> forall p: nat :: ParentOf(lines, rs, p, i) <==> p == st[|st| - 1]
    ensures |st| == 0 ==> forall p: nat :: !ParentOf(lines, rs, p, i)
  {
    UnwoundOpen(lines, rs, i, stack, st, l);
    forall v: nat | v < i + 1
      ensures Open(lines, rs, v, i + 1) <==> v in st || v == i
    {
      OpenStep(lines, rs, i, v);
    }
    forall t | 0 <= t < |st|
      ensures st[t] < i
    {
      assert st[t] == stack[t];
    }
    forall t, t' | 0 <= t < t' < |st|
      ensures st[t] < st[t']
    {
      assert st[t] == stack[t] && st[t'] == stack[t'];
    }
    ParentIsTop(lines, rs, i, st);
  }

  /** A todo not deeper than `lastVisitedTodo`, with an unwound stack whose top `q`
      takes it as a subtask. */
  lemma SiblingPushStep(lines: seq<string>, rs: seq<TodoParsingResult>, i: nat,
    stack: seq<nat>, st: seq<nat>, l: nat, subs: Subtasks)
    requires i < |rs| <= |lines| && LoopState(lines, rs, i, stack, Some(l), subs)
    requires !Blank(lines[i]) && Level(rs, i) <= Level(rs, l) && rs[i].isTodo
    requires 0 < |st| <= |stack| && st == stack[..|st|]
    requires Level(rs, st[|st| - 1]) < Level(rs, i)
    requires forall t :: |st| <= t < |stack| ==> Level(rs, stack[t]) >= Level(rs, i)
    ensures LoopState(lines, rs, i + 1, st, Some(i), Push(subs, st[|st| - 1], i))
  {
    SiblingOpen(lines, rs, i, stack, st, l, subs);
    var q := st[|st| - 1];
    assert q == stack[|st| - 1];
    assert ParentOf(lines, rs, q, i);
    assert ChildOk(lines, rs, q, i);
    PushStep(lines, rs, i, subs, q);
    NestPush(lines, rs, i, subs, q);
    SiblingStack(lines, rs, i, stack, st, l, subs);
  }

  /** A todo not deeper than `lastVisitedTodo` that unwinds the whole stack: it stays a
      root. */
  lemma SiblingRootStep(lines: seq<string>, rs: seq<TodoParsingResult>, i: nat,
    stack: seq<nat>, l: nat, subs: Subtasks)
    requires i < |rs| <= |lines| && LoopState(lines, rs, i, stack, Some(l), subs)
    requires !Blank(lines[i]) && Level(rs, i) <= Level(rs, l) && rs[i].isTodo
    requires forall t :: 0 <= t < |stack| ==> Level(rs, stack[t]) >= Level(rs, i)
    ensures LoopState(lines, rs, i + 1, [], Some(i), subs)
  {
    assert stack[..0] == [];
    SiblingOpen(lines, rs, i, stack, [], l, subs);
    SkipStep(lines, rs, i, subs);
    NestSkip(lines, rs, i, subs);
  }

  /** The unwound stack is a stack for `lastVisitedTodo` = `i`, whatever was pushed. */
  lemma SiblingStack(lines: seq<string>, rs: seq<TodoParsingResult>, i: nat,
    stack: seq<nat>, st: seq<nat>, l: nat, subs: Subtasks)
    requires i < |rs| <= |lines| && LoopState(lines, rs, i, stack, Some(l), subs)
    requires 0 < |st| <= |stack| && st == stack[..|st|]
    requires forall v: nat :: v < i + 1 ==> (Open(lines, rs, v, i + 1) <==> v in st || v == i)
    ensures StackOk(lines, rs, i + 1, st, Some(i), Push(subs, st[|st| - 1], i))
  {
    var s' := Push(subs, st[|st| - 1], i);
    forall t | 0 <= t < |st|
      ensures st[t] < i && s'[st[t]].Some?
    {
      assert st[t] == stack[t];
    }
    forall t, t' | 0 <= t < t' < |st|
      ensures st[t] < st[t']
    {
      assert st[t] == stack[t] && st[t'] == stack[t'];
    }
  }

  /** A line that is not deeper than `lastVisitedTodo` and is not a todo: the stack is
      unwound to `st` and nothing is linked. */
  lemma UnwindTextStep(lines: seq<string>, rs: seq<TodoParsingResult>, i: nat,
    stack: seq<nat>, st: seq<nat>, l: nat, subs: Subtasks)
    requires i < |rs| <= |lines| && LoopState(lines, rs, i, stack, Some(l), subs)
    requires !Blank(lines[i]) && Level(rs, i) <= Level(rs, l) && !rs[i].isTodo
    requires |st| <= |stack| && st == stack[..|st|]
    requires |st| > 0 ==> Level(rs, st[|st| - 1]) < Level(rs, i)
    requires forall t :: |st| <= t < |stack| ==> Level(rs, stack[t]) >= Level(rs, i)
    ensures LoopState(lines, rs, i + 1, st, Some(l), subs)
  {
    UnwoundOpen(lines, rs, i, stack, st, l);
    SkipStep(lines, rs, i, subs);
    NestSkip(lines, rs, i, subs);
    forall v: nat | v < i + 1
      ensures Open(lines, rs, v, i + 1) <==> v in st || v == l
    {
      OpenStep(lines, rs, i, v);
    }
    UnwoundStack(lines, rs, i, stack, st, l, subs);
  }

  /** The unwound stack is a stack for the same `lastVisitedTodo` one position on. */
  lemma UnwoundStack(lines: seq<string>, rs: seq<TodoParsingResult>, i: nat,
    stack: seq<nat>, st: seq<nat>, l: nat, subs: Subtasks)
    requires i < |rs| <= |lines| && LoopState(lines, rs, i, stack, Some(l), subs)
    requires |st| <= |stack| && st == stack[..|st|]
    requires forall v: nat :: v < i + 1 ==> (Open(lines, rs, v, i + 1) <==> v in st || v == l)
    ensures StackOk(lines, rs, i + 1, st, Some(l), subs)
  {
    forall t | 0 <= t < |st|
      ensures st[t] < l && subs[st[t]].Some?
    {
      assert st[t] == stack[t];
    }
    forall t, t' | 0 <= t < t' < |st|
      ensures st[t] < st[t']
    {
      assert st[t] == stack[t] && st[t'] == stack[t'];
    }
  }

  /** After unwinding for position `i`, the stack holds exactly the open todos other
      than `l` that are shallower than `i`. */
  lemma UnwoundOpen(lines: seq<string>, rs: seq<TodoParsingResult>, i: nat,
    stack: seq<nat>, st: seq<nat>, l: nat)
    requires i < |rs| <= |lines| && l < i
    requires forall t :: 0 <= t < |stack| ==> stack[t] < l
    requires forall t, t' :: 0 <= t < t' < |stack| ==> stack[t] < stack[t']
    requires forall v: nat :: v < i ==> (Open(lines, rs, v, i) <==> v in stack || v == l)
    requires Level(rs, i) <= Level(rs, l)
    requires |st| <= |stack| && st == stack[..|st|]
    requires |st| > 0 ==> Level(rs, st[|st| - 1]) < Level(rs, i)
    requires forall t :: |st| <= t < |stack| ==> Level(rs, stack[t]) >= Level(rs, i)
    ensures forall v: nat :: v < i ==> (Open(lines, rs, v, i) && Level(rs, v) < Level(rs, i) <==> v in st)
  {
    forall v: nat | v < i
      ensures Open(lines, rs, v, i) && Level(rs, v) < Level(rs, i) <==> v in st
    {
      if v in st {
        var t :| 0 <= t < |st| && st[t] == v;
        assert stack[t] == v;
        if t < |st| - 1 {
          var top := st[|st| - 1];
          assert top == stack[|st| - 1] && top in stack;
          assert Open(lines, rs, top, i);
          OpenLevels(lines, rs, v, st[|st| - 1], i);
        }
      }
      if Open(lines, rs, v, i) && Level(rs, v) < Level(rs, i) && v != l {
        var t :| 0 <= t < |stack| && stack[t] == v;
        assert st[t] == v;
      }
    }
  }

  /** The body of the `forEach` for `current = parsingResults[i]`. */
  method VisitTodo(lines: seq<string>, rs: seq<TodoParsingResult>, i: nat,
    stack: seq<nat>, last: Option<nat>, subs: Subtasks)
    returns (stack': seq<nat>, last': Option<nat>, subs': Subtasks)
    requires i < |rs| <= |lines| && LoopState(lines, rs, i, stack, last, subs)
    ensures LoopState(lines, rs, i + 1, stack', last', subs')
  {
    stack', last', subs' := stack, last, subs;
    if last.None? {
      StartStep(lines, rs, i, stack, subs);
      if rs[i].isTodo {
        last' := Some(i);
      }
      return;
    }
    var l := last.value;
    if Blank(lines[i]) {
      BlankStep(lines, rs, i, stack, l, subs);
      return;
    }
    if Level(rs, i) > Level(rs, l) {
      if rs[i].isTodo {
        DeeperStep(lines, rs, i, stack, l, subs);
        stack' := stack + [l];
        subs' := subs[l := Some([i])];
      } else {
        DeeperTextStep(lines, rs, i, stack, l, subs);
      }
    } else {
      stack' := Unwind(rs, stack, Level(rs, i));
      if rs[i].isTodo {
        if |stack'| > 0 {
          SiblingPushStep(lines, rs, i, stack, stack', l, subs);
          subs' := Push(subs, stack'[|stack'| - 1], i);
        } else {
          SiblingRootStep(lines, rs, i, stack, l, subs);
        }
      } else {
        UnwindTextStep(lines, rs, i, stack, stack', l, subs);
      }
    }
    if rs[i].isTodo {
      last' := Some(i);
    }
  }

  /** `createTodoTreeStructure(lines, parsingResults)`. The subtasks it builds form a
      forest, ordered by position, in which a subtask is always deeper than its parent;
      each todo taking part in the loop goes under the latest open todo shallower than
      it (`Nesting`), which fixes the lists; a todo indented deeper than the last
      visited todo becomes its first subtask; and only visited todos get subtasks. */
  method CreateTodoTree(lines: seq<string>, rs: seq<TodoParsingResult>) returns (subs: Subtasks)
    requires |rs| <= |lines|
    ensures TreeInv(lines, rs, |rs|, subs) && Nesting(lines, rs, |rs|, subs)
    ensures AllTodos(rs) ==> Follows(lines, rs, subs)
  {
    var stack: seq<nat> := [];
    var last: Option<nat> := None;
    subs := seq(|rs|, _ => None);
    var i := 0;
    while i < |rs|
      invariant i <= |rs| && LoopState(lines, rs, i, stack, last, subs)
    {
      stack, last, subs := VisitTodo(lines, rs, i, stack, last, subs);
      i := i + 1;
    }
    if AllTodos(rs) {
      LoopFollows(lines, rs, subs);
    }
  }

  // ---------------------------------------------------------------------------
  // The attachment rule for a list of todos

  /** Every result is a todo, as in the filtered list the parser hands to the loop. */
  predicate AllTodos(rs: seq<TodoParsingResult>) {
    forall k :: 0 <= k < |rs| ==> rs[k].isTodo
  }

  /** `c` goes under `p`: `c` takes part in the loop, and `p` is the nearest visited
      todo before `c` that is indented less than `c`. */
  ghost predicate AttachesTo(lines: seq<string>, rs: seq<TodoParsingResult>, p: nat, c: nat)
    requires c < |rs| <= |lines|
  {
    && p < c && Visited(lines, rs, p) && Active(lines, rs, c) && Level(rs, p) < Level(rs, c)
    && forall x: nat :: p < x < c && Visited(lines, rs, x) ==> Level(rs, x) >= Level(rs, c)
  }

  /** A todo that takes part in the loop becomes the last visited todo. */
  lemma ActiveVisited(lines: seq<string>, rs: seq<TodoParsingResult>, x: nat)
    requires x < |rs| <= |lines| && rs[x].isTodo && Active(lines, rs, x)
    ensures Visited(lines, rs, x)
  {
  }

  /** A visited todo `x` before `c` is at least as deep as `c`, or some todo from `x` on
      is still open at `c` and shallower than `c`. */
  lemma {:induction false} ShallowerOpen(lines: seq<string>, rs: seq<TodoParsingResult>, x: nat, c: nat)
    requires x < c < |rs| <= |lines| && AllTodos(rs) && Visited(lines, rs, x)
    ensures Level(rs, x) >= Level(rs, c) ||
      exists v: nat :: x <= v < c && Open(lines, rs, v, c) && Level(rs, v) < Level(rs, c)
    decreases c - x
  {
    if Level(rs, x) < Level(rs, c) && !Open(lines, rs, x, c) {
      var y: nat :| x < y < c && Closes(lines, rs, x, y);
      ActiveVisited(lines, rs, y);
      ShallowerOpen(lines, rs, y, c);
    }
  }

  /** On a list of todos the parent the loop picks is the one `AttachesTo` names. */
  lemma ParentRule(lines: seq<string>, rs: seq<TodoParsingResult>, p: nat, c: nat)
    requires c < |rs| <= |lines| && AllTodos(rs)
    ensures ParentOf(lines, rs, p, c) <==> AttachesTo(lines, rs, p, c)
  {
    if AttachesTo(lines, rs, p, c) {
      forall x: nat | p < x < c
        ensures !Closes(lines, rs, p, x)
      {
        if Active(lines, rs, x) {
          ActiveVisited(lines, rs, x);
        }
      }
      assert Open(lines, rs, p, c);
    }
    if ParentOf(lines, rs, p, c) {
      forall x: nat | p < x < c && Visited(lines, rs, x)
        ensures Level(rs, x) >= Level(rs, c)
      {
        ShallowerOpen(lines, rs, x, c);
      }
    }
  }

  /** The subtask lists of a list of todos follow `AttachesTo`. */
  lemma NestingRule(lines: seq<string>, rs: seq<TodoParsingResult>, subs: Subtasks)
    requires |rs| <= |lines| && AllTodos(rs) && Nesting(lines, rs, |rs|, subs)
    ensures forall p: nat, c: nat :: p < |rs| && c < |rs| ==>
      (InList(subs, p, c) <==> AttachesTo(lines, rs, p, c))
  {
    forall p: nat, c: nat | p < |rs| && c < |rs|
      ensures InList(subs, p, c) <==> AttachesTo(lines, rs, p, c)
    {
      ParentRule(lines, rs, p, c);
    }
  }

  /** Strictly increasing. */
  predicate Increasing(xs: seq<nat>) {
    forall a, b :: 0 <= a < b < |xs| ==> xs[a] < xs[b]
  }

  /** Two increasing sequences with the same elements are equal. */
  lemma {:induction false} IncreasingUnique(xs: seq<nat>, ys: seq<nat>)
    requires Increasing(xs) && Increasing(ys)
    requires forall v :: v in xs <==> v in ys
    ensures xs == ys
  {
    if xs != [] {
      assert xs[0] in xs;
    }
    if ys != [] {
      assert ys[0] in ys;
    }
    if xs != [] && ys != [] {
      assert xs[0] == ys[0] by {
        MinFirst(xs, ys[0]);
        MinFirst(ys, xs[0]);
      }
      forall v
        ensures v in xs[1..] <==> v in ys[1..]
      {
        TailSplit(xs, v);
        TailSplit(ys, v);
      }
      IncreasingUnique(xs[1..], ys[1..]);
      assert xs == [xs[0]] + xs[1..] && ys == [ys[0]] + ys[1..];
    }
  }

  /** The tail of an increasing sequence holds its elements above the first. */
  lemma TailSplit(xs: seq<nat>, v: nat)
    requires Increasing(xs) && xs != []
    ensures v in xs[1..] <==> v in xs && v > xs[0]
  {
    if v in xs[1..] {
      var a :| 0 <= a < |xs| - 1 && xs[1..][a] == v;
      assert xs[a + 1] == v;
    }
    if v in xs && v > xs[0] {
      var a :| 0 <= a < |xs| && xs[a] == v;
      assert xs[1..][a - 1] == v;
    }
  }

  /** The first element of an increasing sequence is its least. */
  lemma MinFirst(xs: seq<nat>, v: nat)
    requires Increasing(xs) && v in xs
    ensures xs[0] <= v
  {
    var a :| 0 <= a < |xs| && xs[a] == v;
    assert a == 0 || xs[0] < xs[a];
  }

  /** An ordered list holds its entries in increasing order. */
  lemma OrderedIncreasing(subs: Subtasks, p: nat)
    requires Ordered(subs) && p < |subs| && subs[p].Some?
    ensures Increasing(subs[p].value)
  {
    forall a, b | 0 <= a < b < |subs[p].value|
      ensures subs[p].value[a] < subs[p].value[b]
    {
      assert Entry(subs, p, a) && Entry(subs, p, b);
    }
  }

  /** The loop's contract fixes its result: two ordered subtask lists that both follow
      the parent rule are the same. */
  lemma NestingDetermines(lines: seq<string>, rs: seq<TodoParsingResult>, s1: Subtasks, s2: Subtasks)
    requires |rs| <= |lines| && Nesting(lines, rs, |rs|, s1) && Nesting(lines, rs, |rs|, s2)
    requires Ordered(s1) && Ordered(s2) && Below(s1, |rs|) && Below(s2, |rs|)
    ensures s1 == s2
  {
    forall p | 0 <= p < |rs|
      ensures s1[p] == s2[p]
    {
      if s1[p].Some? {
        assert Entry(s1, p, 0) && InList(s1, p, s1[p].value[0]);
      }
      if s2[p].Some? {
        assert Entry(s2, p, 0) && InList(s2, p, s2[p].value[0]);
      }
      if s1[p].Some? && s2[p].Some? {
        OrderedIncreasing(s1, p);
        OrderedIncreasing(s2, p);
        forall v
          ensures v in s1[p].value <==> v in s2[p].value
        {
          if v in s1[p].value {
            var k :| 0 <= k < |s1[p].value| && s1[p].value[k] == v;
            assert Entry(s1, p, k) && InList(s1, p, v);
          }
          if v in s2[p].value {
            var k :| 0 <= k < |s2[p].value| && s2[p].value[k] == v;
            assert Entry(s2, p, k) && InList(s2, p, v);
          }
        }
        IncreasingUnique(s1[p].value, s2[p].value);
      }
    }
  }

  /** The subtask lists of a list of todos as the attachment rule gives them: each list
      is non-empty and in position order, and holds exactly the todos that go under its
      owner. */
  ghost predicate Follows(lines: seq<string>, rs: seq<TodoParsingResult>, subs: Subtasks)
    requires |rs| <= |lines|
  {
    && |subs| == |rs| && Ordered(subs) && Below(subs, |rs|)
    && (forall p :: 0 <= p < |subs| && subs[p].Some? ==> |subs[p].value| > 0)
    && forall p: nat, c: nat :: p < |rs| && c < |rs| ==>
      (InList(subs, p, c) <==> AttachesTo(lines, rs, p, c))
  }

  /** What the loop leaves on a list of todos follows the rule. */
  lemma LoopFollows(lines: seq<string>, rs: seq<TodoParsingResult>, subs: Subtasks)
    requires |rs| <= |lines| && AllTodos(rs)
    requires TreeInv(lines, rs, |rs|, subs) && Nesting(lines, rs, |rs|, subs)
    ensures Follows(lines, rs, subs)
  {
    NestingRule(lines, rs, subs);
  }

  /** The rule fixes the subtask lists. */
  lemma FollowsUnique(lines: seq<string>, rs: seq<TodoParsingResult>, s1: Subtasks, s2: Subtasks)
    requires |rs| <= |lines| && AllTodos(rs) && Follows(lines, rs, s1) && Follows(lines, rs, s2)
    ensures s1 == s2
  {
    forall p: nat, c: nat | p < |rs| && c < |rs|
      ensures InList(s1, p, c) <==> ParentOf(lines, rs, p, c)
      ensures InList(s2, p, c) <==> ParentOf(lines, rs, p, c)
    {
      ParentRule(lines, rs, p, c);
    }
    NestingDetermines(lines, rs, s1, s2);
  }

  /** When no line read is blank, every todo after the first goes under the nearest
      earlier todo indented less than it. */
  lemma AttachesToPlain(lines: seq<string>, rs: seq<TodoParsingResult>, p: nat, c: nat)
    requires c < |rs| <= |lines|
    requires forall k :: 0 <= k < |rs| ==> rs[k].isTodo && !Blank(lines[k])
    ensures AttachesTo(lines, rs, p, c) <==>
      && 0 < c && p < c && Level(rs, p) < Level(rs, c)
      && forall x :: p < x < c ==> Level(rs, x) >= Level(rs, c)
  {
    forall x: nat | x < c
      ensures Visited(lines, rs, x)
    {
      LastVisitedPrevious(lines, rs, x + 1);
    }
    if 0 < c {
      LastVisitedPrevious(lines, rs, c);
    }
  }

  /** The five-line sample `A` (level 0), `B` (2), `C` (2), `D` (4), `E` (0): `A` has
      the subtasks `B` and `C`, `C` has `D`, and `B`, `D` and `E` have none. Two todos
      at the same level are siblings. */
  lemma SampleNesting(lines: seq<string>, rs: seq<TodoParsingResult>, subs: Subtasks)
    requires |rs| == 5 && |rs| <= |lines|
    requires forall k :: 0 <= k < |rs| ==> rs[k].isTodo && !Blank(lines[k])
    requires Level(rs, 0) == 0 && Level(rs, 1) == 2 && Level(rs, 2) == 2
    requires Level(rs, 3) == 4 && Level(rs, 4) == 0
    requires Follows(lines, rs, subs)
    ensures subs == [Some([1, 2]), None, Some([3]), None, None]
  {
    var e: Subtasks := [Some([1, 2]), None, Some([3]), None, None];
    forall p: nat, c: nat | p < |rs| && c < |rs|
      ensures InList(e, p, c) <==> AttachesTo(lines, rs, p, c)
    {
      AttachesToPlain(lines, rs, p, c);
    }
    assert Ordered(e) by {
      forall j: nat, k: nat, k': nat | Entry(e, j, k) && Entry(e, j, k') && k < k'
        ensures e[j].value[k] < e[j].value[k']
      {
      }
    }
    assert Below(e, |rs|) by {
      forall j: nat, k: nat | Entry(e, j, k)
        ensures e[j].value[k] < |rs|
      {
      }
    }
    FollowsUnique(lines, rs, subs, e);
  }

  // ---------------------------------------------------------------------------
  // Which line the blank test reads

  /** Once the first position is a todo, there is always a last visited todo. */
  lemma {:induction false} LastVisitedStarted(lines: seq<string>, rs: seq<TodoParsingResult>, i: nat)
    requires 0 < i <= |rs| <= |lines| && rs[0].isTodo
    ensures LastVisited(lines, rs, i).Some?
  {
    if i > 1 {
      LastVisitedStarted(lines, rs, i - 1);
    }
  }

  /** With the list passed in and the line read at the same position, a todo after the
      first whose position in the list falls on a blank line of `lines` is nobody's
      subtask and has none, however deep it is indented. */
  lemma BlankSkipped(lines: seq<string>, rs: seq<TodoParsingResult>, subs: Subtasks, i: nat)
    requires |rs| <= |lines| && TreeInv(lines, rs, |rs|, subs)
    requires 0 < i < |rs| && rs[0].isTodo && Blank(lines[i])
    ensures forall j: nat, k: nat :: Entry(subs, j, k) ==> subs[j].value[k] != i
    ensures subs[i].None?
  {
    forall j: nat, k: nat | Entry(subs, j, k)
      ensures subs[j].value[k] != i
    {
      assert ChildOk(lines, rs, j, subs[j].value[k]);
    }
    LastVisitedStarted(lines, rs, i);
  }

  /** When every line read is a todo's own line, none of them is blank, each todo after
      the first is visited right after the one before it, and a todo indented deeper
      than the one before it is that todo's first subtask. */
  lemma {:induction false} LastVisitedPrevious(lines: seq<string>, rs: seq<TodoParsingResult>, i: nat)
    requires 0 < i <= |rs| <= |lines|
    requires forall k :: 0 <= k < |rs| ==> rs[k].isTodo && !Blank(lines[k])
    ensures LastVisited(lines, rs, i) == Some(i - 1)
  {
    if i > 1 {
      LastVisitedPrevious(lines, rs, i - 1);
    }
  }

  lemma DeeperNests(lines: seq<string>, rs: seq<TodoParsingResult>, subs: Subtasks, i: nat)
    requires |rs| <= |lines| && TreeInv(lines, rs, |rs|, subs)
    requires forall k :: 0 <= k < |rs| ==> rs[k].isTodo && !Blank(lines[k])
    requires 0 < i < |rs| && Level(rs, i) > Level(rs, i - 1)
    ensures subs[i - 1].Some? && |subs[i - 1].value| > 0 && subs[i - 1].value[0] == i
  {
    LastVisitedPrevious(lines, rs, i);
    assert Deeper(lines, rs, i);
  }
}
