/**
 * The order of the todo list view, from `TodoListComponent`: active todos first, then
 * completed ones, then canceled ones; within a status the higher priority first; then
 * the text, ignoring case.
 */
module TodoListOrder {
  import opened Wrappers
  import opened Strings
  import opened Dicts
  import opened TodoItems

  /** `getPriorityValue`: the rank of the `priority` attribute. A todo without
      attributes or with a falsy priority, and a priority outside the table (including
      the flag `true`, which looks up the key `"true"`), rank 0. */
  function PriorityValue(todo: TodoItem): (v: int)
    ensures v in {10, 9, 5, 3, -1, 0}
    ensures var p := if todo.attributes.Some? then Get(todo.attributes.value, "priority") else None;
      && (v == 10 <==> p == Some(Str("critical")))
      && (v == 9 <==> p == Some(Str("high")))
      && (v == 5 <==> p == Some(Str("medium")))
      && (v == 3 <==> p == Some(Str("low")))
      && (v == -1 <==> p == Some(Str("lowest")))
  {
    if todo.attributes.None? then 0
    else
      var priority: Option<AttrValue> := Get(todo.attributes.value, "priority");
      if priority.None? || priority.value.Flag? then 0
      else
        var p := priority.value.text;
        if p == "critical" then 10
        else if p == "high" then 9
        else if p == "medium" then 5
        else if p == "low" then 3
        else if p == "lowest" then -1
        else 0
  }

  /** The priority names in the order they rank. */
  lemma PriorityRanking(a: TodoItem, b: TodoItem, pa: string, pb: string)
    requires a.attributes.Some? && Get(a.attributes.value, "priority") == Some(Str(pa))
    requires b.attributes.Some? && Get(b.attributes.value, "priority") == Some(Str(pb))
    requires
      || (pa == "critical" && pb in {"high", "medium", "low", "lowest"})
      || (pa == "high" && pb in {"medium", "low", "lowest"})
      || (pa == "medium" && pb in {"low", "lowest"})
      || (pa == "low" && pb == "lowest")
    ensures PriorityValue(a) > PriorityValue(b)
  {
  }

  /** `getStatusValue`: canceled 0, complete 1, any other status 10. */
  function StatusValue(todo: TodoItem): (v: int)
    ensures v == 0 <==> todo.status == Canceled
    ensures v == 1 <==> todo.status == Complete
    ensures v == 10 <==> todo.status !in {Canceled, Complete}
  {
    match todo.status
    case Canceled => 0
    case Complete => 1
    case _ => 10
  }

  /** `localeCompare` of the lower-cased texts, read as code-point order. */
  function TextCompare(a: string, b: string): int {
    if LexLess(Lower(a), Lower(b)) then -1 else if Lower(a) == Lower(b) then 0 else 1
  }

  /** The comparator passed to `sort`: negative when `a` goes first. */
  function Compare(a: TodoItem, b: TodoItem): int {
    var statusDiff := StatusValue(b) - StatusValue(a);
    if statusDiff != 0 then statusDiff
    else
      var priorityDiff := PriorityValue(b) - PriorityValue(a);
      if priorityDiff == 0 then TextCompare(a.text, b.text)
      else priorityDiff
  }

  /** `a` may come before `b`. */
  predicate InOrder(a: TodoItem, b: TodoItem) {
    Compare(a, b) <= 0
  }

  /** The comparator orders by descending status value, then descending priority value,
      then ascending lower-cased text. */
  lemma InOrderSpec(a: TodoItem, b: TodoItem)
    ensures InOrder(a, b) <==>
      || StatusValue(a) > StatusValue(b)
      || (StatusValue(a) == StatusValue(b) && PriorityValue(a) > PriorityValue(b))
      || (StatusValue(a) == StatusValue(b) && PriorityValue(a) == PriorityValue(b) && !LexLess(Lower(b.text), Lower(a.text)))
  {
    LexAsymmetric(Lower(a.text), Lower(b.text));
    LexIrreflexive(Lower(a.text));
    LexTotal(Lower(a.text), Lower(b.text));
  }

  /** Any two todos are ordered one way or the other. */
  lemma InOrderTotal(a: TodoItem, b: TodoItem)
    ensures InOrder(a, b) || InOrder(b, a)
  {
    InOrderSpec(a, b);
    InOrderSpec(b, a);
    LexAsymmetric(Lower(a.text), Lower(b.text));
  }

  lemma InOrderTransitive(a: TodoItem, b: TodoItem, c: TodoItem)
    requires InOrder(a, b) && InOrder(b, c)
    ensures InOrder(a, c)
  {
    InOrderSpec(a, b);
    InOrderSpec(b, c);
    InOrderSpec(a, c);
    var x, y, z := Lower(a.text), Lower(b.text), Lower(c.text);
    if StatusValue(a) == StatusValue(c) && PriorityValue(a) == PriorityValue(c) && LexLess(z, x) {
      assert StatusValue(a) == StatusValue(b) && PriorityValue(a) == PriorityValue(b);
      LexTotal(x, y);
      if LexLess(x, y) {
        LexTotal(y, z);
        if LexLess(y, z) {
          LexTransitive(x, y, z);
          LexAsymmetric(x, z);
        } else if y == z {
          LexAsymmetric(x, z);
        }
      } else if x == y {
        assert !LexLess(z, y);
      }
    }
  }

  /** The todos are in the order of the comparator, every pair of them. */
  predicate Sorted(s: seq<TodoItem>) {
    forall i, j :: 0 <= i < j < |s| ==> InOrder(s[i], s[j])
  }

  /** `sortTodos`: a missing list gives a new empty one; otherwise the list itself is
      sorted in place and returned, as a permutation of what it held. */
  method SortTodos(todos: array?<TodoItem>) returns (r: array<TodoItem>)
    modifies todos
    ensures todos == null ==> fresh(r) && r.Length == 0
    ensures todos != null ==> r == todos && Sorted(r[..]) && multiset(r[..]) == multiset(old(todos[..]))
  {
    if todos == null {
      return new TodoItem[0];
    }
    InsertionSort(todos);
    return todos;
  }

  /** The sort, written as an insertion sort by adjacent swaps. */
  method InsertionSort(a: array<TodoItem>)
    modifies a
    ensures Sorted(a[..]) && multiset(a[..]) == multiset(old(a[..]))
  {
    var i := 0;
    while i < a.Length
      invariant 0 <= i <= a.Length
      invariant Sorted(a[..i])
      invariant multiset(a[..]) == multiset(old(a[..]))
    {
      Insert(a, i);
      i := i + 1;
    }
    assert a[..a.Length] == a[..];
  }

  /** Moves `a[i]` left into the sorted prefix `a[..i]`. */
  method Insert(a: array<TodoItem>, i: nat)
    requires i < a.Length && Sorted(a[..i])
    modifies a
    ensures Sorted(a[..i + 1]) && multiset(a[..]) == multiset(old(a[..]))
  {
    var j := i;
    SortedIsPartial(a[..], i);
    while j > 0 && !InOrder(a[j - 1], a[j])
      invariant 0 <= j <= i
      invariant multiset(a[..]) == multiset(old(a[..]))
      invariant Partial(a[..], j, i)
    {
      ghost var s := a[..];
      SwapStep(s, j, i);
      a[j - 1], a[j] := a[j], a[j - 1];
      assert a[..] == Swap(s, j);
      j := j - 1;
    }
    SortedAfterInsert(a[..], j, i);
  }

  /** All pairs of `s[..i + 1]` are in order, except those with the element at `j`,
      which is in order with everything after it. */
  predicate Partial(s: seq<TodoItem>, j: nat, i: nat)
    requires j <= i < |s|
  {
    && (forall k, l :: 0 <= k < l <= i && k != j && l != j ==> InOrder(s[k], s[l]))
    && (forall l :: j < l <= i ==> InOrder(s[j], s[l]))
  }

  function Swap(s: seq<TodoItem>, j: nat): (r: seq<TodoItem>)
    requires 0 < j < |s|
    ensures multiset(r) == multiset(s)
  {
    s[j - 1 := s[j]][j := s[j - 1]]
  }

  lemma SortedIsPartial(s: seq<TodoItem>, i: nat)
    requires i < |s| && Sorted(s[..i])
    ensures Partial(s, i, i)
  {
    forall k, l | 0 <= k < l <= i && k != i && l != i
      ensures InOrder(s[k], s[l])
    {
      assert s[k] == s[..i][k] && s[l] == s[..i][l];
    }
  }

  /** Swapping the element at `j` with a left neighbour it must precede keeps the
      pairs in order, with the element now at `j - 1`. */
  lemma SwapStep(s: seq<TodoItem>, j: nat, i: nat)
    requires 0 < j <= i < |s| && Partial(s, j, i) && !InOrder(s[j - 1], s[j])
    ensures Partial(Swap(s, j), j - 1, i)
  {
    InOrderTotal(s[j - 1], s[j]);
  }

  /** When the inserted element has stopped moving, the prefix is sorted: it is in
      order with its left neighbour, so with everything before it. */
  lemma SortedAfterInsert(s: seq<TodoItem>, j: nat, i: nat)
    requires j <= i < |s| && Partial(s, j, i)
    requires j > 0 ==> InOrder(s[j - 1], s[j])
    ensures Sorted(s[..i + 1])
  {
    forall k | 0 <= k < j
      ensures InOrder(s[k], s[j])
    {
      if k < j - 1 {
        InOrderTransitive(s[k], s[j - 1], s[j]);
      }
    }
  }
}
