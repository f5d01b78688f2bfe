/** `TodoItem.ts`: the status of a todo, the todo record and its identifier. */
module TodoItems {
  import opened Wrappers
  import opened Dicts

  /** `TodoStatus`, a closed set of six tags. */
  datatype TodoStatus = AttentionRequired | Todo | InProgress | Delegated | Complete | Canceled {
    /** The numeric value of the enum member. */
    function Code(): (n: nat)
      ensures n < 6
    {
      match this
      case AttentionRequired => 0
      case Todo => 1
      case InProgress => 2
      case Delegated => 3
      case Complete => 4
      case Canceled => 5
    }
  }

  /** The member with a given numeric value. */
  function StatusOfCode(n: nat): (s: Option<TodoStatus>)
    ensures s.Some? <==> n < 6
    ensures s.Some? ==> s.value.Code() == n
  {
    if n == 0 then Some(AttentionRequired)
    else if n == 1 then Some(Todo)
    else if n == 2 then Some(InProgress)
    else if n == 3 then Some(Delegated)
    else if n == 4 then Some(Complete)
    else if n == 5 then Some(Canceled)
    else None
  }

  /** The six members have six distinct codes, and every status is the one of its code. */
  lemma CodesDistinct(a: TodoStatus, b: TodoStatus)
    ensures a.Code() == b.Code() <==> a == b
    ensures StatusOfCode(a.Code()) == Some(a)
  {
  }

  /** An attribute value: `string | boolean`. */
  datatype AttrValue = Flag(flag: bool) | Str(text: string)

  type Attributes = Dict<AttrValue>

  /** The part of `IFile` the core reads: its identifier and its path. */
  datatype FileRef = FileRef(id: string, path: string)

  /** `TodoItem`: status, text and file, and the optional attributes, line number and
      subtasks. The file is optional here because a todo fresh from a line has none
      until the file parser sets it. */
  datatype TodoItem = TodoItem(
    status: TodoStatus,
    text: string,
    file: Option<FileRef>,
    attributes: Option<Attributes>,
    line: Option<nat>,
    subtasks: SubtaskArray)

  /** The optional `subtasks` array: there is none, or there is one holding todos. */
  datatype SubtaskArray = NoSubtasks | HasSubtasks(todos: seq<TodoItem>)

  /** `getTodoId`: the file's identifier, `-` and the text. Reading `file.id` of a todo
      without a file throws, so a file is required. */
  function GetTodoId(todo: TodoItem): (id: string)
    requires todo.file.Some?
    ensures |id| == |todo.file.value.id| + 1 + |todo.text|
    ensures id[..|todo.file.value.id|] == todo.file.value.id
    ensures id[|todo.file.value.id|] == '-'
    ensures id[|todo.file.value.id| + 1..] == todo.text
  {
    todo.file.value.id + "-" + todo.text
  }

  /** Within one file two todos have the same identifier exactly when they have the
      same text, whatever their status, attributes or line. */
  lemma TodoIdSameFile(a: TodoItem, b: TodoItem)
    requires a.file.Some? && b.file.Some? && a.file.value.id == b.file.value.id
    ensures GetTodoId(a) == GetTodoId(b) <==> a.text == b.text
  {
    var n := |a.file.value.id| + 1;
    if GetTodoId(a) == GetTodoId(b) {
      assert a.text == GetTodoId(a)[n..];
    }
  }

  /** Across files the identifier is not unique: file `a-b` with text `c` and file `a`
      with text `b-c` both give `a-b-c`. */
  lemma TodoIdCollision()
    ensures var a := TodoItem(Todo, "c", Some(FileRef("a-b", "a-b.md")), None, None, NoSubtasks);
      var b := TodoItem(Todo, "b-c", Some(FileRef("a", "a.md")), None, None, NoSubtasks);
      a.file != b.file && GetTodoId(a) == GetTodoId(b)
  {
  }
}
