/**
 * The two editor commands: `ToggleTodoCommand` checks or unchecks the todo on the
 * cursor's line and `ToggleOngoingTodoCommand` marks it as ongoing. Both read the line
 * with a parser that has no settings and write it back only when it is a todo.
 */
module Commands {
  import opened Wrappers
  import opened Strings
  import opened LineGrammar
  import opened LineFormat
  import opened TodoItems
  import opened LineOperations

  /** The editor buffer: its lines, and the line of the cursor's `from` position. */
  class Editor {
    const lines: array<string>
    var cursor: nat

    constructor(contents: seq<string>, cursor: nat)
      ensures lines[..] == contents && this.cursor == cursor
    {
      lines := new string[|contents|](i requires 0 <= i < |contents| => contents[i]);
      this.cursor := cursor;
    }

    predicate Valid()
      reads this
    {
      cursor < lines.Length
    }
  }

  /** The statuses of the marks the commands write. */
  lemma ToggleMarks()
    ensures MarkToStatus(' ') == Todo && MarkToStatus('x') == Complete && MarkToStatus('-') == Canceled
  {
  }

  // ---------------------------------------------------------------------------
  // `ToggleTodoCommand`

  /** The line the toggle writes back, or nothing when the line is not a todo: a
      complete todo gets `[ ]`, any other one `[x]`. */
  function ToggleTodoLine(line: string, lineNumber: nat): (r: Option<string>)
    ensures r.None? <==> ParseLine(line).checkbox == ""
  {
    var todo := ToTodo(None, line, Some(lineNumber));
    if !todo.isTodo then None
    else Some(SetCheckmark(line, if todo.todo.value.status == Complete then " " else "x"))
  }

  /** `editorCallback`: only the cursor's line is read, and it is written back only
      when it is a todo; every other line stays as it was. */
  method ToggleTodoCallback(editor: Editor)
    requires editor.Valid()
    modifies editor.lines
    ensures var r := ToggleTodoLine(old(editor.lines[editor.cursor]), editor.cursor);
      editor.lines[..] == if r.None? then old(editor.lines[..]) else old(editor.lines[..])[editor.cursor := r.value]
  {
    var lineNumber := editor.cursor;
    var line := editor.lines[lineNumber];
    var todo := ToTodo(None, line, Some(lineNumber));
    if todo.isTodo {
      line := SetCheckmark(line, if todo.todo.value.status == Complete then " " else "x");
      editor.lines[lineNumber] := line;
    }
  }

  /** The rewritten line reads back as the same todo with its status flipped between
      complete and not: complete becomes `Todo`, every other status `Complete`; text,
      attributes and level stay. */
  lemma ToggleTodoLineSpec(line: string, n: nat)
    requires ParseLine(line).checkbox != ""
    ensures var before := ToTodo(None, line, Some(n));
      var after := ToTodo(None, ToggleTodoLine(line, n).value, Some(n));
      && after.todo == Some(before.todo.value.(status := if before.todo.value.status == Complete then Todo else Complete))
      && after.indentLevel == before.indentLevel
  {
    ToggleMarks();
    if ToTodo(None, line, Some(n)).todo.value.status == Complete {
      assert ToggleTodoLine(line, n) == Some(SetCheckmark(line, " "));
      ToTodoRemark(None, line, ' ', Some(n));
    } else {
      assert ToggleTodoLine(line, n) == Some(SetCheckmark(line, "x"));
      ToTodoRemark(None, line, 'x', Some(n));
    }
  }

  /** Toggling twice sets the mark the todo started with, `x` for a complete todo and
      a space for any other. */
  lemma ToggleTodoTwice(line: string, n: nat)
    requires ParseLine(line).checkbox != ""
    ensures var before := ToTodo(None, line, Some(n)).todo.value;
      var once := ToggleTodoLine(line, n);
      && once.Some?
      && ToggleTodoLine(once.value, n) == Some(SetCheckmark(line, if before.status == Complete then "x" else " "))
  {
    var before := ToTodo(None, line, Some(n)).todo.value;
    ToggleMarks();
    if before.status == Complete {
      assert ToggleTodoLine(line, n) == Some(SetCheckmark(line, " "));
      ToggleTodoBack(line, n, ' ', 'x');
    } else {
      assert ToggleTodoLine(line, n) == Some(SetCheckmark(line, "x"));
      ToggleTodoBack(line, n, 'x', ' ');
    }
  }

  /** When `m2` is the mark the toggle writes for the status of `m`, toggling a line
      whose mark was set to `m` sets `m2`. */
  lemma ToggleTodoBack(line: string, n: nat, m: char, m2: char)
    requires ParseLine(line).checkbox != "" && !IsLineTerminator(m)
    requires [m2] == if MarkToStatus(m) == Complete then " " else "x"
    ensures ToggleTodoLine(SetCheckmark(line, [m]), n) == Some(SetCheckmark(line, [m2]))
  {
    var once := SetCheckmark(line, [m]);
    ToTodoRemark(None, line, m, Some(n));
    assert ToggleTodoLine(once, n) == Some(SetCheckmark(once, [m2]));
    SetCheckmarkLast(line, [m], [m2]);
  }

  // ---------------------------------------------------------------------------
  // `ToggleOngoingTodoCommand`

  /** The line the ongoing toggle writes back, or nothing when the line is not a todo:
      an in-progress todo gets `[ ]`, any other one `[-]`. The line is read without a
      line number. */
  function ToggleOngoingLine(line: string): (r: Option<string>)
    ensures r.None? <==> ParseLine(line).checkbox == ""
  {
    var todo := ToTodo(None, line, None);
    if !todo.isTodo then None
    else Some(SetCheckmark(line, if todo.todo.value.status == InProgress then " " else "-"))
  }

  /** `editorCallback`: only the cursor's line is read, and it is written back only
      when it is a todo; every other line stays as it was. */
  method ToggleOngoingCallback(editor: Editor)
    requires editor.Valid()
    modifies editor.lines
    ensures var r := ToggleOngoingLine(old(editor.lines[editor.cursor]));
      editor.lines[..] == if r.None? then old(editor.lines[..]) else old(editor.lines[..])[editor.cursor := r.value]
  {
    var lineNumber := editor.cursor;
    var line := editor.lines[lineNumber];
    var todo := ToTodo(None, line, None);
    if todo.isTodo {
      line := SetCheckmark(line, if todo.todo.value.status == InProgress then " " else "-");
      editor.lines[lineNumber] := line;
    }
  }

  /** The rewritten line of an in-progress todo reads back as `Todo`, and every other
      one as `Canceled`, because `-` is a canceled mark. Text, attributes and level
      stay. */
  lemma ToggleOngoingLineSpec(line: string)
    requires ParseLine(line).checkbox != ""
    ensures var before := ToTodo(None, line, None);
      var after := ToTodo(None, ToggleOngoingLine(line).value, None);
      && after.todo == Some(before.todo.value.(status := if before.todo.value.status == InProgress then Todo else Canceled))
      && after.indentLevel == before.indentLevel
  {
    ToggleMarks();
    if ToTodo(None, line, None).todo.value.status == InProgress {
      assert ToggleOngoingLine(line) == Some(SetCheckmark(line, " "));
      ToTodoRemark(None, line, ' ', None);
    } else {
      assert ToggleOngoingLine(line) == Some(SetCheckmark(line, "-"));
      ToTodoRemark(None, line, '-', None);
    }
  }

  /** A todo line that is not in progress is marked `[-]`. */
  lemma OngoingMarks(t: string)
    requires ParseLine(t).checkbox != "" && ToTodo(None, t, None).todo.value.status != InProgress
    ensures ToggleOngoingLine(t) == Some(SetCheckmark(t, "-"))
  {
  }

  /** The line with `[-]` reads back as a canceled todo. */
  lemma DashReadsCanceled(line: string)
    requires ParseLine(line).checkbox != ""
    ensures ParseLine(SetCheckmark(line, "-")).checkbox != ""
    ensures ToTodo(None, SetCheckmark(line, "-"), None).todo.value.status == Canceled
  {
    ToggleMarks();
    ToTodoRemark(None, line, '-', None);
    assert "-" == ['-'];
  }

  /** A second toggle gives the line with `[-]`, whichever mark the first one set. */
  lemma ToggleOngoingAgain(line: string)
    requires ParseLine(line).checkbox != ""
    ensures ToggleOngoingLine(line).Some?
    ensures ToggleOngoingLine(ToggleOngoingLine(line).value) == Some(SetCheckmark(line, "-"))
  {
    ToggleMarks();
    if ToTodo(None, line, None).todo.value.status == InProgress {
      assert ToggleOngoingLine(line) == Some(SetCheckmark(line, " "));
      ToggleOngoingBack(line, ' ');
    } else {
      assert ToggleOngoingLine(line) == Some(SetCheckmark(line, "-"));
      ToggleOngoingBack(line, '-');
    }
  }

  /** Toggling a line whose mark was set to one that does not read as in progress
      sets `-`. */
  lemma ToggleOngoingBack(line: string, m: char)
    requires ParseLine(line).checkbox != "" && !IsLineTerminator(m) && MarkToStatus(m) != InProgress
    ensures ToggleOngoingLine(SetCheckmark(line, [m])) == Some(SetCheckmark(line, "-"))
  {
    var once := SetCheckmark(line, [m]);
    ToTodoRemark(None, line, m, None);
    OngoingMarks(once);
    SetCheckmarkLast(line, [m], "-");
  }

  /** The line with `[-]` is left as it is. */
  lemma ToggleOngoingDash(line: string)
    requires ParseLine(line).checkbox != ""
    ensures ToggleOngoingLine(SetCheckmark(line, "-")) == Some(SetCheckmark(line, "-"))
  {
    DashReadsCanceled(line);
    OngoingMarks(SetCheckmark(line, "-"));
    SetCheckmarkIdempotent(line, "-");
  }
}
