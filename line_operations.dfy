/**
 * The line-level rules of `LineOperations` built on `parseLine` and `lineToString`:
 * toggling and setting the checkbox, reading a status from the checkbox mark, the
 * indentation level, and `toTodo`, which turns one line into a parsing result.
 */
module LineOperations {
  import opened Wrappers
  import opened Strings
  import opened LineGrammar
  import opened LineFormat
  import opened TodoItems
  import opened AttributeTokens
  import opened AttributeParsing

  /** `toggleTodo`: the line with its checkbox removed, or with `[ ]` when it had none. */
  function ToggleTodo(s: string): string {
    var f := ParseLine(s);
    LineToString(f.(checkbox := if f.checkbox != "" then "" else "[ ]"))
  }

  /** `setCheckmark`: the line with its checkbox set to `[` + mark + `]`. */
  function SetCheckmark(s: string, mark: string): string {
    LineToString(ParseLine(s).(checkbox := "[" + mark + "]"))
  }

  /** A mark that `\[.?\]` reads back: nothing, or one character that is not a line
      terminator. */
  predicate IsMark(mark: string) {
    |mark| == 0 || (|mark| == 1 && !IsLineTerminator(mark[0]))
  }

  /** Changing the checkbox of a well-formed structure to a non-empty one keeps it well
      formed: a checkbox that is present lifts every restriction on the text that only
      matters when the groups before the text are empty. */
  lemma WithCheckbox(f: LineStructure, checkbox: string)
    requires WellFormed(f) && IsCheckbox(checkbox)
    ensures WellFormed(f.(checkbox := checkbox))
  {
  }

  /** On a line the expression matches, `setCheckmark` changes the checkbox and nothing
      else: the new line reads back as the old groups with the new checkbox. */
  lemma SetCheckmarkReadsBack(s: string, mark: string)
    requires Scan(s).Some? && IsMark(mark)
    ensures ParseLine(SetCheckmark(s, mark)) == ParseLine(s).(checkbox := "[" + mark + "]")
  {
    ParseLineWellFormed(s);
    var c := "[" + mark + "]";
    assert IsCheckbox(c);
    WithCheckbox(ParseLine(s), c);
    ParseLineToString(ParseLine(s).(checkbox := c));
  }

  /** Setting the same mark twice writes the same line as setting it once. */
  lemma SetCheckmarkIdempotent(s: string, mark: string)
    requires Scan(s).Some? && IsMark(mark)
    ensures SetCheckmark(SetCheckmark(s, mark), mark) == SetCheckmark(s, mark)
  {
    SetCheckmarkReadsBack(s, mark);
  }

  /** Setting a mark over another writes the same line as setting only the second. */
  lemma SetCheckmarkLast(s: string, first: string, second: string)
    requires Scan(s).Some? && IsMark(first)
    ensures SetCheckmark(SetCheckmark(s, first), second) == SetCheckmark(s, second)
  {
    SetCheckmarkReadsBack(s, first);
    var f := ParseLine(s);
    assert f.(checkbox := "[" + first + "]").(checkbox := "[" + second + "]") == f.(checkbox := "[" + second + "]");
  }

  /** `toggleTodo` on a matched line without a checkbox adds `[ ]` and keeps the other
      groups. */
  lemma ToggleTodoAdds(s: string)
    requires Scan(s).Some? && ParseLine(s).checkbox == ""
    ensures ParseLine(ToggleTodo(s)) == ParseLine(s).(checkbox := "[ ]")
  {
    var f := ParseLine(s);
    assert "[" + " " + "]" == "[ ]";
    assert f.(checkbox := "[ ]") == f.(checkbox := "[" + " " + "]");
    SetCheckmarkReadsBack(s, " ");
  }

  /** `toggleTodo` on a line with a checkbox drops it and keeps the other groups, when
      the structure without the checkbox is one the expression can produce. */
  lemma ToggleTodoRemoves(s: string)
    requires ParseLine(s).checkbox != "" && WellFormed(ParseLine(s).(checkbox := ""))
    ensures ParseLine(ToggleTodo(s)) == ParseLine(s).(checkbox := "")
  {
    ParseLineToString(ParseLine(s).(checkbox := ""));
  }

  /** Adding a checkbox and then toggling again gives back the canonical form of the
      line. */
  lemma ToggleTodoTwice(s: string)
    requires Scan(s).Some? && ParseLine(s).checkbox == ""
    ensures ToggleTodo(ToggleTodo(s)) == LineToString(ParseLine(s))
  {
    ToggleTodoAdds(s);
    var f := ParseLine(s);
    assert f.(checkbox := "[ ]").(checkbox := "") == f;
  }

  /** Removing a checkbox can uncover text that reads as a checkbox: when the text
      after `[ ]` itself starts with `[ ] ` and there is no date, as in `- [ ] [ ] x`,
      `toggleTodo` writes the line with the inner checkbox, which is read back as the
      checkbox again. */
  lemma ToggleTodoUncovers(g: LineStructure)
    requires WellFormed(g) && g.checkbox == "[ ]" && g.date == ""
    ensures var s := LineToString(g.(line := "[ ] " + g.line));
      && ParseLine(s) == g.(line := "[ ] " + g.line)
      && ToggleTodo(s) == LineToString(g)
      && ParseLine(ToggleTodo(s)).checkbox == "[ ]"
  {
    var f := g.(line := "[ ] " + g.line);
    UncoverWellFormed(g);
    ParseLineToString(f);
    ParseLineToString(g);
    ToggleTodoOf(LineToString(f), f);
    UncoverText(g);
  }

  lemma UncoverWellFormed(g: LineStructure)
    requires WellFormed(g) && g.checkbox == "[ ]" && g.date == ""
    ensures WellFormed(g.(line := "[ ] " + g.line))
  {
    var x := "[ ] " + g.line;
    assert TextOk(x) by {
      assert x[..4] == "[ ] " && x[4..] == g.line;
    }
    assert !DateHead(x, 10) && !DateHead(x, 5);
  }

  lemma UncoverText(g: LineStructure)
    requires g.checkbox == "[ ]" && g.date == ""
    ensures LineToString(g.(line := "[ ] " + g.line).(checkbox := "")) == LineToString(g)
  {
    assert BoxText("", "", "[ ] " + g.line) == BoxText("[ ]", "", g.line);
  }

  /** `toggleTodo` in terms of the groups of the line. */
  lemma ToggleTodoOf(s: string, f: LineStructure)
    requires ParseLine(s) == f
    ensures ToggleTodo(s) == LineToString(f.(checkbox := if f.checkbox != "" then "" else "[ ]"))
  {
  }

  /** `markToStatus`, after lower-casing the mark. */
  function MarkToStatus(mark: char): TodoStatus {
    var m := LowerChar(mark);
    if m == ']' || m == '-' || m == 'c' then Canceled
    else if m == '>' then InProgress
    else if m == '!' then AttentionRequired
    else if m == 'x' then Complete
    else if m == ' ' then Todo
    else if m == 'd' then Delegated
    else Todo
  }

  /** `getIndentationLevel`: the number of spaces plus four times the number of tabs. */
  function IndentationLevel(s: string): nat {
    CountChar(s, ' ') + 4 * CountChar(s, '\t')
  }

  predicate AllSpaces(s: string) {
    forall i :: 0 <= i < |s| ==> s[i] == ' '
  }

  lemma {:induction false} CountSpacesTabs(s: string)
    ensures CountChar(s, ' ') + CountChar(s, '\t') <= |s|
    ensures AllSpaces(s) ==> CountChar(s, ' ') == |s| && CountChar(s, '\t') == 0
  {
    if |s| > 0 {
      CountSpacesTabs(s[1..]);
    }
  }

  /** At most four per character, and exactly the length for spaces alone. */
  lemma IndentationLevelBounds(s: string)
    ensures IndentationLevel(s) <= 4 * |s|
    ensures AllSpaces(s) ==> IndentationLevel(s) == |s|
  {
    CountSpacesTabs(s);
  }

  lemma {:induction false} CountCharConcat(a: string, b: string, c: char)
    ensures CountChar(a + b, c) == CountChar(a, c) + CountChar(b, c)
  {
    if |a| > 0 {
      assert (a + b)[1..] == a[1..] + b;
      CountCharConcat(a[1..], b, c);
    } else {
      assert a + b == b;
    }
  }

  /** The level counts characters, not positions: it adds up over concatenation, so
      the order of spaces and tabs does not matter. */
  lemma IndentationLevelConcat(a: string, b: string)
    ensures IndentationLevel(a + b) == IndentationLevel(a) + IndentationLevel(b)
  {
    CountCharConcat(a, b, ' ');
    CountCharConcat(a, b, '\t');
  }

  /** The checkbox group is empty or a checkbox. */
  lemma CheckboxShape(s: string)
    ensures ParseLine(s).checkbox == "" || IsCheckbox(ParseLine(s).checkbox)
  {
    if Scan(s).Some? {
      ParseLineWellFormed(s);
    }
  }

  /** A line with a checkbox has a character that is not white space: the `[` of the
      checkbox. */
  lemma CheckboxLineNotBlank(s: string)
    requires ParseLine(s).checkbox != ""
    ensures !AllWhitespace(s)
  {
    CheckboxShape(s);
    ParseLineNoMatch(s);
    var l := Scan(s).value;
    LineSplit(s, l);
    BoxNotBlank(LineLayout(s, l));
  }

  lemma BoxNotBlank(r: Layout)
    requires |r.fields.checkbox| > 0 && r.fields.checkbox[0] == '['
    ensures !AllWhitespace(Assemble(r))
  {
    var pre := r.fields.indentation + r.fields.listMarker + r.markerGap;
    assert Assemble(r) == pre + (r.fields.checkbox + r.boxGap + DatePart(r));
    assert Assemble(r)[|pre|] == '[';
  }

  /** `ITodoParsingResult`: whether the line is a todo, its number, the todo and the
      indentation level. */
  datatype TodoParsingResult = TodoParsingResult(
    isTodo: bool, lineNumber: Option<nat>, todo: Option<TodoItem>, indentLevel: nat)

  /** `toTodo`: a line with a checkbox becomes a todo whose status comes from the mark,
      whose text and attributes come from `parseAttributes` of the text, which has
      no file yet and whose line is the given number; any other line is not a todo. */
  function ToTodo(cfg: Option<Settings>, s: string, lineNumber: Option<nat>): (r: TodoParsingResult)
    ensures r.isTodo <==> r.todo.Some?
    ensures r.isTodo <==> ParseLine(s).checkbox != ""
    ensures r.lineNumber == lineNumber
    ensures r.indentLevel == IndentationLevel(ParseLine(s).indentation)
  {
    var f := ParseLine(s);
    CheckboxShape(s);
    var indentLevel := IndentationLevel(f.indentation);
    if f.checkbox == "" then
      TodoParsingResult(false, lineNumber, None, indentLevel)
    else
      var a := ParseAttributesSpec(cfg, f.line);
      var todo := TodoItem(MarkToStatus(f.checkbox[1]), a.textWithoutAttributes, None,
        Some(a.attributes), lineNumber, NoSubtasks);
      TodoParsingResult(true, lineNumber, Some(todo), indentLevel)
  }

  /** The todo read from a line written out from a well-formed structure with checkbox
      `[m]`: its status is the one of `m`, its text and attributes are those parsed
      from the structure's text, its line is the given number, it has no file and no
      subtasks, and its level is that of the structure's indentation. */
  lemma ToTodoOfStructure(cfg: Option<Settings>, f: LineStructure, m: char, n: Option<nat>)
    requires WellFormed(f) && f.checkbox == ['[', m, ']']
    ensures var r := ToTodo(cfg, LineToString(f), n);
      var a := ParseAttributesSpec(cfg, f.line);
      && r.isTodo
      && r.todo == Some(TodoItem(MarkToStatus(m), a.textWithoutAttributes, None, Some(a.attributes), n, NoSubtasks))
      && r.indentLevel == IndentationLevel(f.indentation)
  {
    ParseLineToString(f);
  }

  /** `toTodo` of a line with a checkbox, in terms of the groups of the line. */
  lemma ToTodoOf(cfg: Option<Settings>, s: string, f: LineStructure, n: Option<nat>)
    requires ParseLine(s) == f && |f.checkbox| >= 2
    ensures var a := ParseAttributesSpec(cfg, f.line);
      ToTodo(cfg, s, n) == TodoParsingResult(true, n,
        Some(TodoItem(MarkToStatus(f.checkbox[1]), a.textWithoutAttributes, None, Some(a.attributes), n, NoSubtasks)),
        IndentationLevel(f.indentation))
  {
  }

  /** A todo fresh from a line has the given line number and neither a file nor
      subtasks. */
  lemma ToTodoBare(cfg: Option<Settings>, s: string, n: Option<nat>)
    ensures var r := ToTodo(cfg, s, n);
      r.todo.Some? ==> r.todo.value.file.None? && r.todo.value.line == n && r.todo.value.subtasks == NoSubtasks
  {
    CheckboxShape(s);
    if ParseLine(s).checkbox != "" {
      ToTodoOf(cfg, s, ParseLine(s), n);
    }
  }

  /** After `setCheckmark(line, m)` on a matched line the line is a todo whose status is
      the one of `m`; the text, the attributes and the level do not change. */
  lemma {:induction false} ToTodoAfterSetCheckmark(cfg: Option<Settings>, s: string, m: char, n: Option<nat>)
    requires Scan(s).Some? && !IsLineTerminator(m)
    ensures var a := ParseAttributesSpec(cfg, ParseLine(s).line);
      ToTodo(cfg, SetCheckmark(s, [m]), n) == TodoParsingResult(true, n,
        Some(TodoItem(MarkToStatus(m), a.textWithoutAttributes, None, Some(a.attributes), n, NoSubtasks)),
        IndentationLevel(ParseLine(s).indentation))
  {
    SetCheckmarkReadsBack(s, [m]);
    ToTodoWithMark(cfg, SetCheckmark(s, [m]), ParseLine(s), m, n);
  }

  /** Setting mark `m` on a todo line gives the same todo with the status of `m`. */
  lemma ToTodoRemark(cfg: Option<Settings>, s: string, m: char, n: Option<nat>)
    requires ParseLine(s).checkbox != "" && !IsLineTerminator(m)
    ensures ToTodo(cfg, s, n).todo.Some?
    ensures ToTodo(cfg, SetCheckmark(s, [m]), n).todo == Some(ToTodo(cfg, s, n).todo.value.(status := MarkToStatus(m)))
    ensures ToTodo(cfg, SetCheckmark(s, [m]), n).indentLevel == ToTodo(cfg, s, n).indentLevel
  {
    CheckboxShape(s);
    ToTodoOf(cfg, s, ParseLine(s), n);
    ToTodoAfterSetCheckmark(cfg, s, m, n);
  }

  lemma ToTodoWithMark(cfg: Option<Settings>, t: string, f: LineStructure, m: char, n: Option<nat>)
    requires ParseLine(t) == f.(checkbox := "[" + [m] + "]")
    ensures var a := ParseAttributesSpec(cfg, f.line);
      ToTodo(cfg, t, n) == TodoParsingResult(true, n,
        Some(TodoItem(MarkToStatus(m), a.textWithoutAttributes, None, Some(a.attributes), n, NoSubtasks)),
        IndentationLevel(f.indentation))
  {
    assert "[" + [m] + "]" == ['[', m, ']'];
    var g := f.(checkbox := ['[', m, ']']);
    assert ParseLine(t) == g && g.checkbox[1] == m && g.line == f.line && g.indentation == f.indentation;
    ToTodoOf(cfg, t, g, n);
  }

  /** The marks the status is read from, and the status each gives; lower and upper
      case letters are the same mark, and every other mark is `Todo`. */
  lemma MarkToStatusTable(c: char)
    ensures MarkToStatus(c) == Canceled <==> c in {']', '-', 'c', 'C'}
    ensures MarkToStatus(c) == InProgress <==> c == '>'
    ensures MarkToStatus(c) == AttentionRequired <==> c == '!'
    ensures MarkToStatus(c) == Complete <==> c in {'x', 'X'}
    ensures MarkToStatus(c) == Delegated <==> c in {'d', 'D'}
    ensures MarkToStatus(c) == Todo <==> c !in {']', '-', 'c', 'C', '>', '!', 'x', 'X', 'd', 'D'}
  {
  }
}
