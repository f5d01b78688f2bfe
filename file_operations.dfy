/**
 * `FileOperations`: read-modify-write of one line of a file. The content is split on
 * its own end-of-line sequence, only the todo's line is parsed, changed and written
 * back, and the lines are joined with the same sequence. The module-level
 * `LineOperations` has no settings, so attributes are read and written in the classic
 * syntax with `due` as the due date attribute.
 */
module FileOperations {
  import opened Wrappers
  import opened Strings
  import opened Dicts
  import opened TodoItems
  import opened LineGrammar
  import opened LineFormat
  import opened AttributeTokens
  import opened AttributeParsing
  import opened LineOperations

  /** The settings of the module-level `LineOperations`: none. */
  const NoSettings: Option<Settings> := None

  /** A file of the vault, reduced to its content. */
  class TextFile {
    var content: string

    constructor(content: string)
      ensures this.content == content
    {
      this.content := content;
    }
  }

  /** `getEOL`: `\r\n` when the content contains it anywhere, `\n` otherwise. */
  function GetEOL(content: string): (eol: string)
    ensures eol == "\r\n" <==> Contains(content, "\r\n")
    ensures eol == "\n" <==> !Contains(content, "\r\n")
  {
    if IndexOf(content, "\r\n").Some? then "\r\n" else "\n"
  }

  /** The lines of the content, split on its end-of-line sequence. */
  function Lines(content: string): (ls: seq<string>)
    ensures |ls| >= 1
  {
    Split(content, GetEOL(content))
  }

  /** The three `updateLine` callbacks, as the change each makes to the parsed line. */
  datatype LineEdit =
    | SetCheckbox(checkbox: string)
    | SetAttribute(name: string, value: Option<AttrValue>)
    | DeleteAttribute(name: string)

  /** The attribute change of `updateAttributeAsync`: `false` and `undefined` delete
      the key, any other value is assigned to it. */
  function UpdateAttributes(a: AttributesStructure, name: string, value: Option<AttrValue>): AttributesStructure {
    if value == None || value == Some(Flag(false)) then a.(attributes := Remove(a.attributes, name))
    else a.(attributes := Set(a.attributes, name, value.value))
  }

  /** On a dictionary with distinct keys, `name` reads the new value afterwards, or is
      absent for `false` and `undefined`; every other key and the text are unchanged. */
  lemma UpdateAttributesSpec(a: AttributesStructure, name: string, value: Option<AttrValue>)
    requires Valid(a.attributes)
    ensures var r := UpdateAttributes(a, name, value);
      && r.textWithoutAttributes == a.textWithoutAttributes
      && Valid(r.attributes)
      && Get(r.attributes, name) == (if value == None || value == Some(Flag(false)) then None else value)
      && forall k :: k != name ==> Get(r.attributes, k) == Get(a.attributes, k)
  {
    if value == None || value == Some(Flag(false)) {
      RemoveSpec(a.attributes, name);
    } else {
      SetSpec(a.attributes, name, value.value);
    }
  }

  /** The callback of each operation applied to the parsed line. */
  function ApplyEdit(e: LineEdit, l: LineStructure): LineStructure {
    match e
    case SetCheckbox(c) => l.(checkbox := c)
    case SetAttribute(name, value) =>
      l.(line := AttributesToString(NoSettings, UpdateAttributes(ParseAttributesSpec(NoSettings, l.line), name, value)))
    case DeleteAttribute(name) =>
      l.(line := AttributesToString(NoSettings, ParseAttributesSpec(NoSettings, l.line).(attributes :=
        Remove(ParseAttributesSpec(NoSettings, l.line).attributes, name))))
  }

  /** `removeAttributeAsync` writes what `updateAttributeAsync` with `undefined` writes. */
  lemma DeleteIsSetUndefined(name: string, l: LineStructure)
    ensures ApplyEdit(DeleteAttribute(name), l) == ApplyEdit(SetAttribute(name, None), l)
  {
  }

  /** Every edit changes one group of the line: the checkbox edit the checkbox, the
      attribute edits the text; and the text written by an attribute edit has the
      parsed text with the changed dictionary, in which only `name` differs. */
  lemma ApplyEditSpec(e: LineEdit, l: LineStructure)
    ensures var r := ApplyEdit(e, l);
      && r.indentation == l.indentation && r.listMarker == l.listMarker && r.date == l.date
      && (e.SetCheckbox? ==> r.checkbox == e.checkbox && r.line == l.line)
      && (!e.SetCheckbox? ==> r.checkbox == l.checkbox)
    ensures e.SetAttribute? || e.DeleteAttribute? ==>
      var a := ParseAttributesSpec(NoSettings, l.line);
      var v := if e.SetAttribute? then e.value else None;
      var w := UpdateAttributes(a, e.name, v);
      && ApplyEdit(e, l).line == AttributesToString(NoSettings, w)
      && w.textWithoutAttributes == a.textWithoutAttributes
      && Get(w.attributes, e.name) == (if v == None || v == Some(Flag(false)) then None else v)
      && forall k :: k != e.name ==> Get(w.attributes, k) == Get(a.attributes, k)
  {
    if e.SetAttribute? || e.DeleteAttribute? {
      ParseAttributesResult(NoSettings, l.line, e.name);
      UpdateAttributesSpec(ParseAttributesSpec(NoSettings, l.line), e.name, if e.SetAttribute? then e.value else None);
    }
  }

  /** The content after line `n` is parsed, edited and written back. */
  function RewriteLine(content: string, n: nat, e: LineEdit): (r: string)
    requires n < |Lines(content)|
    ensures var ls := Lines(content); var eol := GetEOL(content);
      && content == JoinPrefix(ls, n, eol) + ls[n] + JoinSuffix(ls, n, eol)
      && r == JoinPrefix(ls, n, eol) + LineToString(ApplyEdit(e, ParseLine(ls[n]))) + JoinSuffix(ls, n, eol)
  {
    var eol := GetEOL(content);
    var ls := Split(content, eol);
    var x := LineToString(ApplyEdit(e, ParseLine(ls[n])));
    JoinSplit(content, eol);
    JoinUpdate(ls, n, x, eol);
    Join(ls[n := x], eol)
  }

  /** Why a write did not happen: the todo has no line number. */
  datatype WriteError = MissingLine

  /** `updateContentInFileAsync`: a todo without a line is an error and nothing is
      written; otherwise only its line is rewritten. */
  method UpdateContentInFile(file: TextFile, todo: TodoItem, e: LineEdit) returns (r: Outcome<WriteError>)
    requires todo.line.Some? ==> todo.line.value < |Lines(file.content)|
    modifies file
    ensures todo.line.None? ==> r == Fail(MissingLine) && file.content == old(file.content)
    ensures todo.line.Some? ==> r == Pass && file.content == RewriteLine(old(file.content), todo.line.value, e)
  {
    if todo.line.None? {
      return Fail(MissingLine);
    }
    var lineNumber := todo.line.value;
    var content := file.content;
    var eol := GetEOL(content);
    var lines := Split(content, eol);
    var line := ParseLine(lines[lineNumber]);
    line := ApplyEdit(e, line);
    lines := lines[lineNumber := LineToString(line)];
    file.content := Join(lines, eol);
    r := Pass;
  }

  /** `updateAttributeAsync`. */
  method UpdateAttribute(file: TextFile, todo: TodoItem, name: string, value: Option<AttrValue>)
    returns (r: Outcome<WriteError>)
    requires todo.line.Some? ==> todo.line.value < |Lines(file.content)|
    modifies file
    ensures todo.line.None? ==> r == Fail(MissingLine) && file.content == old(file.content)
    ensures todo.line.Some? ==>
      r == Pass && file.content == RewriteLine(old(file.content), todo.line.value, SetAttribute(name, value))
  {
    r := UpdateContentInFile(file, todo, SetAttribute(name, value));
  }

  /** `removeAttributeAsync`. */
  method RemoveAttribute(file: TextFile, todo: TodoItem, name: string) returns (r: Outcome<WriteError>)
    requires todo.line.Some? ==> todo.line.value < |Lines(file.content)|
    modifies file
    ensures todo.line.None? ==> r == Fail(MissingLine) && file.content == old(file.content)
    ensures todo.line.Some? ==>
      r == Pass && file.content == RewriteLine(old(file.content), todo.line.value, DeleteAttribute(name))
  {
    r := UpdateContentInFile(file, todo, DeleteAttribute(name));
  }

  /** `updateCheckboxAsync`. */
  method UpdateCheckbox(file: TextFile, todo: TodoItem, newCheckbox: string) returns (r: Outcome<WriteError>)
    requires todo.line.Some? ==> todo.line.value < |Lines(file.content)|
    modifies file
    ensures todo.line.None? ==> r == Fail(MissingLine) && file.content == old(file.content)
    ensures todo.line.Some? ==>
      r == Pass && file.content == RewriteLine(old(file.content), todo.line.value, SetCheckbox(newCheckbox))
  {
    r := UpdateContentInFile(file, todo, SetCheckbox(newCheckbox));
  }

  /** The mark `updateTodoStatus` writes between the brackets for each status. */
  function StatusMark(s: TodoStatus): (m: string)
    ensures IsMark(m)
  {
    match s
    case Todo => " "
    case Canceled => ""
    case AttentionRequired => "!"
    case Complete => "x"
    case Delegated => "d"
    case InProgress => "-"
  }

  /** The checkbox `updateTodoStatus` writes for each status. */
  function StatusCheckbox(s: TodoStatus): (c: string)
    ensures c == "[" + StatusMark(s) + "]"
  {
    match s
    case Todo => "[ ]"
    case Canceled => "[]"
    case AttentionRequired => "[!]"
    case Complete => "[x]"
    case Delegated => "[d]"
    case InProgress => "[-]"
  }

  /** Reading back the checkbox written for a status gives that status, except for
      `InProgress`, whose `[-]` reads as `Canceled`. */
  lemma StatusCheckboxReadsBack(line: string, s: TodoStatus, n: Option<nat>)
    requires Scan(line).Some?
    ensures var r := ToTodo(NoSettings, SetCheckmark(line, StatusMark(s)), n);
      r.todo.Some? && r.todo.value.status == (if s == InProgress then Canceled else s)
  {
    var m := StatusMark(s);
    SetCheckmarkReadsBack(line, m);
    ReadBackStatus(SetCheckmark(line, m), ParseLine(line), "[" + m + "]", n);
    StatusMarkReadsBack(s);
  }

  lemma StatusMarkReadsBack(s: TodoStatus)
    ensures MarkToStatus(("[" + StatusMark(s) + "]")[1]) == if s == InProgress then Canceled else s
  {
  }

  /** The line `updateCheckboxAsync` writes for a status is the one `setCheckmark`
      writes for its mark. */
  lemma StatusCheckboxIsCheckmark(line: string, s: TodoStatus)
    ensures LineToString(ApplyEdit(SetCheckbox(StatusCheckbox(s)), ParseLine(line))) == SetCheckmark(line, StatusMark(s))
  {
  }

  lemma ReadBackStatus(t: string, f: LineStructure, c: string, n: Option<nat>)
    requires ParseLine(t) == f.(checkbox := c) && |c| >= 2
    ensures var r := ToTodo(NoSettings, t, n);
      r.todo.Some? && r.todo.value.status == MarkToStatus(c[1])
  {
    ToTodoOf(NoSettings, t, f.(checkbox := c), n);
  }

  /** The value `updateTodoStatus` gives the completed attribute: today's date for a
      done todo, `undefined`, which removes the attribute, otherwise. */
  function CompletedValue(s: TodoStatus, today: string): (v: Option<AttrValue>)
    ensures v.Some? <==> s == Complete || s == Canceled
    ensures v.Some? ==> v.value == Str(today)
  {
    if s == Complete || s == Canceled then Some(Str(today)) else None
  }

  /** `updateTodoStatus`: the checkbox of the status is written, then the completed
      attribute is set to `today` for a done todo and removed otherwise, in a second
      read-modify-write. */
  method UpdateTodoStatus(file: TextFile, todo: TodoItem, completedAttribute: string, today: string)
    returns (r: Outcome<WriteError>)
    requires todo.line.Some? ==> todo.line.value < |Lines(file.content)|
    requires todo.line.Some? ==>
      todo.line.value < |Lines(RewriteLine(file.content, todo.line.value, SetCheckbox(StatusCheckbox(todo.status))))|
    modifies file
    ensures todo.line.None? ==> r == Fail(MissingLine) && file.content == old(file.content)
    ensures todo.line.Some? ==> r == Pass
    ensures todo.line.Some? ==> file.content == RewriteLine(
      RewriteLine(old(file.content), todo.line.value, SetCheckbox(StatusCheckbox(todo.status))),
      todo.line.value, SetAttribute(completedAttribute, CompletedValue(todo.status, today)))
  {
    var isCompleted := todo.status == Complete || todo.status == Canceled;
    var newCheckBox := StatusCheckbox(todo.status);
    r := UpdateCheckbox(file, todo, newCheckBox);
    var completedAttributeValue := if isCompleted then Some(Str(today)) else None;
    assert completedAttributeValue == CompletedValue(todo.status, today);
    r := UpdateAttribute(file, todo, completedAttribute, completedAttributeValue);
  }
}
