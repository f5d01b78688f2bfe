# obsidian-pw todo core, in Dafny

This project models the core of obsidian-pw ("Proletarian Wizard"), an Obsidian plugin that
keeps its todos in the notes themselves, as markdown checkbox lines such as
`- [ ] Buy milk @due(2024-02-02) @high`. The model covers these parts:

- **Line parsing, `LineOperations`.**
  - The line regular expression is modelled as a backtracking scanner
    (`LineGrammar.Scan`). It is split into its groups: indentation, list marker,
    checkbox, date and text. `LineFormat.LineToString` writes a line back.
  - Attributes use either the classic syntax `@key(value)` or the dataview syntax
    `[key:: value]`, and the parser also reads a wikilink due date `[[2024-02-02]]`.
  - Also modelled: the checkbox commands (`toggleTodo`, `setCheckmark`), the mark to
    status table, the indentation level, and `toTodo`, which turns a line into a parsing
    result.
  - `AttributeRoundTrip` proves that `parseAttributes` reads back what
    `attributesToString` writes, in the classic syntax. `WikilinkDue` proves that of two
    wikilink dates the later one becomes the due date.
- **`FileTodoParser`.**
  - It splits a file into lines and keeps the todo lines.
  - It builds the subtask tree from their indentation with a parent stack, then removes
    every subtask from the top-level list.
- **`TodoIndex`.**
  - This is the list of files with their todos.
  - It reacts to files being loaded, updated, renamed, deleted and created, skips files
    in ignored folders, and fires its update event.
- **`PwEvent`.** A list of handlers; firing the event calls each handler once.
- **`FileOperations`.**
  - A read-modify-write of one line of a file. The edit is a new checkbox, or an
    attribute that is set or removed.
  - Also covered: the choice of line ending and `updateTodoStatus`.
- **`TodoMatcher`.** The search filter, with an exact mode and a fuzzy mode.
- **The todo list order of `TodoListComponent`.** Todos are ordered by status, then by
  priority, then by text. The sort is modelled as an in-place sort of an array.
- **`Archiver`.** It picks the archive source folder and builds the destination path
  `archiveTo/year/relativePath`.
- **The two editor commands.** "Toggle todo" and "Mark todo as ongoing / unchecked"
  rewrite the checkbox of the line under the cursor.

JavaScript values are modelled like this:

- Strings are `seq<char>`.
- `IDictionary` objects are association lists in insertion order (`Dicts`).
- `undefined` is `Option.None`.
- A todo item's file is a `FileRef` holding an id and a path.
- Object identity inside one parsed file is the todo's position in the filtered list.

The year of a file's last modification, today's date and the parsed todos of a file are
passed in as parameters.

## Model

| member | source | states |
|---|---|---|
| LineGrammar.ScanMatches | src/domain/LineOperations.ts:31-33 | the line expression matches exactly when the line has a character that is not a line terminator |
| LineGrammar.LineSound | src/domain/LineOperations.ts:31-33 | each captured group satisfies its sub-expression: the indentation and the gaps are whitespace; the marker is `*`, `-` or digits and a dot; the checkbox is `[`, at most one character and `]`, followed by whitespace; the date is `dd-dd` or `dddd-dd-dd` followed by `:`. A group left out is one its alternatives could not read at that point. The text is not empty, has no line terminator, and stops only at a line terminator |
| LineGrammar.LineSplit | src/domain/LineOperations.ts:31-33 | the captured groups and the gaps between them put back together give the line |
| LineFormat.ParseLineNoMatch | src/domain/LineOperations.ts:33-42 | a line made only of line terminators does not match, and then the whole line becomes the `line` field with every other field empty |
| LineFormat.ParseLineWellFormed | src/domain/LineOperations.ts:30-50 | the structure read from a matching line is well formed |
| LineFormat.ParseLineToString | src/domain/LineOperations.ts:30-58 | writing a well-formed structure and reading it back gives the same structure |
| LineFormat.LineToStringFixed | src/domain/LineOperations.ts:52-58 | a line written by `lineToString` is unchanged when it is parsed and written again |
| LineFormat.ParseLineIdempotent | src/domain/LineOperations.ts:30-58 | parsing the line written from a parsed line gives the first parse again |
| LineFormat.ParseLineCollapses | src/domain/LineOperations.ts:30-58 | a matching line is its groups with whitespace gaps between them; written back, each gap becomes the single separator `lineToString` uses |
| AttributeTokens.HitShape | src/domain/LineOperations.ts:65-73 | a match that starts at a position is a whole token of the active syntax. Classic: `@`, a word key not followed by a word character, then either nothing (when no `(` with a later `)` follows) or `(`, a non-empty value without `)`, and `)`. Dataview: `[`, a non-empty key without `:` or `]`, `::`, a non-empty value without `]`, and `]` |
| AttributeTokens.MatchesAreTokens | src/domain/LineOperations.ts:151-152 | every string the global match returns is a whole attribute token of the active syntax |
| AttributeTokens.ClassicTokenKey | src/domain/LineOperations.ts:91-99 | in the classic syntax, the key read from a matched token is a non-empty word |
| AttributeTokens.ClassicRoundTrip | src/domain/LineOperations.ts:79-129 | in the classic syntax, reading back the token written for a non-empty word key gives that key and value, when the value is the flag `true` or a non-empty trimmed string without `)` |
| AttributeTokens.DataviewRoundTrip | src/domain/LineOperations.ts:79-129 | in the dataview syntax, reading back the `[key:: value]` token gives that key and value, when the key is non-empty, trimmed and has no `:` or `]`, and the value is a trimmed string without `]` |
| AttributeTokens.FlagRoundTrip | src/domain/LineOperations.ts:79-129 | a flag reads back as the flag `true` in the classic syntax, and as the string `true` in the dataview syntax |
| AttributeTokens.WikilinkDatesFrom | src/domain/LineOperations.ts:131-141 | every date found is a `dddd-dd-dd` date whose wikilink occurs in the text, and every wikilink that starts at or after the search position gives its date |
| AttributeTokens.WikilinkFound | src/domain/LineOperations.ts:131-141 | a wikilink at any position gives a date whose wikilink occurs in the text |
| AttributeParsing.ParseAttributes | src/domain/LineOperations.ts:147-190 | the method computes the attribute structure defined by `ParseAttributesSpec` |
| AttributeParsing.AbsorbMatches | src/domain/LineOperations.ts:156-168 | the `forEach` over the matches yields the dictionary of the parsed pairs and the text with each match's first occurrence removed |
| AttributeParsing.RemoveWikilinks | src/domain/LineOperations.ts:179-184 | the loop removes the first occurrence of each wikilink, in the order they were found |
| AttributeParsing.ParseAttributesResult | src/domain/LineOperations.ts:147-190 | the dictionary has distinct keys and no empty key; the text is trimmed; each key holds the value of its last match; when there are wikilink dates and the due value is missing or falsy, due holds the greatest of those dates |
| AttributeParsing.LastMatchWins | src/domain/LineOperations.ts:161 | a key holds the value of its last match |
| AttributeParsing.NoMatchAbsent | src/domain/LineOperations.ts:154-168 | a key no match produced is absent |
| AttributeParsing.ClassicKeepsEveryKey | src/domain/LineOperations.ts:156-161 | in the classic syntax, every match gives a non-empty key, and that key is in the dictionary |
| AttributeParsing.SortDescSorted | src/domain/LineOperations.ts:174-176 | the sort of the wikilink dates gives descending order and keeps their number |
| AttributeParsing.SortDesc | src/domain/LineOperations.ts:174-176 | the sorted dates are a permutation of the dates found |
| AttributeParsing.SortDescHead | src/domain/LineOperations.ts:174-177 | the date chosen is one of the dates and none is greater |
| AttributeParsing.SortedUnique | src/domain/LineOperations.ts:174-176 | two descending orders of the same dates are equal, so the choice does not depend on how the sort works |
| AttributeRoundTrip.ClassicAttributesRoundTrip | src/domain/LineOperations.ts:147-211 | in the classic syntax, `parseAttributes` of the line `attributesToString` writes gives back the same structure. This holds when the text is trimmed and has no `@` or `[[`, and every key is a word with a value that is `true` or a non-empty trimmed string without `)` |
| WikilinkDue.LaterWikilinkWins | src/domain/LineOperations.ts:131-190 | in the classic syntax, a trimmed text without `@` or `[[` followed by two wikilink dates parses to that text alone, with the due attribute set to the later of the two dates |
| AttributeParsing.AttributesToStringBare | src/domain/LineOperations.ts:198-211 | with no attributes the text is returned as it is; otherwise the result is the text, a space and the tokens joined by spaces, trimmed |
| AttributeParsing.ConvertPriorityAttributes | src/domain/LineOperations.ts:247-258 | the loop over the keys computes the conversion `ConvertPriority` over the original key list |
| AttributeParsing.ConvertPriorityGet | src/domain/LineOperations.ts:247-258 | after the conversion, a priority name from the list is absent; `priority` holds the last priority name of the list; every other key is unchanged |
| AttributeParsing.ConvertPriorityResult | src/domain/LineOperations.ts:247-258 | after converting a dictionary over its own keys: every priority name such as `@high` is removed; `priority` is set to the last one present, or unchanged when none is; every other key is unchanged; the keys stay distinct |
| LineOperations.SetCheckmarkReadsBack | src/domain/LineOperations.ts:270-274 | a line written by `setCheckmark` reads back with the checkbox `[mark]` and every other field unchanged |
| LineOperations.SetCheckmarkIdempotent | src/domain/LineOperations.ts:270-274 | setting the same mark twice is the same as setting it once |
| LineOperations.SetCheckmarkLast | src/domain/LineOperations.ts:270-274 | when a mark is set and then another, only the second one counts |
| LineOperations.ToggleTodoAdds | src/domain/LineOperations.ts:260-268 | toggling a line without a checkbox gives a line whose checkbox reads back as `[ ]`, with the other fields unchanged |
| LineOperations.ToggleTodoRemoves | src/domain/LineOperations.ts:260-268 | toggling a line with a checkbox removes it and leaves the other fields unchanged, when the rest of the line still reads as the same fields |
| LineOperations.ToggleTodoTwice | src/domain/LineOperations.ts:260-268 | toggling a line without a checkbox twice gives back the line as `lineToString` writes it |
| LineOperations.ToggleTodoUncovers | src/domain/LineOperations.ts:260-268 | a line whose text starts with `[ ] ` keeps a checkbox after its own checkbox is toggled off, because the text's checkbox takes its place |
| LineOperations.MarkToStatusTable | src/domain/LineOperations.ts:276-291 | each status, with the marks that give it, ignoring case: Canceled for `]`, `-` and `c`; InProgress for `>`; AttentionRequired for `!`; Complete for `x`; Delegated for `d`; Todo for every other mark |
| LineOperations.IndentationLevelBounds | src/domain/LineOperations.ts:293-297 | the level is at most four times the indentation's length, and equals the length for spaces only |
| LineOperations.IndentationLevelConcat | src/domain/LineOperations.ts:293-297 | the level of two indentations put together is the sum of their levels |
| LineOperations.CheckboxLineNotBlank | src/domain/LineOperations.ts:299-325 | a line with a checkbox is not blank |
| LineOperations.ToTodo | src/domain/LineOperations.ts:299-325 | the line is a todo exactly when it has a checkbox, and then a todo item is present; the result carries the line number, and the indentation level of the parsed indentation |
| LineOperations.ToTodoOf | src/domain/LineOperations.ts:299-325 | the todo has the status of the checkbox's mark, the text and the attributes that `parseAttributes` gives for the line text, the line number, no file and no subtasks |
| LineOperations.ToTodoBare | src/domain/LineOperations.ts:299-325 | a parsed todo has no file and no subtasks, and carries the line number |
| LineOperations.ToTodoRemark | src/domain/LineOperations.ts:270-325 | when a todo line's mark is replaced, only the status of the todo changes, and it becomes the status of the new mark; the indentation level is kept |
| TodoItems.CodesDistinct | src/domain/TodoItem.ts:4-11 | the six statuses have distinct enum values, and each value maps back to its status |
| TodoItems.StatusOfCode | src/domain/TodoItem.ts:4-11 | exactly the numbers 0 to 5 are statuses |
| TodoItems.GetTodoId | src/domain/TodoItem.ts:24-26 | the id is the file id, `-`, then the todo text |
| TodoItems.TodoIdSameFile | src/domain/TodoItem.ts:24-26 | within one file, two todos have the same id exactly when they have the same text |
| TodoItems.TodoIdCollision | src/domain/TodoItem.ts:24-26 | todos in two different files can have the same id: `a-b` with `c`, and `a` with `b-c` |
| TodoTree.LastVisited | src/domain/FileTodoParser.ts:14-44 | the last visited todo is an earlier todo result |
| TodoTree.Unwind | src/domain/FileTodoParser.ts:34-37 | the pops leave a prefix of the stack whose top is shallower than the current line, after removing only entries at least as deep |
| TodoTree.VisitTodo | src/domain/FileTodoParser.ts:15-45 | one step of the `forEach` keeps the tree invariant: children come after their parent, in order, with each child under one parent, at a deeper level than a visited parent, and nothing is attached before the first todo |
| TodoTree.CreateTodoTree | src/domain/FileTodoParser.ts:11-46 | the subtask lists the loop builds keep the tree invariant. Each todo that takes part in the loop is in exactly the list of the latest todo still open at it and shallower than it. On a list of todos, the lists follow the attachment rule: each todo goes under the nearest earlier visited todo that is indented less, when no visited todo between them is indented less than it |
| TodoTree.ParentRule | src/domain/FileTodoParser.ts:27-41 | on a list of todos, the parent the stack gives is exactly the one the attachment rule names |
| TodoTree.NestingDetermines | src/domain/FileTodoParser.ts:11-46 | two ordered subtask lists that both satisfy the loop's nesting rule are equal, so the contract fixes the tree |
| TodoTree.FollowsUnique | src/domain/FileTodoParser.ts:11-46 | the attachment rule fixes the subtask lists |
| TodoTree.AttachesToPlain | src/domain/FileTodoParser.ts:23-41 | when every result is a todo and no line read is blank, a todo goes under the nearest earlier todo indented less than it, and under no other |
| TodoTree.SampleNesting | src/domain/FileTodoParser.ts:11-46 | the todos `A` (level 0), `B` (2), `C` (2), `D` (4), `E` (0) nest as `A` over `B` and `C`, `C` over `D`, and `E` at the top |
| TodoTree.BlankSkipped | src/domain/FileTodoParser.ts:23-25 | as written: a result whose line in the unfiltered file is blank is never attached and gets no subtasks |
| TodoTree.LastVisitedPrevious | src/domain/FileTodoParser.ts:14-44 | when every result is a todo on a non-blank line, the last visited todo is the previous one |
| TodoTree.DeeperNests | src/domain/FileTodoParser.ts:27-32 | when every result is a todo on a non-blank line, a todo deeper than the previous one becomes the previous one's first subtask |
| TodoForest.ParentIs | src/domain/FileTodoParser.ts:11-46 | in the tree the loop builds, every subtask has a single parent |
| TodoForest.UnderOneChild | src/domain/FileTodoParser.ts:11-46 | a todo is under at most one of its ancestor's subtasks |
| TodoForest.NodesOfListCount | src/domain/FileTodoParser.ts:11-46 | a subtree lists each todo under it exactly once |
| TodoForest.OneRoot | src/domain/FileTodoParser.ts:11-46 | every todo has exactly one top-level ancestor |
| TodoForest.NodesOfAllCount | src/domain/FileTodoParser.ts:48-60 | the trees of distinct top-level todos together list each todo exactly once |
| FileTodoParser.FindIndex | src/domain/FileTodoParser.ts:57 | `findIndex` gives -1 when the value is absent, otherwise the position of its first occurrence |
| FileTodoParser.RemoveSubtasksFromTree | src/domain/FileTodoParser.ts:48-60 | removing every subtask, one splice at a time, leaves the todos that are nobody's subtask, in order |
| FileTodoParser.SubtaskListDistinct | src/domain/FileTodoParser.ts:49-55 | the collected subtask list has no duplicates, so each splice removes a different todo |
| FileTodoParser.RootsReachAll | src/domain/FileTodoParser.ts:48-60 | the trees of the remaining top-level todos hold every todo exactly once |
| FileTodoParser.RootIsRoot | src/domain/FileTodoParser.ts:48-60 | the top-level ancestor of every todo remains in the list |
| FileTodoParser.FilterTodos | src/domain/FileTodoParser.ts:67-68 | the filter keeps the todo results and nothing else |
| FileTodoParser.FileTodosSpec | src/domain/FileTodoParser.ts:62-76 | the flat todo list of a file has one todo for each checkbox line, in line order; each has that file and its line number, and no subtasks yet |
| FileTodoParser.AssignFile | src/domain/FileTodoParser.ts:72-76 | every todo gets the file and is otherwise unchanged |
| FileTodoParser.NestTodos | src/domain/FileTodoParser.ts:69-78 | the nested result satisfies the tree invariant; flattened, it is a permutation of the parsed todos; its top level is in line order |
| FileTodoParser.ParseMdFile | src/domain/FileTodoParser.ts:62-79 | as written: flattening the returned trees gives a permutation of the file's todos, and the top level is in line order. The subtask lists follow the attachment rule, with the blank test reading the unfiltered lines. The returned todos are exactly the forest those lists make, with the file set on each and only the todos that are nobody's subtask at the top |
| FileTodoParser.ParseMdFileIntended | src/domain/FileTodoParser.ts:62-79 | corrected: the same, with the blank test reading the todo's own line. Every todo after the first goes under the nearest earlier todo indented less than it and under no other, so a todo deeper than the one before it is that todo's first subtask; the lists are ordered and the returned forest is built from them |
| FileTodoParser.IntendedRule | src/domain/FileTodoParser.ts:23-41 | when no line read is blank, the lists the loop builds give each todo the nearest earlier todo indented less than it as parent, and a deeper todo becomes the first subtask of the one before it |
| PwEvents.Deliveries | src/events/PwEvent.ts:16-18 | firing with `n` handlers makes one call for each handler, in order, with the fired value |
| PwEvents.DeliveriesOnce | src/events/PwEvent.ts:16-18 | each registered handler is called exactly once per firing, and no other handler is called |
| PwEvents.PwEvent.constructor | src/events/PwEvent.ts:6-10 | an event starts with only the given handler, if there is one |
| PwEvents.PwEvent.Listen | src/events/PwEvent.ts:12-14 | the handler is appended and nothing is called |
| PwEvents.PwEvent.FireAsync | src/events/PwEvent.ts:16-18 | the handlers are kept, and one call per handler with the value is added |
| TodoIndexes.AllTodosConcat | src/domain/TodoIndex.ts:24-26 | the todos of two lists of files are the todos of the first list, then those of the second |
| TodoIndexes.AllTodosMembers | src/domain/TodoIndex.ts:24-26 | a todo is in the index exactly when it is in the todos of one of its files |
| TodoIndexes.AllTodosAround | src/domain/TodoIndex.ts:24-26 | the index's todos are those of the files before a file, then that file's todos, then those of the files after it |
| TodoIndexes.FirstFolder | src/domain/TodoIndex.ts:31 | `find` gives the first ignored folder in the list that contains the file (every earlier one does not), or nothing when no ignored folder contains it |
| TodoIndexes.TodoIndex.EmptyFirstFolderKeepsFile | src/domain/TodoIndex.ts:30-36 | when the first ignored folder containing the file has an empty name, `!!` makes the file not ignored, whatever later folders contain it |
| TodoIndexes.TodoIndex.IgnoreFileSpec | src/domain/TodoIndex.ts:30-36 | with no empty folder name, a file is ignored exactly when archived todos are ignored and an ignored folder contains it |
| TodoIndexes.FindEntry | src/domain/TodoIndex.ts:89-96 | the first entry with the file's id, or none when no entry has that id |
| TodoIndexes.TodoIndex.FindTodo | src/domain/TodoIndex.ts:89-96 | the first entry with the file's id; when there is none, the error "file not found" |
| TodoIndexes.AppendedShadowed | src/domain/TodoIndex.ts:81-90 | a second entry created for a file id already in the index is never found |
| TodoIndexes.KeepFiles | src/domain/TodoIndex.ts:38-39 | the loaded entries that are kept are exactly those whose file is not ignored |
| TodoIndexes.TodoIndex.constructor | src/domain/TodoIndex.ts:22-28 | a new index has no files and an update event with no handlers |
| TodoIndexes.TodoIndex.TriggerUpdate | src/domain/TodoIndex.ts:98-100 | every handler of the update event is called once, with all the todos |
| TodoIndexes.TodoIndex.FilesLoaded | src/domain/TodoIndex.ts:38-44 | the index becomes the loaded files that are not ignored, and the update event fires |
| TodoIndexes.TodoIndex.FileUpdated | src/domain/TodoIndex.ts:46-56 | an ignored file changes nothing; an unknown file is the error "file not found" and changes nothing; otherwise only that file's todos are replaced, and the update event fires with the new todos in their place |
| TodoIndexes.TodoIndex.FileRenamed | src/domain/TodoIndex.ts:58-63 | a rename changes nothing and fires nothing |
| TodoIndexes.TodoIndex.FileDeleted | src/domain/TodoIndex.ts:65-73 | an ignored file changes nothing; an unknown file is the error "file not found"; otherwise that file's entry is removed, nothing else changes, and the update event fires |
| TodoIndexes.TodoIndex.FileCreated | src/domain/TodoIndex.ts:75-87 | a file that is not ignored is appended with its todos, which are added at the end of the index's todos, and the update event fires; an ignored file changes nothing |
| FileOperations.GetEOL | src/domain/FileOperations.ts:9-14 | the line ending is CRLF exactly when the content contains CRLF, and LF otherwise |
| FileOperations.Lines | src/domain/FileOperations.ts:71 | a split always gives at least one line |
| FileOperations.UpdateAttributesSpec | src/domain/FileOperations.ts:17-25 | the text is kept; the attribute is removed for `false` or `undefined` and set otherwise; every other attribute is unchanged; the keys stay distinct |
| FileOperations.DeleteIsSetUndefined | src/domain/FileOperations.ts:16-36 | removing an attribute rewrites the line exactly as setting it to `undefined` does |
| FileOperations.ApplyEditSpec | src/domain/FileOperations.ts:16-43 | an edit changes only what it names: the checkbox for a checkbox edit, the text and attributes for an attribute edit; the indentation, marker and date are kept |
| FileOperations.RewriteLine | src/domain/FileOperations.ts:69-75 | the content is the lines before line `n`, line `n` and the lines after it, joined with their line ending; the result joins the same lines before and after around the edited line |
| FileOperations.UpdateContentInFile | src/domain/FileOperations.ts:62-77 | a todo without a line number is an error that leaves the file as it was; otherwise only that line of the file is rewritten, with the edit applied |
| FileOperations.UpdateAttribute | src/domain/FileOperations.ts:16-27 | a read-modify-write of the todo's line that sets or removes the attribute |
| FileOperations.RemoveAttribute | src/domain/FileOperations.ts:29-36 | a read-modify-write of the todo's line that removes the attribute |
| FileOperations.UpdateCheckbox | src/domain/FileOperations.ts:38-43 | a read-modify-write of the todo's line that replaces its checkbox |
| FileOperations.StatusCheckbox | src/domain/FileOperations.ts:47-56 | the checkbox written for each status is its mark in brackets |
| FileOperations.StatusCheckboxReadsBack | src/domain/FileOperations.ts:45-57 | reading back the checkbox written for a status gives that status, except InProgress, whose `[-]` reads back as Canceled |
| FileOperations.StatusCheckboxIsCheckmark | src/domain/FileOperations.ts:38-57 | writing a status's checkbox gives the same line as `setCheckmark` with its mark |
| FileOperations.CompletedValue | src/domain/FileOperations.ts:46-58 | a completed or canceled todo gets today's date; any other todo gets `undefined` |
| FileOperations.UpdateTodoStatus | src/domain/FileOperations.ts:45-60 | the status checkbox is written, then the completed attribute: today's date for a done todo, removed for any other |
| TodoMatchers.FuzzyFromSpec | src/domain/TodoMatcher.ts:33-44 | the fuzzy search succeeds exactly when the term's characters occur in the text at non-decreasing positions |
| TodoMatchers.FuzzyComplete | src/domain/TodoMatcher.ts:33-44 | whenever the term's characters occur in the text at non-decreasing positions from the start index on, each `indexOf` finds its character no later than that position, so the search succeeds |
| TodoMatchers.FuzzyReusesPosition | src/domain/TodoMatcher.ts:37-41 | because the index is not advanced past a match, the term `aa` is found in the text `a` |
| TodoMatchers.TodoMatcher.constructor | src/domain/TodoMatcher.ts:6-11 | the term is stored lower-cased, with the mode; the regular expression is not built |
| TodoMatchers.TodoMatcher.FuzzyMatchLoop | src/domain/TodoMatcher.ts:33-44 | the loop succeeds exactly when the lower-cased term's characters occur in the lower-cased text at non-decreasing positions |
| TodoMatchers.TodoMatcher.MatchesTodo | src/domain/TodoMatcher.ts:13-31 | an empty term matches; otherwise the fuzzy mode uses the fuzzy search, and the exact mode matches when the lower-cased text contains the lower-cased term |
| TodoMatchers.TodoMatcher.EmptyTermMatchesAll | src/domain/TodoMatcher.ts:14-16 | an empty term matches every todo |
| TodoMatchers.TodoMatcher.ExactImpliesFuzzy | src/domain/TodoMatcher.ts:24-44 | every exact match is also a fuzzy match |
| TodoListOrder.PriorityValue | src/ui/TodoListComponent.tsx:11-24 | the rank of a todo is 10 exactly for `critical`, 9 for `high`, 5 for `medium`, 3 for `low` and -1 for `lowest`, and 0 otherwise; so `lowest` sorts below a todo with no priority |
| TodoListOrder.PriorityRanking | src/ui/TodoListComponent.tsx:16-22 | the ranks order the priorities critical, high, medium, low, lowest |
| TodoListOrder.StatusValue | src/ui/TodoListComponent.tsx:26-35 | canceled is 0, complete is 1, every other status is 10 |
| TodoListOrder.InOrderSpec | src/ui/TodoListComponent.tsx:41-51 | `a` sorts before `b` exactly when its status value is higher; or, with an equal status value, its priority is higher; or, with both equal, its lower-cased text is not after `b`'s |
| TodoListOrder.InOrderTotal | src/ui/TodoListComponent.tsx:41-51 | the comparator orders every pair one way or the other |
| TodoListOrder.InOrderTransitive | src/ui/TodoListComponent.tsx:41-51 | the comparator's order is transitive |
| TodoListOrder.SortTodos | src/ui/TodoListComponent.tsx:37-52 | a missing list gives a new empty one; otherwise the same array is returned, sorted by the comparator, and it is a permutation of what it held |
| TodoListOrder.InsertionSort | src/ui/TodoListComponent.tsx:41 | the array ends sorted by the comparator and is a permutation of its old contents |
| Archiver.JoinAsWrittenDropsLetter | src/archive/Archiver.ts:8-19 | as written: an archive folder with a trailing slash loses its last letter, so the result differs from the intended join |
| Archiver.ArchiveFolderInstance | src/archive/Archiver.ts:13-15 | as written: joining `Archive/`, `2023` and `a.md` gives `Archiv/2023/a.md` |
| Archiver.JoinPathSlashes | src/archive/Archiver.ts:8-19 | corrected: adding a trailing slash to an element that is not last, or a leading slash to one that is not first, does not change the joined path |
| Archiver.JoinPathBare | src/archive/Archiver.ts:8-19 | corrected: elements with no slash at either end are joined with `/` |
| Archiver.GetArchiveFrom | src/archive/Archiver.ts:21-23 | the source folder found is in the list, is a prefix of the path and is not the path itself; nothing is found exactly when no folder qualifies |
| Archiver.GetArchiveFromFirst | src/archive/Archiver.ts:21-23 | the folder found is the first one in the list that qualifies |
| Archiver.ArchiveDestinationUnder | src/archive/Archiver.ts:8-28 | as written: for a file under the source folder, the destination is the archive folder, with its last two characters cut when it ends with `/`, then `/`, the year, `/` and the rest of the path |
| Archiver.ArchiveInstance | src/archive/Archiver.ts:8-28 | as written: archiving `Inbox/a.md` from `Inbox` to `Archive/` in 2023 gives `Archiv/2023/a.md` |
| Archiver.ArchiveDestinationIntendedUnder | src/archive/Archiver.ts:8-28 | corrected: the archive folder loses only its trailing `/`, then come `/`, the year, `/` and the rest of the path |
| Archiver.ArchiveInstanceIntended | src/archive/Archiver.ts:8-28 | corrected: the same archiving gives `Archive/2023/a.md` |
| Commands.Editor.constructor | src/Commands/ToggleTodoCommand.ts:14-16 | an editor holds the lines and the cursor line |
| Commands.ToggleTodoLine | src/Commands/ToggleTodoCommand.ts:17-19 | a line is rewritten exactly when it has a checkbox |
| Commands.ToggleTodoCallback | src/Commands/ToggleTodoCommand.ts:14-22 | only the cursor line changes, and only when it is a todo, to the toggled line |
| Commands.ToggleTodoLineSpec | src/Commands/ToggleTodoCommand.ts:17-20 | the todo on the line becomes Todo when it was Complete, and Complete otherwise; nothing else about it changes |
| Commands.ToggleTodoTwice | src/Commands/ToggleTodoCommand.ts:17-20 | toggling twice leaves the line checked when it was Complete and unchecked otherwise |
| Commands.ToggleOngoingLine | src/Commands/ToggleOngoingTodoCommand.ts:17-19 | a line is rewritten exactly when it has a checkbox |
| Commands.ToggleOngoingCallback | src/Commands/ToggleOngoingTodoCommand.ts:14-22 | only the cursor line changes, and only when it is a todo, to the line with its new mark |
| Commands.ToggleOngoingLineSpec | src/Commands/ToggleOngoingTodoCommand.ts:17-20 | an InProgress todo becomes Todo; any other becomes Canceled, because the mark written is `-`; nothing else about the todo changes |
| Commands.ToggleOngoingAgain | src/Commands/ToggleOngoingTodoCommand.ts:17-20 | running the command twice on a todo line leaves it marked `-` |
| Commands.ToggleOngoingDash | src/Commands/ToggleOngoingTodoCommand.ts:17-20 | a line marked `-` stays marked `-`, so this command never unchecks a line it has marked |
| Dicts.SetSpec | src/domain/LineOperations.ts:161 | setting a key gives it the value and leaves every other key unchanged; the key order is kept, with a new key appended |
| Dicts.RemoveSpec | src/domain/FileOperations.ts:20 | `delete` removes the key, keeps every other key and its order, and changes nothing for a missing key |
| Strings.TrimSpec | src/domain/LineOperations.ts:187 | `trim` removes exactly the whitespace at both ends |
| Strings.JoinSplit | src/domain/FileOperations.ts:71-75 | joining the parts of a split with the same separator gives back the string |
| Strings.SplitPartsAvoidSeparator | src/domain/FileTodoParser.ts:64 | no part of a split contains the separator |
| Strings.LowerPlain | src/domain/TodoMatcher.ts:7 | lower-casing leaves a string unchanged exactly when it has no letter from `A` to `Z` |
| Strings.LowerIdempotent | src/domain/TodoMatcher.ts:7 | lower-casing twice is the same as lower-casing once |

## Left out

- Reading and writing files, `getLastModifiedAsync`, `renameAsync` and the other host calls are left out. The content and the year are parameters, and so are the parsed todos that the index's events receive, because `parseMdFileAsync` and `ParseFilesAsync` run inside the host's promises.
- Promises and their ordering are left out: each asynchronous update is applied at once.
- `FolderTodoParser`, `TodoExporter`, the views and React components, the sound player and `Random` are not part of this model.
- The `CompleteLineCommand`, the planning and report commands, and settings pages are not part of this model.
- The editor commands are built with `new LineOperations()` in `main.ts`, so the model runs them without settings. `FileTodoParser` also builds its `LineOperations` without settings, and the model uses no settings there too.
- `isInFolder` is a function parameter of the index, because the host provides it.
- TodoIndexes.TodoIndex.FileUpdated and FileDeleted: the source throws when the file is unknown; the model returns `Fail(FileNotFound)` and changes nothing.
- `convertAttributes` and `convertDateAttributes` are left out. They depend on `Completion.completeDate`, which is not part of this model. `convertPriorityAttributes` is modelled.
- Strings are sequences of code points, while JavaScript strings are UTF-16 code units. A character outside the basic plane, as in `- [🔥] x`, is one character here but two units there, so the checkbox pattern `[.?]` matches here and not in the source.
- Lower-casing is ASCII only, in `toLowerCase` (the matcher), the mark table and `toLocaleLowerCase` (the sort).
- TodoListOrder.TextCompare: `localeCompare` is modelled as code-point order.
- TodoListOrder.SortTodos: the stability of `Array.prototype.sort` is not modelled; the model is an insertion sort whose result is sorted and a permutation.
- TodoListOrder.PriorityValue: a priority named after an `Object.prototype` member, such as `constructor`, is not modelled; it ranks 0 here.
- TodoMatchers.TodoMatcher.constructor: the constructor builds `RegExp(term, "gi")` in both modes, and throws for a term such as `*` or `a**`, even in fuzzy mode, where the expression is never used; the model does not build the expression, so it accepts every term.
- TodoMatchers.TodoMatcher.MatchesTodo, Matches and ExactMatch require a plain term in exact mode. The constructor escapes every metacharacter except `. * + ?`. A term containing one of those is a regular expression, which would need a regular-expression engine; a term such as `*` would also make `RegExp` throw.
- Dicts: JavaScript lists keys that look like array indices (such as `@12`) first, in numeric order; the model keeps every key in insertion order.
- FileOperations.UpdateContentInFile and the methods built on it require the todo's line number to be a line of the file. The source would then write `undefined` into the array, which is not modelled.
- FileOperations.UpdateTodoStatus also requires that the line still exist for its second write.
- FileTodoParser.ParseMdFile also returns the filtered parsing results and the subtask lists, so that their properties can be stated.
- The `isBlank`, `folderType` and `project` fields are never set by the core and are not modelled.
- Subtasks are stored as positions in the filtered list. Pushing onto a shared subtask array is modelled as an update of that list.
- The object identity of the model's todos is their position. `removeSubtasksFromTree` compares by identity.
- Object-identity aliasing between the tree and the returned list is not modelled: `Forest` builds the nested values from the positions.
- Only the `from` line of the editor's cursor is modelled, because the commands read nothing else.
- Some tests expect other behaviour than the code has, and the model follows the code:
  - tests/domain/LineOperations.test.ts:292-305 expects a wikilink to stay in the text when a due date is given, but `parseAttributes` always removes it;
  - tests/domain/Commands.test.ts expects the toggle commands to set or remove `completed` and `started` attributes, which the commands' code does not do;
  - tests/domain/FileTodoParser.test.ts builds the parser with settings, which its constructor does not take.

## Findings

| source | as written | input that shows it | evidently intended | confidence | as-written member | corrected member |
|---|---|---|---|---|---|---|
| src/domain/FileTodoParser.ts:23 | the blank-line test indexes `lines` with the position in the filtered list of todo results | `- [ ] a`, a blank line, then `  - [ ] b`: the second result's position 1 is the blank line, so `b` is not nested under `a` | test the todo's own line, so `b` becomes a subtask of `a` | not executed | FileTodoParser.ParseMdFile, TodoTree.BlankSkipped | FileTodoParser.ParseMdFileIntended, TodoTree.DeeperNests |
| src/archive/Archiver.ts:13-15 | `p.substring(0, p.length - 2)` removes the trailing slash and the character before it | `join("Archive/", "2023", "a.md")` gives `Archiv/2023/a.md` | remove only the trailing slash, giving `Archive/2023/a.md` | not executed | Archiver.JoinAsWritten, Archiver.JoinAsWrittenDropsLetter, Archiver.ArchiveFolderInstance, Archiver.ArchiveDestination, Archiver.ArchiveInstance | Archiver.JoinPath, Archiver.JoinPathSlashes, Archiver.JoinPathBare, Archiver.ArchiveDestinationIntended, Archiver.ArchiveInstanceIntended |
