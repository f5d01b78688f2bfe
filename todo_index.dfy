/**
 * `TodoIndex`: the ordered list of (file, todos) entries that the plugin keeps up to
 * date from the vault's events. Each event is one atomic step that receives the todo
 * list already parsed from the file; every change fires the update event with the
 * todos of all the files.
 */
module TodoIndexes {
  import opened Wrappers
  import opened TodoItems
  import opened PwEvents

  /** `ITodosInFiles`: a file and the root todos parsed from it. */
  datatype TodosInFile = TodosInFile(file: FileRef, todos: seq<TodoItem>)

  /** What `findTodo` throws when no entry has the file's identifier. */
  datatype IndexError = FileNotFound(file: FileRef)

  /** The `todos` getter: the root todos of each entry in entry order, as
      `reduce((res, ts) => res.concat(ts.todos), [])` collects them. */
  function AllTodos(files: seq<TodosInFile>): seq<TodoItem> {
    if files == [] then [] else AllTodos(files[..|files| - 1]) + files[|files| - 1].todos
  }

  /** The todos of two runs of entries are those of the first, then those of the
      second. */
  lemma {:induction false} AllTodosConcat(a: seq<TodosInFile>, b: seq<TodosInFile>)
    ensures AllTodos(a + b) == AllTodos(a) + AllTodos(b)
    decreases |b|
  {
    if b != [] {
      assert (a + b)[..|a + b| - 1] == a + b[..|b| - 1];
      assert (a + b)[|a + b| - 1] == b[|b| - 1];
      AllTodosConcat(a, b[..|b| - 1]);
    } else {
      assert a + b == a;
    }
  }

  /** A todo is listed exactly when it is a root todo of some entry; subtasks are not
      listed on their own. */
  lemma {:induction false} AllTodosMembers(files: seq<TodosInFile>, t: TodoItem)
    ensures t in AllTodos(files) <==> exists i :: 0 <= i < |files| && t in files[i].todos
  {
    if files != [] {
      var init, x := files[..|files| - 1], files[|files| - 1];
      AllTodosMembers(init, t);
      assert AllTodos(files) == AllTodos(init) + x.todos;
      assert files == init + [x];
      MembersStep(files, init, x, t);
    }
  }

  lemma MembersStep(files: seq<TodosInFile>, init: seq<TodosInFile>, x: TodosInFile, t: TodoItem)
    requires files == init + [x]
    ensures (exists i :: 0 <= i < |files| && t in files[i].todos) <==>
      (exists i :: 0 <= i < |init| && t in init[i].todos) || t in x.todos
  {
    if exists i :: 0 <= i < |files| && t in files[i].todos {
      var i :| 0 <= i < |files| && t in files[i].todos;
      if i < |init| {
        assert t in init[i].todos;
      }
    }
    if exists i :: 0 <= i < |init| && t in init[i].todos {
      var i :| 0 <= i < |init| && t in init[i].todos;
      assert t in files[i].todos;
    }
    if t in x.todos {
      assert t in files[|init|].todos;
    }
  }

  /** The todos around entry `k`: those before it, its own, and those after it. */
  lemma AllTodosAround(files: seq<TodosInFile>, k: nat)
    requires k < |files|
    ensures AllTodos(files) == AllTodos(files[..k]) + files[k].todos + AllTodos(files[k + 1..])
  {
    var a, x, c := files[..k], files[k], files[k + 1..];
    SplitAt(files, k);
    AllTodosThree(a, x, c);
  }

  lemma SplitAt(files: seq<TodosInFile>, k: nat)
    requires k < |files|
    ensures files == files[..k] + [files[k]] + files[k + 1..]
  {
  }

  lemma AllTodosThree(a: seq<TodosInFile>, x: TodosInFile, c: seq<TodosInFile>)
    ensures AllTodos(a + [x] + c) == AllTodos(a) + x.todos + AllTodos(c)
  {
    AllTodosConcat(a + [x], c);
    AllTodosConcat(a, [x]);
    AllTodosSingle(x);
  }

  lemma AllTodosSingle(e: TodosInFile)
    ensures AllTodos([e]) == e.todos
  {
    assert [e][..0] == [];
  }

  /** `findIndex` on the file identifier: the first entry with that identifier. */
  function FindEntry(files: seq<TodosInFile>, id: string): (r: Option<nat>)
    ensures r.Some? ==> r.value < |files| && files[r.value].file.id == id
    ensures r.Some? ==> forall j :: 0 <= j < r.value ==> files[j].file.id != id
    ensures r.None? <==> forall j :: 0 <= j < |files| ==> files[j].file.id != id
  {
    if files == [] then None
    else if files[0].file.id == id then Some(0)
    else
      match FindEntry(files[1..], id)
      case None => None
      case Some(k) => Some(k + 1)
  }

  /** An entry appended for an identifier that is already listed is never found: the
      earlier entry keeps receiving the updates and deletions. */
  lemma AppendedShadowed(files: seq<TodosInFile>, e: TodosInFile, id: string)
    requires FindEntry(files, id).Some?
    ensures FindEntry(files + [e], id) == FindEntry(files, id)
  {
    var k := FindEntry(files, id).value;
    var g := files + [e];
    forall j | 0 <= j <= k
      ensures g[j] == files[j]
    {
    }
    FindEntryAt(g, id, k);
  }

  /** The first entry with the identifier is the one found. */
  lemma FindEntryAt(files: seq<TodosInFile>, id: string, k: nat)
    requires k < |files| && files[k].file.id == id
    requires forall j :: 0 <= j < k ==> files[j].file.id != id
    ensures FindEntry(files, id) == Some(k)
  {
  }

  /** The first folder of `folders` the file is in, as `find` returns it. */
  function FirstFolder(folders: seq<string>, file: FileRef, isInFolder: (FileRef, string) -> bool): (r: Option<string>)
    ensures r.Some? ==> r.value in folders && isInFolder(file, r.value)
    ensures r.None? <==> forall i :: 0 <= i < |folders| ==> !isInFolder(file, folders[i])
    ensures r.Some? ==> exists i :: 0 <= i < |folders| && folders[i] == r.value
                                    && forall j :: 0 <= j < i ==> !isInFolder(file, folders[j])
  {
    if folders == [] then None
    else if isInFolder(file, folders[0]) then Some(folders[0])
    else
      var rest := FirstFolder(folders[1..], file, isInFolder);
      if rest.Some? then
        ghost var i :| 0 <= i < |folders[1..]| && folders[1..][i] == rest.value
                       && forall j :: 0 <= j < i ==> !isInFolder(file, folders[1..][j]);
        assert folders[i + 1] == rest.value;
        assert forall j :: 0 <= j < i + 1 ==> !isInFolder(file, folders[j]) by {
          forall j | 0 <= j < i + 1 ensures !isInFolder(file, folders[j]) {
            if j > 0 { assert folders[j] == folders[1..][j - 1]; }
          }
        }
        rest
      else rest
  }

  /** The entries of `loaded` whose file `keep` accepts, in order. */
  function KeepFiles(loaded: seq<TodosInFile>, keep: FileRef -> bool): (r: seq<TodosInFile>)
    ensures |r| <= |loaded|
    ensures forall e :: e in r <==> e in loaded && keep(e.file)
  {
    if loaded == [] then []
    else (if keep(loaded[0].file) then [loaded[0]] else []) + KeepFiles(loaded[1..], keep)
  }

  lemma ConcatAssoc<T>(x: seq<T>, y: seq<T>, z: seq<T>)
    ensures x + (y + z) == (x + y) + z
  {
  }

  /** `KeepFiles` keeps the relative order: it is the sequence of accepted entries,
      taking them left to right. */
  lemma {:induction false} KeepFilesConcat(a: seq<TodosInFile>, b: seq<TodosInFile>, keep: FileRef -> bool)
    ensures KeepFiles(a + b, keep) == KeepFiles(a, keep) + KeepFiles(b, keep)
  {
    if a != [] {
      var head := if keep(a[0].file) then [a[0]] else [];
      assert (a + b)[0] == a[0];
      assert (a + b)[1..] == a[1..] + b;
      KeepFilesConcat(a[1..], b, keep);
      calc {
        KeepFiles(a + b, keep);
        head + KeepFiles(a[1..] + b, keep);
        head + (KeepFiles(a[1..], keep) + KeepFiles(b, keep));
        { ConcatAssoc(head, KeepFiles(a[1..], keep), KeepFiles(b, keep)); }
        (head + KeepFiles(a[1..], keep)) + KeepFiles(b, keep);
        KeepFiles(a, keep) + KeepFiles(b, keep);
      }
    } else {
      assert a + b == b;
    }
  }

  class TodoIndex<H> {
    /** The entries, in the order the files were loaded or created. */
    var files: seq<TodosInFile>
    /** `settings.ignoreArchivedTodos`. */
    const ignoreArchivedTodos: bool
    /** `settings.ignoredFolders`. */
    const ignoredFolders: seq<string>
    /** `IFile.isInFolder`, which the host provides. */
    const isInFolder: (FileRef, string) -> bool
    const onUpdateEvent: PwEvent<H, seq<TodoItem>>

    constructor(ignoreArchivedTodos: bool, ignoredFolders: seq<string>, isInFolder: (FileRef, string) -> bool)
      ensures files == []
      ensures this.ignoreArchivedTodos == ignoreArchivedTodos && this.ignoredFolders == ignoredFolders
      ensures this.isInFolder == isInFolder
      ensures fresh(onUpdateEvent) && onUpdateEvent.handlers == [] && onUpdateEvent.calls == []
    {
      this.ignoreArchivedTodos := ignoreArchivedTodos;
      this.ignoredFolders := ignoredFolders;
      this.isInFolder := isInFolder;
      files := [];
      onUpdateEvent := new PwEvent(None);
    }

    /** The `todos` getter. */
    function Todos(): seq<TodoItem>
      reads this
    {
      AllTodos(files)
    }

    /** `ignoreFile`: the setting is on and the first ignored folder the file is in is
        found. `!!` turns the folder `find` returns into a boolean, so an empty folder
        name found first does not ignore the file. */
    predicate IgnoreFile(file: FileRef) {
      && ignoreArchivedTodos
      && var f := FirstFolder(ignoredFolders, file, isInFolder);
      f.Some? && f.value != ""
    }

    /** The `!!` quirk: when the first ignored folder that contains the file has an
        empty name, the file is not ignored, whatever later folders contain it. */
    lemma EmptyFirstFolderKeepsFile(file: FileRef, k: nat)
      requires k < |ignoredFolders| && ignoredFolders[k] == "" && isInFolder(file, "")
      requires forall j :: 0 <= j < k ==> !isInFolder(file, ignoredFolders[j])
      ensures !IgnoreFile(file)
    {
    }

    /** With no empty folder name, a file is ignored exactly when the setting is on and
        it is in one of the folders. */
    lemma IgnoreFileSpec(file: FileRef)
      requires forall i :: 0 <= i < |ignoredFolders| ==> ignoredFolders[i] != ""
      ensures IgnoreFile(file) <==>
        ignoreArchivedTodos && exists i :: 0 <= i < |ignoredFolders| && isInFolder(file, ignoredFolders[i])
    {
      var f := FirstFolder(ignoredFolders, file, isInFolder);
      if f.Some? {
        var i :| 0 <= i < |ignoredFolders| && ignoredFolders[i] == f.value;
      }
    }

    /** `findTodo`: the position of the first entry for the file's identifier, or the
        error it throws. */
    function FindTodo(file: FileRef): (r: Result<nat, IndexError>)
      reads this
      ensures r.Ok? ==> r.value < |files| && files[r.value].file.id == file.id
      ensures r.Ok? ==> forall j :: 0 <= j < r.value ==> files[j].file.id != file.id
      ensures r == Err(FileNotFound(file)) <==> forall j :: 0 <= j < |files| ==> files[j].file.id != file.id
      ensures r.Ok? || r == Err(FileNotFound(file))
    {
      match FindEntry(files, file.id)
      case None => Err(FileNotFound(file))
      case Some(k) => Ok(k)
    }

    /** `triggerUpdate`: fires the update event with the todos of the index. */
    method TriggerUpdate()
      modifies onUpdateEvent
      ensures onUpdateEvent.handlers == old(onUpdateEvent.handlers)
      ensures onUpdateEvent.calls == old(onUpdateEvent.calls) + Deliveries(|onUpdateEvent.handlers|, Todos())
    {
      onUpdateEvent.FireAsync(Todos());
    }

    /** `filesLoaded`: the entries become those of the loaded files that are not
        ignored, in load order. */
    method FilesLoaded(loaded: seq<TodosInFile>)
      modifies this, onUpdateEvent
      ensures files == KeepFiles(loaded, f => !IgnoreFile(f))
      ensures onUpdateEvent.handlers == old(onUpdateEvent.handlers)
      ensures onUpdateEvent.calls == old(onUpdateEvent.calls) + Deliveries(|onUpdateEvent.handlers|, Todos())
    {
      files := KeepFiles(loaded, f => !IgnoreFile(f));
      TriggerUpdate();
    }

    /** `fileUpdated`: nothing for an ignored file; the error of `findTodo` for a file
        not in the index, with nothing changed; otherwise the todos of its entry are
        replaced and nothing else changes. */
    method FileUpdated(file: FileRef, todos: seq<TodoItem>) returns (r: Outcome<IndexError>)
      modifies this, onUpdateEvent
      ensures IgnoreFile(file) ==> r == Pass && files == old(files)
      ensures !IgnoreFile(file) && old(FindTodo(file)).Err? ==> r == Fail(FileNotFound(file)) && files == old(files)
      ensures !IgnoreFile(file) && old(FindTodo(file)).Ok? ==> var k := old(FindTodo(file)).value;
        && r == Pass
        && files == old(files)[k := old(files)[k].(todos := todos)]
        && Todos() == AllTodos(old(files)[..k]) + todos + AllTodos(old(files)[k + 1..])
      ensures onUpdateEvent.handlers == old(onUpdateEvent.handlers)
      ensures r == Pass && !IgnoreFile(file) ==>
        onUpdateEvent.calls == old(onUpdateEvent.calls) + Deliveries(|onUpdateEvent.handlers|, Todos())
      ensures r.Fail? || IgnoreFile(file) ==> onUpdateEvent.calls == old(onUpdateEvent.calls)
    {
      if IgnoreFile(file) {
        return Pass;
      }
      var found := FindTodo(file);
      if found.Err? {
        return Fail(found.error);
      }
      var k := found.value;
      files := files[k := files[k].(todos := todos)];
      AllTodosAround(files, k);
      assert files[..k] == old(files)[..k] && files[k + 1..] == old(files)[k + 1..];
      TriggerUpdate();
      r := Pass;
    }

    /** `fileRenamed`: the entries follow the file by themselves, so nothing changes and
        no update is fired. */
    method FileRenamed(id: string, file: FileRef)
      modifies this, onUpdateEvent
      ensures files == old(files)
      ensures onUpdateEvent.handlers == old(onUpdateEvent.handlers) && onUpdateEvent.calls == old(onUpdateEvent.calls)
    {
    }

    /** `fileDeleted`: nothing for an ignored file; the error of `findTodo` for a file
        not in the index; otherwise its entry is removed and the others keep their
        order. */
    method FileDeleted(file: FileRef) returns (r: Outcome<IndexError>)
      modifies this, onUpdateEvent
      ensures IgnoreFile(file) ==> r == Pass && files == old(files)
      ensures !IgnoreFile(file) && old(FindTodo(file)).Err? ==> r == Fail(FileNotFound(file)) && files == old(files)
      ensures !IgnoreFile(file) && old(FindTodo(file)).Ok? ==> var k := old(FindTodo(file)).value;
        && r == Pass
        && files == old(files)[..k] + old(files)[k + 1..]
        && Todos() == AllTodos(old(files)[..k]) + AllTodos(old(files)[k + 1..])
      ensures onUpdateEvent.handlers == old(onUpdateEvent.handlers)
      ensures r == Pass && !IgnoreFile(file) ==>
        onUpdateEvent.calls == old(onUpdateEvent.calls) + Deliveries(|onUpdateEvent.handlers|, Todos())
      ensures r.Fail? || IgnoreFile(file) ==> onUpdateEvent.calls == old(onUpdateEvent.calls)
    {
      if IgnoreFile(file) {
        return Pass;
      }
      var found := FindTodo(file);
      if found.Err? {
        return Fail(found.error);
      }
      var k := found.value;
      AllTodosConcat(files[..k], files[k + 1..]);
      files := files[..k] + files[k + 1..];
      TriggerUpdate();
      r := Pass;
    }

    /** `fileCreated`: nothing for an ignored file; otherwise an entry is appended at
        the end, whether or not the file is already listed. */
    method FileCreated(file: FileRef, todos: seq<TodoItem>)
      modifies this, onUpdateEvent
      ensures IgnoreFile(file) ==> files == old(files) && onUpdateEvent.calls == old(onUpdateEvent.calls)
      ensures !IgnoreFile(file) ==>
        && files == old(files) + [TodosInFile(file, todos)]
        && Todos() == old(Todos()) + todos
        && onUpdateEvent.calls == old(onUpdateEvent.calls) + Deliveries(|onUpdateEvent.handlers|, Todos())
      ensures onUpdateEvent.handlers == old(onUpdateEvent.handlers)
    {
      if IgnoreFile(file) {
        return;
      }
      AllTodosConcat(files, [TodosInFile(file, todos)]);
      AllTodosSingle(TodosInFile(file, todos));
      files := files + [TodosInFile(file, todos)];
      TriggerUpdate();
    }
  }
}
