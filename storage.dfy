/** The task store: the whole task list lives in one file that every
    operation reads completely and every mutation overwrites completely.
    JSON encoding and decoding are not modelled: the file is either missing,
    unreadable as a task list, or holds a list of task objects. */
module Storage {
  import opened Wrappers
  import opened Records
  import JsString
  import JsArray

  /** What the tasks file holds. */
  datatype FileState = Missing | Corrupt | Stored(tasks: seq<Task>)

  /** The error `updateTask` and `deleteTask` throw. */
  datatype StoreError = NotFound(id: int)

  /** The thrown error's message, `Task #<id> not found`. */
  function ErrorMessage(e: StoreError): (m: string)
    ensures m == "Task #" + JsString.IntToString(e.id) + " not found"
    ensures JsString.ParseInt(m[6..|m| - 10]) == Some(e.id)
  {
    var m := "Task #" + JsString.IntToString(e.id) + " not found";
    assert m[6..|m| - 10] == JsString.IntToString(e.id);
    JsString.ParseIntOfIntToString(e.id);
    m
  }

  /** What `getTasks` returns for a file: a missing or unparsable file reads
      as the empty list, never as an error. */
  function Load(f: FileState): (tasks: seq<Task>)
    ensures f.Stored? ==> tasks == f.tasks
    ensures !f.Stored? ==> tasks == []
  {
    if f.Stored? then f.tasks else []
  }

  /** The predicate `t => t.id === id` of `findIndex`. */
  function IdIs(id: int): Task -> bool {
    t => HasId(t, id)
  }

  /** The position of the first task whose `id` is `id`, if any. */
  function Locate(tasks: seq<Task>, id: int): (r: Option<nat>)
    ensures r.Some? ==> r.value < |tasks| && HasId(tasks[r.value], id)
    ensures r.Some? ==> forall j :: 0 <= j < r.value ==> !HasId(tasks[j], id)
    ensures r.None? <==> forall j :: 0 <= j < |tasks| ==> !HasId(tasks[j], id)
  {
    var r := JsArray.FindIndex(tasks, IdIs(id));
    assert r.Some? ==> IdIs(id)(tasks[r.value]);
    r
  }

  /** The store, with the file's contents as its state. */
  class TaskStore {
    var file: FileState

    constructor (initial: FileState)
      ensures file == initial
    {
      file := initial;
    }

    /** `getTasks`: the stored list, or `[]` when the file is missing or corrupt. */
    method GetTasks() returns (tasks: seq<Task>)
      ensures file.Stored? ==> tasks == file.tasks
      ensures !file.Stored? ==> tasks == []
    {
      tasks := Load(file);
    }

    /** `saveTasks`: overwrite the whole file with `tasks`. */
    method SaveTasks(tasks: seq<Task>)
      modifies this
      ensures file == Stored(tasks)
    {
      file := Stored(tasks);
    }

    /** `addTask`: append `task` and return it unchanged. */
    method AddTask(task: Task) returns (added: Task)
      modifies this
      ensures added == task
      ensures file == Stored(Load(old(file)) + [task])
      ensures |Load(file)| == |Load(old(file))| + 1
      ensures Load(file)[..|Load(old(file))|] == Load(old(file))
    {
      var tasks := GetTasks();
      tasks := tasks + [task];
      SaveTasks(tasks);
      added := task;
    }

    /** `updateTask`: merge `updates` into the first task whose `id` is `id`
        and return the merged task; throw `NotFound(id)` and write nothing when
        there is none. */
    method UpdateTask(id: int, updates: Task) returns (r: Result<Task, StoreError>)
      modifies this
      ensures Locate(Load(old(file)), id).None? ==> r == Err(NotFound(id)) && file == old(file)
      ensures Locate(Load(old(file)), id).Some? ==>
        var before := Load(old(file));
        var i := Locate(before, id).value;
        && r == Ok(Merge(before[i], updates))
        && file == Stored(before[i := Merge(before[i], updates)])
    {
      var tasks := GetTasks();
      var taskIndex := Locate(tasks, id);
      if taskIndex.None? {
        return Err(NotFound(id));
      }
      var i := taskIndex.value;
      tasks := tasks[i := Merge(tasks[i], updates)];
      SaveTasks(tasks);
      r := Ok(tasks[i]);
    }

    /** `deleteTask`: remove the first task whose `id` is `id` and return
        true; throw `NotFound(id)` and write nothing when there is none. */
    method DeleteTask(id: int) returns (r: Result<bool, StoreError>)
      modifies this
      ensures Locate(Load(old(file)), id).None? ==> r == Err(NotFound(id)) && file == old(file)
      ensures Locate(Load(old(file)), id).Some? ==>
        var before := Load(old(file));
        var i := Locate(before, id).value;
        && r == Ok(true)
        && file == Stored(before[..i] + before[i + 1..])
    {
      var tasks := GetTasks();
      var taskIndex := Locate(tasks, id);
      if taskIndex.None? {
        return Err(NotFound(id));
      }
      var i := taskIndex.value;
      tasks := tasks[..i] + tasks[i + 1..];
      SaveTasks(tasks);
      r := Ok(true);
    }
  }

  /** After an update only the located task changes, the length stays, and
      the fields `updates` does not mention keep their values. */
  lemma UpdateFrame(before: seq<Task>, id: int, updates: Task)
    requires Locate(before, id).Some?
    ensures var i := Locate(before, id).value;
      var after := before[i := Merge(before[i], updates)];
      && |after| == |before|
      && (forall j :: 0 <= j < |before| && j != i ==> after[j] == before[j])
      && (forall k :: k in before[i] && k !in updates ==> after[i][k] == before[i][k])
      && (forall k :: k in updates ==> after[i][k] == updates[k])
  {
  }

  /** Deleting the located task shortens the list by one, keeps the rest in
      order, and removes the first task with that id. */
  lemma DeleteFrame(before: seq<Task>, id: int)
    requires Locate(before, id).Some?
    ensures var i := Locate(before, id).value;
      var after := before[..i] + before[i + 1..];
      && |after| == |before| - 1
      && (forall j :: 0 <= j < i ==> after[j] == before[j])
      && (forall j :: i <= j < |after| ==> after[j] == before[j + 1])
      && multiset(after) + multiset{before[i]} == multiset(before)
  {
    var i := Locate(before, id).value;
    assert before == before[..i] + [before[i]] + before[i + 1..];
  }

  /** `saveTasks(T)` followed by `getTasks()` gives back `T`, whatever the
      file held before, including empty task objects. */
  method SaveThenGet(store: TaskStore, tasks: seq<Task>) returns (got: seq<Task>)
    modifies store
    ensures got == tasks
  {
    store.SaveTasks(tasks);
    got := store.GetTasks();
  }

  /** Two saves in a row leave only the second list. */
  method SaveTwice(store: TaskStore, first: seq<Task>, second: seq<Task>) returns (got: seq<Task>)
    modifies store
    ensures got == second
  {
    store.SaveTasks(first);
    store.SaveTasks(second);
    got := store.GetTasks();
  }

  /** A corrupt file reads as no tasks, and the first `addTask` then starts a
      fresh list. */
  method AddToCorrupt(task: Task) returns (got: seq<Task>)
    ensures got == [task]
  {
    var store := new TaskStore(Corrupt);
    var none := store.GetTasks();
    assert none == [];
    var added := store.AddTask(task);
    got := store.GetTasks();
  }

  /** The sequence add, update, add, delete on an empty store leaves only the
      second task. */
  method RapidOperations() returns (got: seq<Task>)
    ensures |got| == 1 && HasId(got[0], 2)
  {
    var store := new TaskStore(Stored([]));
    var t1: Task := map["id" := Num(1), "description" := Str("Task 1"), "status" := Str("pending")];
    var t2: Task := map["id" := Num(2), "description" := Str("Task 2"), "status" := Str("pending")];
    var done: Task := map["status" := Str("completed")];
    RapidSteps(t1, t2, done);
    var a1 := store.AddTask(t1);
    var u := store.UpdateTask(1, done);
    var a2 := store.AddTask(t2);
    var d := store.DeleteTask(1);
    got := store.GetTasks();
  }

  /** The lookups of `RapidOperations`: task 1 is found first both times,
      and deleting it leaves task 2. */
  lemma RapidSteps(t1: Task, t2: Task, updates: Task)
    requires HasId(t1, 1) && HasId(t2, 2) && "id" !in updates
    ensures Locate([] + [t1], 1) == Some(0)
    ensures var after := [Merge(t1, updates)] + [t2];
      Locate(after, 1) == Some(0) && after[..0] + after[1..] == [t2]
  {
    assert HasId(Merge(t1, updates), 1);
  }
}
