/** The input checks and store updates of the `add`, `done` and `delete`
    commands. The clock (`Date.now()` and the creation time stamp) and the
    answer typed at the confirmation prompt are parameters; printing and
    exiting are not modelled, an error outcome stands for them. */
module TaskCommands {
  import opened Wrappers
  import opened Records
  import opened Storage
  import JsString
  import JsArray
  import TaskQuery

  /** The reasons a command stops with an error. */
  datatype CommandError = EmptyDescription | InvalidId | TaskNotFound(id: int)

  /** The text printed after `Error: `. */
  function ErrorText(e: CommandError): (m: string)
    ensures e.TaskNotFound? ==> m == ErrorMessage(NotFound(e.id))
    ensures e.TaskNotFound? ==> JsString.ParseInt(m[6..|m| - 10]) == Some(e.id)
  {
    match e
    case EmptyDescription => "Task description cannot be empty"
    case InvalidId => "Invalid task ID"
    case TaskNotFound(id) => ErrorMessage(NotFound(id))
  }

  /** Different errors print different texts. */
  lemma ErrorTextInjective(e1: CommandError, e2: CommandError)
    requires ErrorText(e1) == ErrorText(e2)
    ensures e1 == e2
  {
    var m1, m2 := ErrorText(e1), ErrorText(e2);
    if e1.TaskNotFound? {
      assert m1[5] == '#';
    }
    if e2.TaskNotFound? {
      assert m2[5] == '#';
    }
    if e1.TaskNotFound? && e2.TaskNotFound? {
      assert m1[6..|m1| - 10] == m2[6..|m2| - 10];
    }
  }

  // ---- add --------------------------------------------------------------------

  /** The priority stored by `add`: the option, or `medium` when it is empty. */
  function StoredPriority(priority: string): string {
    if priority != "" then priority else "medium"
  }

  /** The task `add` builds from the trimmed description `text`: these fields
      and no others. An empty `due` or `category` stands for an option that
      was not given. */
  predicate IsNewTask(task: Task, text: string, priority: string, due: string,
                      category: string, now: int, createdAt: string)
  {
    && task.Keys == NewTaskKeys(due, category)
    && NewTaskValues(task, text, priority, due, category, now, createdAt)
  }

  /** The keys of a new task: the five of the object literal, and the
      optional fields that were given. */
  function NewTaskKeys(due: string, category: string): set<string> {
    BaseKeys + (if due != "" then {"dueDate"} else {}) + (if category != "" then {"category"} else {})
  }

  /** The values of the fields of a new task. */
  predicate NewTaskValues(task: Task, text: string, priority: string, due: string,
                          category: string, now: int, createdAt: string)
  {
    && HasValue(task, "id", Num(now))
    && HasValue(task, "description", Str(text))
    && HasValue(task, "status", Str("pending"))
    && HasValue(task, "priority", Str(StoredPriority(priority)))
    && HasValue(task, "createdAt", Str(createdAt))
    && (due != "" ==> HasValue(task, "dueDate", Str(due)))
    && (category != "" ==> HasValue(task, "category", Str(category)))
  }

  /** The task has the field `key`, set to `v`. */
  predicate HasValue(task: Task, key: string, v: Value) {
    key in task && task[key] == v
  }

  /** The object literal of `add`, then the optional fields assigned one by
      one. */
  method BuildTask(text: string, priority: string, due: string, category: string,
                   now: int, createdAt: string) returns (task: Task)
    ensures IsNewTask(task, text, priority, due, category, now, createdAt)
  {
    task := map["id" := Num(now), "description" := Str(text),
                "status" := Str("pending"), "priority" := Str(StoredPriority(priority)),
                "createdAt" := Str(createdAt)];
    NewTaskLiteral(task, text, priority, now, createdAt);
    if due != "" {
      WithDueDate(task, text, priority, due, now, createdAt);
      task := task["dueDate" := Str(due)];
    }
    if category != "" {
      WithCategory(task, text, priority, due, category, now, createdAt);
      task := task["category" := Str(category)];
    }
  }

  /** The keys of the object literal of `add`. */
  const BaseKeys: set<string> := {"id", "description", "status", "priority", "createdAt"}

  /** The object literal of `add` is a new task with neither optional field. */
  lemma NewTaskLiteral(task: Task, text: string, priority: string, now: int, createdAt: string)
    requires task == map["id" := Num(now), "description" := Str(text),
                         "status" := Str("pending"), "priority" := Str(StoredPriority(priority)),
                         "createdAt" := Str(createdAt)]
    ensures IsNewTask(task, text, priority, "", "", now, createdAt)
  {
    assert task.Keys == BaseKeys;
  }

  /** Assigning the due date to the literal adds that field. */
  lemma WithDueDate(task: Task, text: string, priority: string, due: string,
                    now: int, createdAt: string)
    requires IsNewTask(task, text, priority, "", "", now, createdAt)
    requires due != ""
    ensures IsNewTask(task["dueDate" := Str(due)], text, priority, due, "", now, createdAt)
  {
    assert "dueDate" !in NewTaskKeys("", "");
    AddField(task, "dueDate", Str(due), NewTaskKeys(due, ""));
    UpdateKeepsValues(task, "dueDate", Str(due), text, priority, "", "", now, createdAt);
  }

  /** Assigning the category then adds that field. */
  lemma WithCategory(task: Task, text: string, priority: string, due: string,
                     category: string, now: int, createdAt: string)
    requires IsNewTask(task, text, priority, due, "", now, createdAt)
    requires category != ""
    ensures IsNewTask(task["category" := Str(category)], text, priority, due, category,
                      now, createdAt)
  {
    assert "category" !in NewTaskKeys(due, "");
    AddField(task, "category", Str(category), NewTaskKeys(due, category));
    UpdateKeepsValues(task, "category", Str(category), text, priority, due, "", now, createdAt);
  }

  /** Adding a field that is not there yet adds its key. */
  lemma AddField(t: Task, key: string, v: Value, keys: set<string>)
    requires key !in t && keys == t.Keys + {key}
    ensures t[key := v].Keys == keys
  {
  }

  /** Assigning an optional field keeps the values of the fields already set. */
  lemma UpdateKeepsValues(t: Task, key: string, v: Value, text: string, priority: string,
                          due: string, category: string, now: int, createdAt: string)
    requires key == "dueDate" || key == "category"
    requires NewTaskValues(t, text, priority, due, category, now, createdAt)
    requires due != "" ==> key != "dueDate"
    requires category != "" ==> key != "category"
    ensures NewTaskValues(t[key := v], text, priority, due, category, now, createdAt)
  {
  }

  /** A new task is pending, shows under `list` filtered by its status,
      stored priority and category, and is matched by a search for its own
      description. */
  lemma NewTaskListed(tasks: seq<Task>, task: Task, text: string, priority: string,
                      due: string, category: string, now: int, createdAt: string)
    requires IsNewTask(task, text, priority, due, category, now, createdAt)
    ensures task in TaskQuery.ApplyFilters(tasks + [task],
                      TaskQuery.Criteria("pending", StoredPriority(priority), category))
    ensures task in JsArray.Filter(tasks + [task], TaskQuery.MatchesQuery(text))
  {
    NewTaskFiltered(tasks, task, text, priority, due, category, now, createdAt);
    NewTaskFound(tasks, task, text, priority, due, category, now, createdAt);
  }

  lemma NewTaskFiltered(tasks: seq<Task>, task: Task, text: string, priority: string,
                        due: string, category: string, now: int, createdAt: string)
    requires IsNewTask(task, text, priority, due, category, now, createdAt)
    ensures task in TaskQuery.ApplyFilters(tasks + [task],
                      TaskQuery.Criteria("pending", StoredPriority(priority), category))
  {
    var c := TaskQuery.Criteria("pending", StoredPriority(priority), category);
    assert TaskQuery.MeetsCriteria(task, c) by {
      NewTaskFields(task, text, priority, due, category, now, createdAt);
    }
    assert task in tasks + [task];
    TaskQuery.ApplyFiltersIsConjunction(tasks + [task], c);
  }

  /** The fields the `list` filters look at. */
  lemma NewTaskFields(task: Task, text: string, priority: string,
                      due: string, category: string, now: int, createdAt: string)
    requires IsNewTask(task, text, priority, due, category, now, createdAt)
    ensures FieldIs(task, "status", "pending")
    ensures FieldIs(task, "priority", StoredPriority(priority))
    ensures category != "" ==> FieldIs(task, "category", category)
  {
    assert "status" in BaseKeys && "priority" in BaseKeys;
  }

  lemma NewTaskFound(tasks: seq<Task>, task: Task, text: string, priority: string,
                     due: string, category: string, now: int, createdAt: string)
    requires IsNewTask(task, text, priority, due, category, now, createdAt)
    ensures task in JsArray.Filter(tasks + [task], TaskQuery.MatchesQuery(text))
  {
    var d := JsString.Lower(text);
    assert JsString.Includes(d, d);
    assert TaskQuery.MatchesQuery(text)(task);
    JsArray.FilterMembers(tasks + [task], TaskQuery.MatchesQuery(text));
  }

  /** `add`: a description that is empty once trimmed is rejected and nothing
      is written; otherwise the new task is appended to the store. */
  method Add(store: TaskStore, description: string, priority: string, due: string,
             category: string, now: int, createdAt: string) returns (r: Result<Task, CommandError>)
    modifies store
    ensures JsString.Trim(description) == "" ==> r == Err(EmptyDescription) && store.file == old(store.file)
    ensures JsString.Trim(description) != "" ==>
      && r.Ok?
      && IsNewTask(r.value, JsString.Trim(description), priority, due, category, now, createdAt)
      && store.file == Stored(Load(old(store.file)) + [r.value])
  {
    var text := JsString.Trim(description);
    if text == "" {
      return Err(EmptyDescription);
    }
    var task := BuildTask(text, priority, due, category, now, createdAt);
    var added := store.AddTask(task);
    r := Ok(added);
  }

  // ---- done -------------------------------------------------------------------

  /** The update `done` merges into the task. */
  const Completed: Task := map["status" := Str("completed")]

  /** `done`: an argument `parseInt` cannot read is rejected; otherwise the
      first task with that id gets status `completed`, or the command fails
      with the store's not-found error and nothing is written. */
  method Done(store: TaskStore, arg: string) returns (r: Result<Task, CommandError>)
    modifies store
    ensures JsString.ParseInt(arg).None? ==> r == Err(InvalidId) && store.file == old(store.file)
    ensures JsString.ParseInt(arg).Some? ==>
      var id := JsString.ParseInt(arg).value;
      var before := Load(old(store.file));
      match Locate(before, id)
      case None => r == Err(TaskNotFound(id)) && store.file == old(store.file)
      case Some(i) =>
        r == Ok(Merge(before[i], Completed)) && store.file == Stored(before[i := Merge(before[i], Completed)])
  {
    var taskId := JsString.ParseInt(arg);
    if taskId.None? {
      return Err(InvalidId);
    }
    var updated := store.UpdateTask(taskId.value, Completed);
    match updated
    case Err(NotFound(id)) => r := Err(TaskNotFound(id));
    case Ok(task) => r := Ok(task);
  }

  /** `done` changes only the status of the task it completes; the number
      of completed tasks grows by one unless the task was completed
      already, and the task leaves the pending ones. */
  lemma DoneOnlyStatus(before: seq<Task>, id: int)
    requires Locate(before, id).Some?
    ensures var i := Locate(before, id).value;
      var after := before[i := Merge(before[i], Completed)];
      && after[i].Keys == before[i].Keys + {"status"}
      && FieldIs(after[i], "status", "completed")
      && (forall k :: k in before[i] && k != "status" ==> after[i][k] == before[i][k])
      && (forall j :: 0 <= j < |before| && j != i ==> after[j] == before[j])
      && JsArray.Count(after, TaskQuery.FieldEquals("status", "completed"))
         == JsArray.Count(before, TaskQuery.FieldEquals("status", "completed"))
            + (if FieldIs(before[i], "status", "completed") then 0 else 1)
      && JsArray.Count(after, TaskQuery.FieldEquals("status", "pending"))
         == JsArray.Count(before, TaskQuery.FieldEquals("status", "pending"))
            - (if FieldIs(before[i], "status", "pending") then 1 else 0)
  {
    var i := Locate(before, id).value;
    var t := Merge(before[i], Completed);
    UpdateFrame(before, id, Completed);
    JsArray.CountUpdate(before, i, t, TaskQuery.FieldEquals("status", "completed"));
    JsArray.CountUpdate(before, i, t, TaskQuery.FieldEquals("status", "pending"));
  }

  /** An argument that starts with anything but white space, a sign or a
      digit is not an id. */
  lemma InvalidIdArgument(arg: string)
    requires |arg| > 0 && !JsString.IsSpace(arg[0]) && arg[0] != '-' && arg[0] != '+'
    requires !JsString.IsDecimalDigit(arg[0])
    ensures JsString.ParseInt(arg) == None
  {
    assert JsString.TrimStart(arg) == arg;
    assert JsString.DigitRun(arg, 10) == 0;
  }

  // ---- delete -----------------------------------------------------------------

  /** The answer to the confirmation prompt counts as yes when, trimmed and
      lower-cased, it is `y` or `yes`. */
  predicate Confirmed(answer: string) {
    var normalized := JsString.Lower(JsString.Trim(answer));
    normalized == "y" || normalized == "yes"
  }

  datatype DeleteOutcome = Deleted(id: int) | Cancelled

  /** `delete`: an unreadable id and an id no task has are rejected; with
      `force`, or when the answer confirms, the first task with that id is
      removed; otherwise nothing is written. */
  method Delete(store: TaskStore, arg: string, force: bool, answer: string)
    returns (r: Result<DeleteOutcome, CommandError>)
    modifies store
    ensures JsString.ParseInt(arg).None? ==> r == Err(InvalidId) && store.file == old(store.file)
    ensures JsString.ParseInt(arg).Some? ==>
      var id := JsString.ParseInt(arg).value;
      var before := Load(old(store.file));
      match Locate(before, id)
      case None => r == Err(TaskNotFound(id)) && store.file == old(store.file)
      case Some(i) =>
        if force || Confirmed(answer) then
          r == Ok(Deleted(id)) && store.file == Stored(before[..i] + before[i + 1..])
        else
          r == Ok(Cancelled) && store.file == old(store.file)
  {
    var taskId := JsString.ParseInt(arg);
    if taskId.None? {
      return Err(InvalidId);
    }
    var id := taskId.value;
    var tasks := store.GetTasks();
    if JsArray.FindIndex(tasks, IdIs(id)).None? {
      return Err(TaskNotFound(id));
    }
    if force || Confirmed(answer) {
      var deleted := store.DeleteTask(id);
      r := Ok(Deleted(id));
    } else {
      r := Ok(Cancelled);
    }
  }

  /** A confirmed delete leaves no fewer tasks with other ids, and one fewer
      task with that id. */
  lemma DeleteRemovesOne(before: seq<Task>, id: int)
    requires Locate(before, id).Some?
    ensures var i := Locate(before, id).value;
      var after := before[..i] + before[i + 1..];
      && JsArray.Count(after, IdIs(id)) + 1 == JsArray.Count(before, IdIs(id))
      && (forall t :: t in before && !HasId(t, id) ==> t in after)
  {
    var i := Locate(before, id).value;
    assert before == before[..i] + [before[i]] + before[i + 1..];
    JsArray.FilterAppend(before[..i] + [before[i]], before[i + 1..], IdIs(id));
    JsArray.FilterAppend(before[..i], [before[i]], IdIs(id));
    JsArray.FilterAppend(before[..i], before[i + 1..], IdIs(id));
  }

  /** A bare `y` confirms. */
  lemma ShortYesConfirms()
    ensures Confirmed("y")
  {
    LowerLetterAnswer("y");
  }

  /** `YES` with spaces around it confirms: the answer is trimmed and
      lower-cased first. */
  lemma PaddedYesConfirms()
    ensures Confirmed(" YES ")
  {
    assert JsString.Trim(" YES ") == "YES" by {
      JsString.TrimInner(" YES ", 1, 4);
      assert " YES "[1..4] == "YES";
    }
    UpperYes("YES");
  }

  lemma UpperYes(w: string)
    requires |w| == 3 && w[0] == 'Y' && w[1] == 'E' && w[2] == 'S'
    ensures JsString.Lower(w) == "yes"
  {
  }

  /** `n` and an empty answer decline. */
  lemma NoDeclines()
    ensures !Confirmed("n") && !Confirmed("")
  {
    LowerLetterAnswer("n");
    assert JsString.Trim("") == "";
  }

  /** A single lower-case letter is its own normalized answer. */
  lemma LowerLetterAnswer(a: string)
    requires |a| == 1 && 'a' <= a[0] <= 'z'
    ensures JsString.Lower(JsString.Trim(a)) == a
  {
    JsString.TrimUntouched(a);
    assert JsString.Lower(a)[0] == a[0];
  }

  /** An answer that is neither one nor three characters long once trimmed
      declines. */
  lemma OtherLengthsDecline(answer: string)
    requires |JsString.Trim(answer)| != 1 && |JsString.Trim(answer)| != 3
    ensures !Confirmed(answer)
  {
    assert |JsString.Lower(JsString.Trim(answer))| == |JsString.Trim(answer)|;
  }
}
