/**
 * The state of the student dashboard page, its event handlers and the two
 * save helpers they call: the list of students, the selected student and
 * that student's task list, the form inputs, and the browser's key-value
 * storage the page writes through.
 *
 * Every mutating handler is guarded by the admin PIN prompt; the answer of
 * that prompt is the `authorized` argument. A handler whose validation fails
 * never shows the prompt, which its `consulted` result reports.
 */
module Dashboard {
  import opened Options
  import opened Text
  import opened Tasks

  /** A student: the id is the creation timestamp, the name as typed. */
  datatype Person = Person(id: nat, name: string)

  /** Storage key of one student's task list: `"tasks_"` followed by the id in decimal. */
  function TasksKey(id: nat): (k: string)
    ensures 6 < |k| && k[..6] == "tasks_"
    ensures forall i :: 6 <= i < |k| ==> '0' <= k[i] <= '9'
    ensures k != "people"
  {
    "tasks_" + Decimal(id)
  }

  /** Different students never share a task-list key. */
  lemma TasksKeyInjective(a: nat, b: nat)
    requires TasksKey(a) == TasksKey(b)
    ensures a == b
  {
    assert TasksKey(a)[6..] == Decimal(a);
    assert TasksKey(b)[6..] == Decimal(b);
    DecimalInjective(a, b);
  }

  /** The student list as read back from the `"people"` entry; absent reads as empty. */
  function LoadPeople(saved: Option<seq<Person>>): (people: seq<Person>)
    ensures saved.Some? ==> people == saved.value
    ensures saved.None? ==> people == []
  {
    saved.GetOr([])
  }

  /** The task list of student `id` as read back from storage; absent reads as empty. */
  function LoadTasks(store: map<string, seq<Task>>, id: nat): (tasks: seq<Task>)
    ensures TasksKey(id) in store ==> tasks == store[TasksKey(id)]
    ensures TasksKey(id) !in store ==> tasks == []
  {
    if TasksKey(id) in store then store[TasksKey(id)] else []
  }

  /**
   * Storage after `saveTasks(list)`: reading the selected student's list back
   * gives `list`; every other student's list reads as before, and with no
   * student selected nothing changes.
   */
  function Persist(store: map<string, seq<Task>>, selected: Option<Person>, list: seq<Task>): (r: map<string, seq<Task>>)
    ensures selected.Some? ==> LoadTasks(r, selected.value.id) == list
    ensures forall id :: selected.None? || id != selected.value.id ==> LoadTasks(r, id) == LoadTasks(store, id)
    ensures selected.None? ==> r == store
  {
    match selected
    case Some(p) =>
      assert forall id :: id != p.id ==> LoadTasks(store[TasksKey(p.id) := list], id) == LoadTasks(store, id) by {
        forall id | id != p.id {
          WriteThenLoad(store, p.id, list, id);
        }
      }
      store[TasksKey(p.id) := list]
    case None => store
  }

  /** Writing one student's entry leaves every other student's entry as it was. */
  lemma WriteThenLoad(store: map<string, seq<Task>>, owner: nat, list: seq<Task>, id: nat)
    ensures LoadTasks(store[TasksKey(owner) := list], id) == if id == owner then list else LoadTasks(store, id)
  {
    if id != owner && TasksKey(id) == TasksKey(owner) {
      TasksKeyInjective(id, owner);
    }
  }

  /** A snapshot of every field of the page, to say what a handler changed. */
  datatype PageState = PageState(
    people: seq<Person>,
    selectedPerson: Option<Person>,
    name: string,
    tasks: seq<Task>,
    taskName: string,
    taskDesc: string,
    submissionDate: Option<int>,
    savedPeople: Option<seq<Person>>,
    savedTasks: map<string, seq<Task>>)

  class DashboardPage {
    var people: seq<Person>
    var selectedPerson: Option<Person>
    /** The "Student name" input. */
    var name: string
    /** The selected student's task list. */
    var tasks: seq<Task>
    /** The "Task name", "Description" and date inputs; an empty date input is `None`. */
    var taskName: string
    var taskDesc: string
    var submissionDate: Option<int>
    /** The storage entry `"people"`, absent until the first student is added. */
    var savedPeople: Option<seq<Person>>
    /** The storage entries `"tasks_<id>"`. */
    var savedTasks: map<string, seq<Task>>

    function State(): PageState
      reads this
    {
      PageState(people, selectedPerson, name, tasks, taskName, taskDesc, submissionDate,
        savedPeople, savedTasks)
    }

    /**
     * What the page keeps in step with storage: the student list is the
     * stored one, the selected student is on it, and the task list shown is
     * the one stored for that student (so reselecting shows the same list).
     */
    ghost predicate Valid()
      reads this
    {
      people == LoadPeople(savedPeople) &&
      (selectedPerson.Some? ==>
        selectedPerson.value in people &&
        tasks == LoadTasks(savedTasks, selectedPerson.value.id))
    }

    /** The page after its first render: the stored students, the first one selected. */
    constructor Mount(storedPeople: Option<seq<Person>>, storedTasks: map<string, seq<Task>>)
      ensures Valid()
      ensures var loaded := LoadPeople(storedPeople);
        State() == PageState(
          loaded,
          if loaded == [] then None else Some(loaded[0]),
          "",
          if loaded == [] then [] else LoadTasks(storedTasks, loaded[0].id),
          "", "", None,
          storedPeople, storedTasks)
    {
      people := LoadPeople(storedPeople);
      selectedPerson := None;
      name := "";
      tasks := [];
      taskName, taskDesc, submissionDate := "", "", None;
      savedPeople, savedTasks := storedPeople, storedTasks;
      new;
      if people != [] {
        SelectPerson(people[0]);
      }
    }

    /** Clicking a student: select them and show their stored task list. */
    method SelectPerson(p: Person)
      requires Valid() && p in people
      modifies this
      ensures Valid()
      ensures State() == old(State()).(selectedPerson := Some(p), tasks := LoadTasks(old(savedTasks), p.id))
    {
      selectedPerson := Some(p);
      tasks := LoadTasks(savedTasks, p.id);
    }

    /** Typing in the "Student name" input. */
    method SetName(value: string)
      requires Valid()
      modifies this
      ensures Valid()
      ensures State() == old(State()).(name := value)
    {
      name := value;
    }

    /** Typing in the "Task name" input. */
    method SetTaskName(value: string)
      requires Valid()
      modifies this
      ensures Valid()
      ensures State() == old(State()).(taskName := value)
    {
      taskName := value;
    }

    /** Typing in the "Description" input. */
    method SetTaskDesc(value: string)
      requires Valid()
      modifies this
      ensures Valid()
      ensures State() == old(State()).(taskDesc := value)
    {
      taskDesc := value;
    }

    /** Picking a date, or clearing the date input (`None`). */
    method SetSubmissionDate(value: Option<int>)
      requires Valid()
      modifies this
      ensures Valid()
      ensures State() == old(State()).(submissionDate := value)
    {
      submissionDate := value;
    }

    /** Replace the student list and write it to the `"people"` entry. */
    method SavePeople(list: seq<Person>)
      modifies this
      ensures State() == old(State()).(people := list, savedPeople := Some(list))
      ensures LoadPeople(savedPeople) == people
    {
      people := list;
      savedPeople := Some(list);
    }

    /** Replace the task list and, when a student is selected, write it under their key. */
    method SaveTasks(list: seq<Task>)
      requires Valid()
      modifies this
      ensures Valid()
      ensures State() == old(State()).(tasks := list, savedTasks := Persist(old(savedTasks), selectedPerson, list))
    {
      tasks := list;
      if selectedPerson.Some? {
        savedTasks := savedTasks[TasksKey(selectedPerson.value.id) := list];
      }
    }

    /**
     * The "Add" button of the student form. A blank name is refused without
     * asking for the PIN; a refused PIN changes nothing. Otherwise the name,
     * untrimmed, becomes a new student at the end of the list, the input is
     * cleared and the new student is selected.
     */
    method AddPerson(authorized: bool, id: nat) returns (consulted: bool)
      requires Valid()
      modifies this
      ensures Valid()
      ensures consulted <==> Trim(old(name)) != ""
      ensures var p := Person(id, old(name));
        State() ==
          if consulted && authorized then
            old(State()).(
              people := old(people) + [p],
              savedPeople := Some(old(people) + [p]),
              name := "",
              selectedPerson := Some(p),
              tasks := LoadTasks(old(savedTasks), id))
          else old(State())
    {
      consulted := Trim(name) != "";
      if !consulted || !authorized {
        return;
      }
      var p := Person(id, name);
      SavePeople(people + [p]);
      name := "";
      SelectPerson(p);
    }

    /**
     * The "Add Task" button. An empty task name or date is refused without
     * asking for the PIN; a refused PIN changes nothing. Otherwise a new open
     * task goes at the end of the list, the list is saved and the three inputs
     * are cleared.
     */
    method AddTask(authorized: bool, id: nat) returns (consulted: bool)
      requires Valid()
      modifies this
      ensures Valid()
      ensures consulted <==> old(taskName) != "" && old(submissionDate).Some?
      ensures State() ==
        if consulted && authorized then
          var list := old(tasks) + [NewTask(id, old(taskName), old(taskDesc), old(submissionDate).value)];
          old(State()).(
            tasks := list,
            savedTasks := Persist(old(savedTasks), old(selectedPerson), list),
            taskName := "",
            taskDesc := "",
            submissionDate := None)
        else old(State())
    {
      consulted := taskName != "" && submissionDate.Some?;
      if !consulted || !authorized {
        return;
      }
      SaveTasks(tasks + [NewTask(id, taskName, taskDesc, submissionDate.value)]);
      taskName, taskDesc, submissionDate := "", "", None;
    }

    /** `updateTask(id, updates)`: merge `updates` into every task with that id and save. */
    method UpdateTask(authorized: bool, id: nat, updates: Patch)
      requires Valid()
      modifies this
      ensures Valid()
      ensures State() ==
        if authorized then
          var list := UpdateById(old(tasks), id, updates);
          old(State()).(tasks := list, savedTasks := Persist(old(savedTasks), old(selectedPerson), list))
        else old(State())
    {
      if !authorized {
        return;
      }
      SaveTasks(UpdateById(tasks, id, updates));
    }

    /** `deleteTask(id)`: drop every task with that id and save. */
    method DeleteTask(authorized: bool, id: nat)
      requires Valid()
      modifies this
      ensures Valid()
      ensures State() ==
        if authorized then
          var list := RemoveById(old(tasks), id);
          old(State()).(tasks := list, savedTasks := Persist(old(savedTasks), old(selectedPerson), list))
        else old(State())
    {
      if !authorized {
        return;
      }
      SaveTasks(RemoveById(tasks, id));
    }

    /**
     * The "Mark Done" button, shown only on open tasks: the task (and any
     * task sharing its id) becomes completed, late exactly when the clicked
     * task's due date was strictly before `now`.
     */
    method MarkDone(authorized: bool, t: Task, now: int)
      requires Valid() && t in tasks && !t.completed
      modifies this
      ensures Valid()
      ensures State() ==
        if authorized then
          var list := UpdateById(old(tasks), t.id, MarkDonePatch(t, now));
          old(State()).(tasks := list, savedTasks := Persist(old(savedTasks), old(selectedPerson), list))
        else old(State())
      ensures |tasks| == |old(tasks)|
      ensures authorized ==> forall i :: 0 <= i < |tasks| && old(tasks)[i].id == t.id ==>
        tasks[i].completed && (tasks[i].late <==> t.dueDate < now)
      ensures DistinctIds(old(tasks)) ==> forall i :: 0 <= i < |tasks| && old(tasks)[i].completed ==>
        tasks[i] == old(tasks)[i]
    {
      MarkDoneStamps(tasks, t, now);
      if DistinctIds(tasks) {
        LateFrozenWithDistinctIds(tasks, t, now);
      }
      UpdateTask(authorized, t.id, MarkDonePatch(t, now));
    }

    /** The "More"/"Less" button: flip whether the task's description is shown in full. */
    method ToggleMore(authorized: bool, t: Task)
      requires Valid() && t in tasks
      modifies this
      ensures Valid()
      ensures State() ==
        if authorized then
          var list := UpdateById(old(tasks), t.id, ToggleMorePatch(t));
          old(State()).(tasks := list, savedTasks := Persist(old(savedTasks), old(selectedPerson), list))
        else old(State())
    {
      UpdateTask(authorized, t.id, ToggleMorePatch(t));
    }
  }
}
