/**
 * A student's task list and the pure list transforms the dashboard applies
 * to it: the lateness test, the object merge behind `updateTask`
 * (`tasks.map(t => t.id === id ? {...t, ...updates} : t)`) and the filter
 * behind `deleteTask` (`tasks.filter(t => t.id !== id)`).
 *
 * Ids come from `Date.now()` and are NOT assumed unique: every transform
 * acts on all tasks that carry the id it is given.
 */
module Tasks {
  import opened Options

  /** One task. `dueDate` is the submission date as a point in time. */
  datatype Task = Task(
    id: nat,
    name: string,
    description: string,
    dueDate: int,
    completed: bool,
    late: bool,
    showMore: bool)

  /**
   * The `updates` object of `updateTask`: each field either given (and then
   * overriding the task's own) or absent.
   */
  datatype Patch = Patch(
    id: Option<nat>,
    name: Option<string>,
    description: Option<string>,
    dueDate: Option<int>,
    completed: Option<bool>,
    late: Option<bool>,
    showMore: Option<bool>)

  /** The empty object `{}`. */
  const NoChange: Patch := Patch(None, None, None, None, None, None, None)

  /** A task as the "Add Task" form creates it: not completed, not late, collapsed. */
  function NewTask(id: nat, name: string, description: string, dueDate: int): (t: Task)
    ensures !t.completed && !t.late && !t.showMore
    ensures t.id == id && t.name == name && t.description == description && t.dueDate == dueDate
  {
    Task(id, name, description, dueDate, false, false, false)
  }

  /** A task is expired when it is still open and its due date lies strictly before `now`. */
  predicate IsExpired(t: Task, now: int): (expired: bool)
    ensures t.completed ==> !expired
    ensures !t.completed ==> (expired <==> t.dueDate < now)
  {
    !t.completed && t.dueDate < now
  }

  /**
   * The due instant itself is not yet expired; once an open task has
   * expired it stays expired as the clock moves on.
   */
  lemma ExpiryBoundary(t: Task, now: int, later: int)
    ensures !IsExpired(t, t.dueDate)
    ensures IsExpired(t, now) && now <= later ==> IsExpired(t, later)
    ensures t.completed ==> !IsExpired(t, now)
  {
  }

  /** `{...t, ...p}`: the fields `p` gives, over those of `t`. */
  function Merge(t: Task, p: Patch): (r: Task)
    ensures r.id == (if p.id.Some? then p.id.value else t.id)
    ensures r.name == (if p.name.Some? then p.name.value else t.name)
    ensures r.description == (if p.description.Some? then p.description.value else t.description)
    ensures r.dueDate == (if p.dueDate.Some? then p.dueDate.value else t.dueDate)
    ensures r.completed == (if p.completed.Some? then p.completed.value else t.completed)
    ensures r.late == (if p.late.Some? then p.late.value else t.late)
    ensures r.showMore == (if p.showMore.Some? then p.showMore.value else t.showMore)
  {
    Task(
      p.id.GetOr(t.id),
      p.name.GetOr(t.name),
      p.description.GetOr(t.description),
      p.dueDate.GetOr(t.dueDate),
      p.completed.GetOr(t.completed),
      p.late.GetOr(t.late),
      p.showMore.GetOr(t.showMore))
  }

  /** The updates the "Mark Done" button sends for `t`: done, late if it had expired. */
  function MarkDonePatch(t: Task, now: int): (p: Patch)
    ensures p.completed == Some(true) && p.late == Some(!t.completed && t.dueDate < now)
    ensures p.id.None? && p.name.None? && p.description.None? && p.dueDate.None? && p.showMore.None?
  {
    NoChange.(completed := Some(true), late := Some(IsExpired(t, now)))
  }

  /** The updates the "More"/"Less" button sends for `t`. */
  function ToggleMorePatch(t: Task): (p: Patch)
    ensures p.showMore == Some(!t.showMore)
    ensures p.id.None? && p.name.None? && p.description.None? && p.dueDate.None?
    ensures p.completed.None? && p.late.None?
  {
    NoChange.(showMore := Some(!t.showMore))
  }

  /** Merging the same updates twice is merging them once. */
  lemma MergeIdempotent(t: Task, p: Patch)
    ensures Merge(Merge(t, p), p) == Merge(t, p)
  {
  }

  /** Pressing "More" and then "Less" on a task restores it. */
  lemma ToggleMoreTwice(t: Task)
    ensures var once := Merge(t, ToggleMorePatch(t));
      once.showMore == !t.showMore && Merge(once, ToggleMorePatch(once)) == t
  {
  }

  /**
   * `updateTask`'s list: the same length and order, every task whose id is
   * `id` overlaid with `p`, every other task as it was.
   */
  function UpdateById(s: seq<Task>, id: nat, p: Patch): (r: seq<Task>)
    ensures |r| == |s|
    ensures forall i :: 0 <= i < |s| && s[i].id == id ==> r[i] == Merge(s[i], p)
    ensures forall i :: 0 <= i < |s| && s[i].id != id ==> r[i] == s[i]
    decreases |s|
  {
    if s == [] then []
    else [if s[0].id == id then Merge(s[0], p) else s[0]] + UpdateById(s[1..], id, p)
  }

  /** Updating an id no task carries leaves the list as it was. */
  lemma UpdateByIdAbsent(s: seq<Task>, id: nat, p: Patch)
    requires forall t :: t in s ==> t.id != id
    ensures UpdateById(s, id, p) == s
  {
    var r := UpdateById(s, id, p);
    assert forall i :: 0 <= i < |s| ==> r[i] == s[i] by {
      forall i | 0 <= i < |s| ensures r[i] == s[i] {
        assert s[i] in s;
      }
    }
  }

  /** Sending the same update twice has the effect of sending it once. */
  lemma UpdateByIdIdempotent(s: seq<Task>, id: nat, p: Patch)
    ensures UpdateById(UpdateById(s, id, p), id, p) == UpdateById(s, id, p)
  {
    var r := UpdateById(s, id, p);
    var rr := UpdateById(r, id, p);
    forall i | 0 <= i < |s| ensures rr[i] == r[i] {
      if s[i].id == id {
        MergeIdempotent(s[i], p);
      }
    }
  }

  /**
   * After "Mark Done" on an open task `t` of the list, every task sharing
   * `t`'s id is completed, and its `late` flag says whether `t`'s due date
   * was strictly before `now`; the rest of the list is untouched.
   */
  lemma MarkDoneStamps(s: seq<Task>, t: Task, now: int)
    requires t in s && !t.completed
    ensures var r := UpdateById(s, t.id, MarkDonePatch(t, now));
      && |r| == |s|
      && (forall i :: 0 <= i < |s| && s[i].id == t.id ==>
            r[i].completed && (r[i].late <==> t.dueDate < now)
            && r[i] == s[i].(completed := true, late := t.dueDate < now))
      && (forall i :: 0 <= i < |s| && s[i] == t ==> !IsExpired(r[i], now))
      && (forall i :: 0 <= i < |s| && s[i].id != t.id ==> r[i] == s[i])
  {
  }

  /** No two tasks of `s` share an id. */
  predicate DistinctIds(s: seq<Task>) {
    forall i, j :: 0 <= i < j < |s| ==> s[i].id != s[j].id
  }

  /**
   * Which tasks can have their completion or lateness changed: "More"/"Less"
   * changes neither on any task, and "Mark Done" on `t` changes neither on a
   * task whose id differs from `t`'s.
   */
  lemma StatusChangesOnlyMatching(s: seq<Task>, t: Task, now: int)
    ensures var r := UpdateById(s, t.id, ToggleMorePatch(t));
      forall i :: 0 <= i < |s| ==> r[i].completed == s[i].completed && r[i].late == s[i].late
    ensures var r := UpdateById(s, t.id, MarkDonePatch(t, now));
      forall i :: 0 <= i < |s| && s[i].id != t.id ==> r[i].completed == s[i].completed && r[i].late == s[i].late
  {
  }

  /**
   * With distinct ids, "Mark Done" on an open task leaves every completed
   * task as it was, so a task's `late` flag never changes once it is done.
   */
  lemma LateFrozenWithDistinctIds(s: seq<Task>, t: Task, now: int)
    requires DistinctIds(s) && t in s && !t.completed
    ensures var r := UpdateById(s, t.id, MarkDonePatch(t, now));
      forall i :: 0 <= i < |s| && s[i].completed ==> r[i] == s[i]
  {
    var k :| 0 <= k < |s| && s[k] == t;
    var r := UpdateById(s, t.id, MarkDonePatch(t, now));
    forall i | 0 <= i < |s| && s[i].completed ensures r[i] == s[i] {
      if i < k {
        assert s[i].id != s[k].id;
      } else if k < i {
        assert s[k].id != s[i].id;
      }
    }
  }

  /**
   * With a shared id the flag does change: "Mark Done" on the open task `a`
   * re-stamps the already completed, late task `b` as on time.
   */
  lemma SharedIdOverwritesLate()
    ensures var a := Task(1, "a", "", 10, false, false, false);
      var b := Task(1, "b", "", 0, true, true, false);
      var r := UpdateById([a, b], 1, MarkDonePatch(a, 5));
      b.completed && b.late && r[1].completed && !r[1].late
  {
  }

  /** Once done, a task is never expired again, whatever the clock says. */
  lemma DoneNeverExpires(t: Task, now: int, later: int)
    ensures !IsExpired(Merge(t, MarkDonePatch(t, now)), later)
  {
  }

  /** Number of tasks in `s` with id `id`. */
  function CountId(s: seq<Task>, id: nat): (n: nat)
    ensures n <= |s|
    decreases |s|
  {
    if s == [] then 0 else (if s[0].id == id then 1 else 0) + CountId(s[1..], id)
  }

  /** `deleteTask`'s list: the tasks of `s` whose id is not `id`, in their order. */
  function RemoveById(s: seq<Task>, id: nat): (r: seq<Task>)
    ensures forall t :: multiset(r)[t] == if t.id == id then 0 else multiset(s)[t]
    ensures |r| == |s| - CountId(s, id)
    decreases |s|
  {
    if s == [] then []
    else
      assert s == [s[0]] + s[1..];
      if s[0].id == id then RemoveById(s[1..], id)
      else [s[0]] + RemoveById(s[1..], id)
  }

  /** `a` is `b` with some elements left out, the rest in their order. */
  predicate IsSubsequence(a: seq<Task>, b: seq<Task>)
    decreases |b|
  {
    if a == [] then true
    else if b == [] then false
    else if a[0] == b[0] then IsSubsequence(a[1..], b[1..])
    else IsSubsequence(a, b[1..])
  }

  /** Deleting keeps the surviving tasks in their original order. */
  lemma {:induction false} RemoveByIdKeepsOrder(s: seq<Task>, id: nat)
    ensures IsSubsequence(RemoveById(s, id), s)
    decreases |s|
  {
    if s != [] {
      RemoveByIdKeepsOrder(s[1..], id);
      var rest := RemoveById(s[1..], id);
      if s[0].id == id {
        SubsequenceOfTail(rest, s);
      } else {
        assert ([s[0]] + rest)[1..] == rest;
      }
    }
  }

  lemma {:induction false} SubsequenceOfTail(a: seq<Task>, b: seq<Task>)
    requires b != [] && IsSubsequence(a, b[1..])
    ensures IsSubsequence(a, b)
    decreases |b|, 0
  {
    if a != [] && a[0] == b[0] {
      DropHeadSubsequence(a, b[1..]);
    }
  }

  lemma {:induction false} DropHeadSubsequence(a: seq<Task>, c: seq<Task>)
    requires a != [] && IsSubsequence(a, c)
    ensures IsSubsequence(a[1..], c)
    decreases |c|, 1
  {
    if a[0] == c[0] {
      SubsequenceOfTail(a[1..], c);
    } else {
      DropHeadSubsequence(a, c[1..]);
      SubsequenceOfTail(a[1..], c);
    }
  }

  /** Deleting an id no task carries leaves the list as it was. */
  lemma {:induction false} RemoveByIdAbsent(s: seq<Task>, id: nat)
    requires forall t :: t in s ==> t.id != id
    ensures RemoveById(s, id) == s
    decreases |s|
  {
    if s != [] {
      assert s[0] in s;
      assert forall t :: t in s[1..] ==> t in s;
      RemoveByIdAbsent(s[1..], id);
    }
  }

  /** Deleting the same id twice is deleting it once. */
  lemma RemoveByIdIdempotent(s: seq<Task>, id: nat)
    ensures RemoveById(RemoveById(s, id), id) == RemoveById(s, id)
  {
    var r := RemoveById(s, id);
    forall t | t in r ensures t.id != id {
      assert multiset(r)[t] > 0;
    }
    RemoveByIdAbsent(r, id);
  }

  /** After deleting, no task with that id is left. */
  lemma RemoveByIdRemovesAll(s: seq<Task>, id: nat)
    ensures forall t :: t in RemoveById(s, id) ==> t.id != id
    ensures CountId(RemoveById(s, id), id) == 0
  {
    var r := RemoveById(s, id);
    forall t | t in r ensures t.id != id {
      assert multiset(r)[t] > 0;
    }
    RemoveByIdAbsent(r, id);
  }
}
