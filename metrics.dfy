/**
 * The figures the dashboard derives from the selected student's task list on
 * every render: the three counts shown in the stat boxes and charts, and the
 * completion percentage.
 */
module Metrics {
  import opened Tasks

  /** `tasks.filter(t => t.completed && !t.late).length`: done on time. */
  function Completed(s: seq<Task>): (n: nat)
    ensures n <= |s|
    ensures n == 0 <==> forall i :: 0 <= i < |s| ==> !(s[i].completed && !s[i].late)
    decreases |s|
  {
    if s == [] then 0 else (if s[0].completed && !s[0].late then 1 else 0) + Completed(s[1..])
  }

  /** `tasks.filter(t => t.completed && t.late).length`: done after the due date. */
  function Late(s: seq<Task>): (n: nat)
    ensures n <= |s|
    ensures n == 0 <==> forall i :: 0 <= i < |s| ==> !(s[i].completed && s[i].late)
    decreases |s|
  {
    if s == [] then 0 else (if s[0].completed && s[0].late then 1 else 0) + Late(s[1..])
  }

  /** `tasks.filter(t => !t.completed).length`: not done yet. */
  function Pending(s: seq<Task>): (n: nat)
    ensures n <= |s|
    ensures n == 0 <==> forall i :: 0 <= i < |s| ==> !(!s[i].completed)
    decreases |s|
  {
    if s == [] then 0 else (if !s[0].completed then 1 else 0) + Pending(s[1..])
  }

  /** Every task falls in exactly one of the three counts. */
  lemma {:induction false} CountsPartition(s: seq<Task>)
    ensures Completed(s) + Late(s) + Pending(s) == |s|
    decreases |s|
  {
    if s != [] {
      CountsPartition(s[1..]);
    }
  }

  /** Appending a task adds one to the count its status belongs to and nothing to the others. */
  lemma {:induction false} CountsAppend(s: seq<Task>, t: Task)
    ensures Completed(s + [t]) == Completed(s) + (if t.completed && !t.late then 1 else 0)
    ensures Late(s + [t]) == Late(s) + (if t.completed && t.late then 1 else 0)
    ensures Pending(s + [t]) == Pending(s) + (if !t.completed then 1 else 0)
    decreases |s|
  {
    if s != [] {
      assert (s + [t])[1..] == s[1..] + [t];
      CountsAppend(s[1..], t);
    }
  }

  /** Adding a new, open task raises the pending count by one and leaves the others. */
  lemma NewTaskIsPending(s: seq<Task>, id: nat, name: string, description: string, dueDate: int)
    ensures var s' := s + [NewTask(id, name, description, dueDate)];
      Pending(s') == Pending(s) + 1 && Completed(s') == Completed(s) && Late(s') == Late(s)
  {
    CountsAppend(s, NewTask(id, name, description, dueDate));
  }

  /**
   * `Math.round(completed / tasks.length * 100)`, 0 for an empty list: the
   * share of tasks done on time, as a whole percentage rounded half up.
   */
  function ProgressPercent(s: seq<Task>): (r: nat)
    ensures r <= 100
    ensures s == [] ==> r == 0
    ensures s != [] ==> 2 * r * |s| <= 200 * Completed(s) + |s| < 2 * (r + 1) * |s|
  {
    if s == [] then 0
    else
      var c, n := Completed(s), |s|;
      RoundHalfUp(100 * c, n);
      (200 * c + n) / (2 * n)
  }

  /** `(2a + n) / (2n)` is `a / n` rounded to the nearest integer, halves upward. */
  lemma RoundHalfUp(a: nat, n: nat)
    requires 0 < n
    ensures var r := (2 * a + n) / (2 * n);
      2 * r * n <= 2 * a + n < 2 * (r + 1) * n
      && (a <= 100 * n ==> r <= 100)
  {
    var r := (2 * a + n) / (2 * n);
    var m := (2 * a + n) % (2 * n);
    assert 2 * a + n == r * (2 * n) + m && 0 <= m < 2 * n;
    assert 2 * r * n == r * (2 * n);
    assert 2 * (r + 1) * n == r * (2 * n) + 2 * n;
    if a <= 100 * n {
      DivBelow(2 * a + n, 2 * n, 101);
    }
  }

  /** A quotient is below `k` when the dividend is below `k` divisors. */
  lemma DivBelow(x: nat, d: nat, k: nat)
    requires 0 < d && x < k * d
    ensures x / d < k
  {
    var q := x / d;
    assert q * d <= x;
  }

  /** The quotient of `x` by `d` is the `q` with `q * d <= x < (q + 1) * d`. */
  lemma DivExact(x: nat, d: nat, q: nat)
    requires 0 < d && q * d <= x < (q + 1) * d
    ensures x / d == q
  {
    DivBelow(x, d, q + 1);
    var q' := x / d;
    assert x < (q' + 1) * d;
    MulCancel(q, q' + 1, d);
  }

  lemma MulCancel(a: nat, b: nat, d: nat)
    requires a * d < b * d
    ensures a < b
  {
  }

  /** With every task done on time the dashboard shows 100%. */
  lemma {:induction false} AllOnTimeIsFull(s: seq<Task>)
    requires s != []
    requires forall i :: 0 <= i < |s| ==> s[i].completed && !s[i].late
    ensures ProgressPercent(s) == 100
  {
    AllOnTimeCount(s);
    var n := |s|;
    DivExact(200 * n + n, 2 * n, 100);
  }

  lemma {:induction false} AllOnTimeCount(s: seq<Task>)
    requires forall i :: 0 <= i < |s| ==> s[i].completed && !s[i].late
    ensures Completed(s) == |s|
    decreases |s|
  {
    if s != [] {
      assert forall i :: 0 <= i < |s[1..]| ==> s[1..][i] == s[i + 1];
      AllOnTimeCount(s[1..]);
    }
  }

  /**
   * Late completions do not count towards the percentage: a list whose tasks
   * were all done late shows 0%, not 100%.
   */
  lemma {:induction false} AllLateIsZero(s: seq<Task>)
    requires forall i :: 0 <= i < |s| ==> s[i].completed && s[i].late
    ensures Completed(s) == 0 && Late(s) == |s| && Pending(s) == 0
    ensures ProgressPercent(s) == 0
    decreases |s|
  {
    if s != [] {
      assert forall i :: 0 <= i < |s[1..]| ==> s[1..][i] == s[i + 1];
      AllLateIsZero(s[1..]);
      DivExact(|s|, 2 * |s|, 0);
    }
  }
}
