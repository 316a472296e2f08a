/** Every policy keeps the processor busy, so all of them finish at the same time. */
module SchedulerMakespan {
  import opened Sums
  import opened SchedulerModel

  /** The bursts of tasks that arrive at t or later. */
  function DueFrom(tasks: seq<Task>, t: nat): (r: seq<nat>)
    ensures |r| == |tasks|
    ensures forall j :: 0 <= j < |tasks| ==> r[j] == if tasks[j].arrival >= t then tasks[j].burst else 0
  {
    seq(|tasks|, j requires 0 <= j < |tasks| => if tasks[j].arrival >= t then tasks[j].burst else 0)
  }

  /** If nothing due before task i delays it, the work due from its arrival on ends here. */
  function Term(tasks: seq<Task>, i: nat): (r: nat)
    requires i < |tasks|
  {
    tasks[i].arrival + Sum(DueFrom(tasks, tasks[i].arrival))
  }

  function MaxTerm(tasks: seq<Task>, n: nat): (r: nat)
    requires n <= |tasks|
  {
    if n == 0 then 0
    else
      var m := MaxTerm(tasks, n - 1);
      if n > 1 && Term(tasks, n - 1) < m then m else Term(tasks, n - 1)
  }

  /** The largest term: max over tasks of arrival plus the bursts arriving no earlier. */
  function Makespan(tasks: seq<Task>): (r: nat)
  {
    MaxTerm(tasks, |tasks|)
  }

  lemma {:induction false} MaxTermIsMax(tasks: seq<Task>, n: nat)
    requires n <= |tasks|
    ensures forall i :: 0 <= i < n ==> Term(tasks, i) <= MaxTerm(tasks, n)
    ensures n > 0 ==> exists i :: 0 <= i < n && Term(tasks, i) == MaxTerm(tasks, n)
  {
    if n > 0 {
      MaxTermIsMax(tasks, n - 1);
      assert Term(tasks, n - 1) <= MaxTerm(tasks, n);
    }
  }

  lemma MakespanIsMax(tasks: seq<Task>)
    ensures forall i :: 0 <= i < |tasks| ==> Term(tasks, i) <= Makespan(tasks)
    ensures tasks != [] ==> exists i :: 0 <= i < |tasks| && Term(tasks, i) == Makespan(tasks)
  {
    MaxTermIsMax(tasks, |tasks|);
  }

  function LargestCompletion(tasks: seq<Task>): (r: nat)
    ensures forall i :: 0 <= i < |tasks| ==> tasks[i].completion <= r
    ensures tasks == [] ==> r == 0
    ensures tasks != [] ==> exists i :: 0 <= i < |tasks| && tasks[i].completion == r
  {
    if tasks == [] then 0
    else
      var last := tasks[|tasks| - 1].completion;
      var m := LargestCompletion(tasks[..|tasks| - 1]);
      assert forall i :: 0 <= i < |tasks| - 1 ==> tasks[i] == tasks[..|tasks| - 1][i];
      if last < m then m else last
  }

  function Remaining(tasks: seq<Task>): (r: seq<nat>)
    ensures |r| == |tasks| && forall j :: 0 <= j < |tasks| ==> r[j] == tasks[j].remaining
  {
    seq(|tasks|, j requires 0 <= j < |tasks| => tasks[j].remaining)
  }

  /** Same pids, arrivals and bursts. */
  ghost predicate SameJobs(a: seq<Task>, b: seq<Task>)
  {
    && |a| == |b|
    && forall i :: 0 <= i < |a| ==>
         a[i].pid == b[i].pid && a[i].arrival == b[i].arrival && a[i].burst == b[i].burst
  }

  lemma SameJobsSameTerms(a: seq<Task>, b: seq<Task>)
    requires SameJobs(a, b)
    ensures forall i :: 0 <= i < |a| ==> Term(a, i) == Term(b, i)
    ensures Makespan(a) == Makespan(b)
  {
    forall i | 0 <= i < |a| ensures Term(a, i) == Term(b, i) {
      assert DueFrom(a, a[i].arrival) == DueFrom(b, b[i].arrival);
    }
    MaxTermSame(a, b, |a|);
  }

  lemma {:induction false} MaxTermSame(a: seq<Task>, b: seq<Task>, n: nat)
    requires |a| == |b| && n <= |a|
    requires forall i :: 0 <= i < n ==> Term(a, i) == Term(b, i)
    ensures MaxTerm(a, n) == MaxTerm(b, n)
  {
    if n > 0 { MaxTermSame(a, b, n - 1); }
  }

  /** What holds of each task at every loop head. */
  ghost predicate TaskOk(task: Task, now: nat)
  {
    && 0 < task.burst && task.remaining <= task.burst
    && (now < task.arrival ==> task.remaining == task.burst)
    && (task.arrival <= now ==> task.burst - task.remaining <= now - task.arrival)
    && (task.remaining == 0 ==> task.arrival + task.burst <= task.completion <= now)
  }

  ghost predicate TasksOk(tasks: seq<Task>, now: nat)
  {
    && (forall i :: 0 <= i < |tasks| ==> TaskOk(tasks[i], now))
    && (AllDone(tasks) && tasks != [] ==> exists i :: 0 <= i < |tasks| && tasks[i].completion == now)
  }

  /** The time at which the work now present would be done, were nothing else to arrive, never
      passes the makespan; and it is the makespan unless a task yet to arrive decides it. */
  ghost predicate OnCourse(tasks: seq<Task>, now: nat)
  {
    && now + Sum(Remaining(tasks)) <= Makespan(tasks)
    && (now + Sum(Remaining(tasks)) == Makespan(tasks) || exists i: nat :: LateTerm(tasks, now, i))
  }

  ghost predicate LateTerm(tasks: seq<Task>, now: nat, i: nat)
  {
    i < |tasks| && tasks[i].arrival > now && Term(tasks, i) == Makespan(tasks)
  }

  ghost predicate Busy(tasks: seq<Task>, now: nat)
  {
    TasksOk(tasks, now) && OnCourse(tasks, now)
  }

  lemma ExecuteRemaining(s: Sched, b: nat, r: nat, fair: bool)
    requires b < |s.tasks| && r <= s.tasks[b].remaining
    ensures var t := Execute(s, b, r, fair);
      && SameJobs(s.tasks, t.tasks)
      && Sum(Remaining(t.tasks)) + r == Sum(Remaining(s.tasks))
  {
    var t := Execute(s, b, r, fair);
    assert Remaining(t.tasks) == Remaining(s.tasks)[b := s.tasks[b].remaining - r];
    SumUpdate(Remaining(s.tasks), b, s.tasks[b].remaining - r);
  }

  /** A task arriving during a slice cannot decide the makespan: its work fits in what is left. */
  lemma ArrivedTermBound(s: Sched, b: nat, r: nat, fair: bool, i: nat)
    requires TasksOk(s.tasks, s.now) && Ready(s.tasks, s.now, b) && r <= s.tasks[b].remaining
    requires i < |s.tasks| && s.now < s.tasks[i].arrival <= s.now + r
    ensures Term(s.tasks, i) <= s.now + Sum(Remaining(s.tasks))
  {
    var t := Execute(s, b, r, fair);
    ExecuteRemaining(s, b, r, fair);
    var due := DueFrom(s.tasks, s.tasks[i].arrival);
    forall j | 0 <= j < |due| ensures due[j] <= Remaining(t.tasks)[j] {
      assert TaskOk(s.tasks[j], s.now);
    }
    SumMonotone(due, Remaining(t.tasks));
  }

  lemma ExecuteKeepsTasks(s: Sched, b: nat, r: nat, fair: bool)
    requires TasksOk(s.tasks, s.now) && Ready(s.tasks, s.now, b) && 0 < r <= s.tasks[b].remaining
    ensures var t := Execute(s, b, r, fair); TasksOk(t.tasks, t.now)
  {
    var t := Execute(s, b, r, fair);
    forall i | 0 <= i < |t.tasks| ensures TaskOk(t.tasks[i], t.now) {
      assert TaskOk(s.tasks[i], s.now);
    }
    if AllDone(t.tasks) {
      assert t.tasks[b].remaining == 0;
      assert t.tasks[b].completion == t.now;
    }
  }

  lemma LateTermStays(s: Sched, b: nat, r: nat, fair: bool, i: nat)
    requires TasksOk(s.tasks, s.now) && Ready(s.tasks, s.now, b) && r <= s.tasks[b].remaining
    requires LateTerm(s.tasks, s.now, i) && s.now + Sum(Remaining(s.tasks)) < Makespan(s.tasks)
    ensures var t := Execute(s, b, r, fair); LateTerm(t.tasks, t.now, i)
  {
    var t := Execute(s, b, r, fair);
    ExecuteRemaining(s, b, r, fair);
    SameJobsSameTerms(s.tasks, t.tasks);
    if s.tasks[i].arrival <= s.now + r {
      ArrivedTermBound(s, b, r, fair, i);
    }
  }

  lemma ExecuteKeepsCourse(s: Sched, b: nat, r: nat, fair: bool)
    requires Busy(s.tasks, s.now) && Ready(s.tasks, s.now, b) && 0 < r <= s.tasks[b].remaining
    ensures var t := Execute(s, b, r, fair); OnCourse(t.tasks, t.now)
  {
    var t := Execute(s, b, r, fair);
    ExecuteRemaining(s, b, r, fair);
    SameJobsSameTerms(s.tasks, t.tasks);
    assert t.now + Sum(Remaining(t.tasks)) == s.now + Sum(Remaining(s.tasks));
    if s.now + Sum(Remaining(s.tasks)) != Makespan(s.tasks) {
      var i: nat :| LateTerm(s.tasks, s.now, i);
      LateTermStays(s, b, r, fair, i);
    }
  }

  lemma ExecuteKeepsBusy(s: Sched, b: nat, r: nat, fair: bool)
    requires Busy(s.tasks, s.now) && Ready(s.tasks, s.now, b) && 0 < r <= s.tasks[b].remaining
    ensures var t := Execute(s, b, r, fair); Busy(t.tasks, t.now)
  {
    ExecuteKeepsTasks(s, b, r, fair);
    ExecuteKeepsCourse(s, b, r, fair);
  }

  lemma IdleKeepsBusy(tasks: seq<Task>, now: nat, next: nat)
    requires Busy(tasks, now) && NoneReady(tasks, now) && NextArrival(tasks, now, next)
    ensures Busy(tasks, next)
  {
    forall i | 0 <= i < |tasks| ensures TaskOk(tasks[i], next) {
      assert TaskOk(tasks[i], now);
      assert !Ready(tasks, now, i);
    }
    var e :| 0 <= e < |tasks| && tasks[e].remaining != 0 && tasks[e].arrival == next;
    assert DueFrom(tasks, next) == Remaining(tasks) by {
      forall j | 0 <= j < |tasks| ensures DueFrom(tasks, next)[j] == Remaining(tasks)[j] {
        assert TaskOk(tasks[j], now);
        assert !Ready(tasks, now, j);
      }
    }
    MakespanIsMax(tasks);
    assert Term(tasks, e) == next + Sum(Remaining(tasks)) <= Makespan(tasks);
    if next + Sum(Remaining(tasks)) != Makespan(tasks) {
      var i: nat :| LateTerm(tasks, now, i);
      assert TaskOk(tasks[i], now);
      assert tasks[i].arrival != next;
      assert LateTerm(tasks, next, i);
    }
  }

  lemma StartBusy(tasks: seq<Task>)
    requires ValidTasks(tasks) && tasks != []
    ensures Busy(Start(tasks).tasks, 0) && SameJobs(tasks, Start(tasks).tasks)
  {
    var t := Start(tasks).tasks;
    assert !AllDone(t) by { assert t[0].remaining != 0; }
    MakespanIsMax(t);
    var i :| 0 <= i < |t| && Term(t, i) == Makespan(t);
    SumMonotone(DueFrom(t, t[i].arrival), Remaining(t));
    if t[i].arrival == 0 {
      assert DueFrom(t, 0) == Remaining(t);
    } else {
      assert LateTerm(t, 0, i);
      AllWorkWithinMakespan(t);
    }
  }

  /** Index of an earliest arrival among the first n tasks. */
  function Earliest(t: seq<Task>, n: nat): (r: nat)
    requires 0 < n <= |t|
    ensures r < n && forall j :: 0 <= j < n ==> t[r].arrival <= t[j].arrival
  {
    if n == 1 then 0
    else
      var e := Earliest(t, n - 1);
      if t[n - 1].arrival < t[e].arrival then n - 1 else e
  }

  /** All the work counts towards the term of an earliest task. */
  lemma AllWorkWithinMakespan(t: seq<Task>)
    requires 0 < |t| && forall i :: 0 <= i < |t| ==> t[i].remaining == t[i].burst
    ensures Sum(Remaining(t)) <= Makespan(t)
  {
    var e := Earliest(t, |t|);
    assert DueFrom(t, t[e].arrival) == Remaining(t);
    MakespanIsMax(t);
    assert Term(t, e) <= Makespan(t);
  }

  lemma DoneCompletions(tasks: seq<Task>, now: nat)
    requires TasksOk(tasks, now) && AllDone(tasks) && tasks != []
    ensures LargestCompletion(tasks) == now
    ensures forall i :: 0 <= i < |tasks| ==> tasks[i].arrival + tasks[i].burst <= tasks[i].completion <= now
  {
    forall i | 0 <= i < |tasks| ensures tasks[i].arrival + tasks[i].burst <= tasks[i].completion <= now {
      assert TaskOk(tasks[i], now);
    }
  }

  /** When all is done, the clock, the last completion and the makespan agree. */
  lemma DoneAtMakespan(tasks: seq<Task>, now: nat)
    requires Busy(tasks, now) && AllDone(tasks) && tasks != []
    ensures now == Makespan(tasks) == LargestCompletion(tasks)
    ensures forall i :: 0 <= i < |tasks| ==> tasks[i].completion >= tasks[i].arrival + tasks[i].burst
  {
    DoneCompletions(tasks, now);
    SumZero(Remaining(tasks));
    assert !exists i: nat :: LateTerm(tasks, now, i) by {
      forall i: nat ensures !LateTerm(tasks, now, i) {
        assert i < |tasks| ==> TaskOk(tasks[i], now);
      }
    }
  }
}
