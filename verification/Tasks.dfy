/** Round-robin scheduling: who runs next, and that everybody gets a turn. */
module Scheduling {
  datatype Task = Task(id: nat, waiting: bool)

  /** The task list and the position of the current task. */
  datatype Sched = Sched(tasks: seq<Task>, cur: nat)

  ghost predicate Ok(s: Sched) {
    && s.cur < |s.tasks|
    && forall i, j :: 0 <= i < j < |s.tasks| ==> s.tasks[i].id != s.tasks[j].id
  }

  predicate Runnable(s: Sched) {
    exists i :: 0 <= i < |s.tasks| && !s.tasks[i].waiting
  }

  /** The position after `i` in cyclic order. */
  function After(n: nat, i: nat): (r: nat)
    requires i < n
    ensures r < n
  {
    if i + 1 < n then i + 1 else 0
  }

  /** How many steps lead from position `i` to position `j`, at least one. */
  function Distance(n: nat, i: nat, j: nat): (d: nat)
    requires i < n && j < n
    ensures 1 <= d <= n
  {
    if j > i then j - i else j + n - i
  }

  /** The selection loop: steps until a task that does not wait. */
  function Pick(tasks: seq<Task>, i: nat, target: nat): (r: nat)
    requires i < |tasks| && target < |tasks| && !tasks[target].waiting
    ensures r < |tasks| && !tasks[r].waiting
    decreases Distance(|tasks|, i, target)
  {
    var j := After(|tasks|, i);
    if !tasks[j].waiting then j else Pick(tasks, j, target)
  }

  /** The first task after `i` that does not wait: everything passed over waits, and the
      choice does not depend on which runnable task ends the search. */
  lemma {:induction false} PickFirst(tasks: seq<Task>, i: nat, target: nat, j: nat)
    requires i < |tasks| && target < |tasks| && !tasks[target].waiting
    requires j < |tasks| && Distance(|tasks|, i, j) < Distance(|tasks|, i, Pick(tasks, i, target))
    ensures tasks[j].waiting
    decreases Distance(|tasks|, i, target)
  {
    var k := After(|tasks|, i);
    if tasks[k].waiting && j != k { PickFirst(tasks, k, target, j); }
  }

  lemma PickSame(tasks: seq<Task>, i: nat, a: nat, b: nat)
    requires i < |tasks| && a < |tasks| && b < |tasks| && !tasks[a].waiting && !tasks[b].waiting
    ensures Pick(tasks, i, a) == Pick(tasks, i, b)
  {
    var (p, q, n) := (Pick(tasks, i, a), Pick(tasks, i, b), |tasks|);
    if Distance(n, i, p) < Distance(n, i, q) {
      PickFirst(tasks, i, b, p);
    } else if Distance(n, i, q) < Distance(n, i, p) {
      PickFirst(tasks, i, a, q);
    }
  }

  // ----- steps -----

  /** What can happen.  A spawned task gets an identifier of its own. */
  datatype Event = Switch | Kill | SetWaiting(id: nat, waiting: bool) | Spawn(id: nat)

  ghost function FirstRunnable(s: Sched): (i: nat)
    requires Runnable(s)
    ensures i < |s.tasks| && !s.tasks[i].waiting
  {
    var i :| 0 <= i < |s.tasks| && !s.tasks[i].waiting;
    i
  }

  ghost function Switched(s: Sched): Sched
    requires Ok(s) && Runnable(s)
  {
    s.(cur := Pick(s.tasks, s.cur, FirstRunnable(s)))
  }

  /** The current task leaves the list; the next one, or the first, runs. */
  function Killed(s: Sched): Sched
    requires s.cur < |s.tasks| && |s.tasks| >= 2
  {
    Sched(s.tasks[..s.cur] + s.tasks[s.cur + 1..], if s.cur + 1 < |s.tasks| then s.cur else 0)
  }

  /** The new task comes last. */
  function Spawned(s: Sched, id: nat): Sched {
    s.(tasks := s.tasks + [Task(id, false)])
  }

  function SetAll(tasks: seq<Task>, id: nat, waiting: bool): (r: seq<Task>)
    ensures |r| == |tasks|
    ensures forall i :: 0 <= i < |tasks| ==> r[i] == if tasks[i].id == id then tasks[i].(waiting := waiting)
      else tasks[i]
  {
    seq(|tasks|, i requires 0 <= i < |tasks| => if tasks[i].id == id then tasks[i].(waiting := waiting) else tasks[i])
  }

  ghost predicate Allowed(s: Sched, e: Event) {
    match e
    case Switch => Runnable(s)
    case Kill => |s.tasks| >= 2
    case SetWaiting(_, _) => true
    case Spawn(id) => forall i :: 0 <= i < |s.tasks| ==> s.tasks[i].id != id
  }

  ghost function Step(s: Sched, e: Event): Sched
    requires Ok(s) && Allowed(s, e)
  {
    match e
    case Switch => Switched(s)
    case Kill => Killed(s)
    case SetWaiting(id, waiting) => s.(tasks := SetAll(s.tasks, id, waiting))
    case Spawn(id) => Spawned(s, id)
  }

  lemma StepOk(s: Sched, e: Event)
    requires Ok(s) && Allowed(s, e)
    ensures Ok(Step(s, e))
  {
    if e.Kill? {
      var t := Step(s, e);
      forall i, j | 0 <= i < j < |t.tasks| ensures t.tasks[i].id != t.tasks[j].id {
        assert t.tasks[i] == s.tasks[if i < s.cur then i else i + 1];
        assert t.tasks[j] == s.tasks[if j < s.cur then j else j + 1];
      }
    }
  }

  /** The task with this id is in the list, at this position, and does not wait. */
  ghost predicate Stays(s: Sched, id: nat, j: nat) {
    j < |s.tasks| && s.tasks[j] == Task(id, false)
  }

  predicate IsTurn(e: Event) { e.Switch? || e.Kill? }

  /** A switch, or the death of another task, brings the target nearer or lets it run; a
      spawn may put one more task in front of it; setting flags does not move it. */
  lemma Nearer(s: Sched, e: Event, id: nat, j: nat) returns (k: nat)
    requires Ok(s) && Allowed(s, e) && Stays(s, id, j)
    requires e.Kill? ==> s.cur != j
    requires e.SetWaiting? ==> e.id != id
    ensures Ok(Step(s, e)) && Stays(Step(s, e), id, k)
    ensures IsTurn(e) ==>
      Step(s, e).cur == k || Distance(|Step(s, e).tasks|, Step(s, e).cur, k) < Distance(|s.tasks|, s.cur, j)
    ensures e.SetWaiting? ==> Distance(|Step(s, e).tasks|, Step(s, e).cur, k) == Distance(|s.tasks|, s.cur, j)
    ensures e.Spawn? ==>
      Distance(|Step(s, e).tasks|, Step(s, e).cur, k) == Distance(|s.tasks|, s.cur, j) + if j <= s.cur then 1 else 0
  {
    StepOk(s, e);
    match e
    case Switch =>
      k := j;
      var p := Step(s, e).cur;
      if Distance(|s.tasks|, s.cur, j) < Distance(|s.tasks|, s.cur, p) {
        PickFirst(s.tasks, s.cur, FirstRunnable(s), j);
      }
    case Kill =>
      k := if j < s.cur then j else j - 1;
      assert Step(s, e).tasks[k] == s.tasks[j];
    case SetWaiting(_, _) =>
      k := j;
    case Spawn(_) =>
      k := j;
  }

  /** A run: events one after another. */
  ghost predicate Runs(s: Sched, events: seq<Event>)
    requires Ok(s)
    decreases |events|
  {
    events != [] ==> Allowed(s, events[0]) && (StepOk(s, events[0]); Runs(Step(s, events[0]), events[1..]))
  }

  /** The target is not killed while it runs and nobody touches its waiting flag. */
  ghost predicate LeftAlone(s: Sched, events: seq<Event>, id: nat)
    requires Ok(s) && Runs(s, events)
    decreases |events|
  {
    events != [] ==>
      && (events[0].Kill? ==> s.tasks[s.cur].id != id)
      && (events[0].SetWaiting? ==> events[0].id != id)
      && (StepOk(s, events[0]); LeftAlone(Step(s, events[0]), events[1..], id))
  }

  /** How many of the events give the processor to another task. */
  function Turns(events: seq<Event>): nat {
    if events == [] then 0 else (if IsTurn(events[0]) then 1 else 0) + Turns(events[1..])
  }

  function Spawns(events: seq<Event>): nat {
    if events == [] then 0 else (if events[0].Spawn? then 1 else 0) + Spawns(events[1..])
  }

  /** Some state after the first event of the run has the target as current task. */
  ghost predicate Chosen(s: Sched, events: seq<Event>, id: nat)
    requires Ok(s) && Runs(s, events)
    decreases |events|
  {
    events != [] && (StepOk(s, events[0]);
      var t := Step(s, events[0]); (IsTurn(events[0]) && t.tasks[t.cur].id == id) || Chosen(t, events[1..], id))
  }

  /** Fairness: in every run a task that stays runnable is chosen within as many turns as
      its distance from the current task and the number of spawns together. */
  lemma {:induction false} Fair(s: Sched, events: seq<Event>, id: nat, j: nat)
    requires Ok(s) && Runs(s, events) && LeftAlone(s, events, id) && Stays(s, id, j)
    requires Turns(events) >= Distance(|s.tasks|, s.cur, j) + Spawns(events)
    ensures Chosen(s, events, id)
    decreases |events|
  {
    if events != [] {
      StepOk(s, events[0]);
      var t := Step(s, events[0]);
      if events[0].Kill? { OnlyOne(s, id, j); }
      var k := Nearer(s, events[0], id, j);
      if !IsTurn(events[0]) || t.cur != k {
        Fair(t, events[1..], id, k);
      }
    }
  }

  lemma OnlyOne(s: Sched, id: nat, j: nat)
    requires Ok(s) && Stays(s, id, j) && s.tasks[s.cur].id != id
    ensures s.cur != j
  {
  }

  /** So within as many as there are tasks, now or spawned. */
  lemma WithinAllTasks(s: Sched, events: seq<Event>, id: nat, j: nat)
    requires Ok(s) && Runs(s, events) && LeftAlone(s, events, id) && Stays(s, id, j)
    requires Turns(events) >= |s.tasks| + Spawns(events)
    ensures Chosen(s, events, id)
  {
    Fair(s, events, id, j);
  }
}

/** The task list as a doubly linked list changed in place. */
module TaskList {
  import opened Scheduling

  /** `struct ll_task_i`; the saved registers and the process are left out. */
  class Node {
    var next: Node?
    var prev: Node?
    var id: nat
    var waiting: bool

    constructor (id: nat)
      ensures next == null && prev == null && this.id == id && !waiting
    {
      next, prev, this.id, waiting := null, null, id, false;
    }
  }

  ghost function Elems(list: seq<Node>): set<Node> {
    set t | t in list
  }

  /** One list without cycles. */
  ghost predicate Linked(list: seq<Node>)
    reads Elems(list)`next, Elems(list)`prev
  {
    && (forall i, j :: 0 <= i < j < |list| ==> list[i] != list[j])
    && (forall i :: 0 <= i < |list| - 1 ==> list[i].next == list[i + 1])
    && (forall i :: 0 < i < |list| ==> list[i].prev == list[i - 1])
    && (list != [] ==> list[0].prev == null && list[|list| - 1].next == null)
  }

  ghost function Tasks(list: seq<Node>): (r: seq<Task>)
    reads Elems(list)`id, Elems(list)`waiting
    ensures |r| == |list|
  {
    if list == [] then []
    else
      var t := list[|list| - 1];
      Tasks(list[..|list| - 1]) + [Task(t.id, t.waiting)]
  }

  lemma {:induction false} TaskAt(list: seq<Node>, i: nat)
    requires i < |list|
    ensures Tasks(list)[i] == Task(list[i].id, list[i].waiting)
    decreases |list|
  {
    if i < |list| - 1 { TaskAt(list[..|list| - 1], i); }
  }

  lemma AllTasks(list: seq<Node>)
    ensures forall i :: 0 <= i < |list| ==> Tasks(list)[i] == Task(list[i].id, list[i].waiting)
  {
    forall i | 0 <= i < |list| ensures Tasks(list)[i] == Task(list[i].id, list[i].waiting) { TaskAt(list, i); }
  }

  lemma SameTasks(list: seq<Node>, tasks: seq<Task>)
    requires |tasks| == |list| && forall i :: 0 <= i < |list| ==> tasks[i] == Task(list[i].id, list[i].waiting)
    ensures Tasks(list) == tasks
  {
    AllTasks(list);
  }

  lemma Neighbours(list: seq<Node>, i: nat)
    requires Linked(list) && i < |list|
    ensures list[i].next == if i + 1 < |list| then list[i + 1] else null
    ensures list[i].prev == if i > 0 then list[i - 1] else null
    ensures forall j :: 0 <= j < |list| && j != i ==> list[j] != list[i]
  {
  }

  class Scheduler {
    var firstTask: Node?
    var lastTask: Node?
    var currentTask: Node?
    var nextTaskId: nat
    ghost var list: seq<Node>
    ghost var cur: nat

    ghost predicate ValidList()
      reads this, Elems(list)`next, Elems(list)`prev
    {
      && Linked(list) && cur < |list|
      && firstTask == list[0] && lastTask == list[|list| - 1] && currentTask == list[cur]
    }

    /** One list from the first to the last task, with the current task in it and
        identifiers that differ. */
    ghost predicate Valid()
      reads this, Elems(list)
    {
      ValidList() && NewIds(Tasks(list), nextTaskId) && Ok(View())
    }

    ghost function View(): Sched
      reads this, Elems(list)`id, Elems(list)`waiting
    {
      Sched(Tasks(list), cur)
    }

    /** init_tasks. */
    constructor ()
      ensures Valid() && View() == Sched([Task(0, false)], 0) && fresh(list)
    {
      var t := new Node(0);
      firstTask, lastTask, currentTask := t, t, t;
      nextTaskId := 1;
      list, cur := [t], 0;
    }

    /** spawn_thread, without the new stack: the task goes to the end of the list. */
    method SpawnThread()
      requires Valid()
      modifies this`lastTask, this`nextTaskId, this`list, lastTask`next
      ensures Valid() && View() == Spawned(old(View()), old(nextTaskId))
      ensures |list| == |old(list)| + 1 && list[..|old(list)|] == old(list) && fresh(list[|old(list)|])
    {
      hide Tasks, Ok, NewIds;
      ghost var l := list;
      AllTasks(l);
      var t := new Node(nextTaskId);
      nextTaskId := nextTaskId + 1;
      Append(t);
      TasksAppended(l, t);
      SameTasks(l, old(Tasks(list)));
      SpawnedOk(old(View()), old(nextTaskId));
    }

    /** Linking a new task at the end. */
    method Append(t: Node)
      requires ValidList() && t !in list && t.next == null
      modifies this`lastTask, this`list, lastTask`next, t`prev
      ensures ValidList() && list == old(list) + [t]
    {
      ghost var l := list;
      lastTask.next := t;
      t.prev := lastTask;
      lastTask := t;
      list := list + [t];
      assert list[|l|] == t && forall i :: 0 <= i < |l| ==> list[i] == l[i];
    }

    /** kill_this_thread; `panicked` stands for the refusal to kill the last task. */
    method KillThisThread() returns (panicked: bool)
      requires Valid()
      modifies this`firstTask, this`lastTask, this`currentTask, this`list, this`cur, Elems(list)`next, Elems(list)`prev
      ensures Valid() && panicked == (|old(list)| == 1)
      ensures View() == if panicked then old(View()) else Killed(old(View()))
      ensures list == if panicked then old(list) else old(list)[..old(cur)] + old(list)[old(cur) + 1..]
    {
      hide Tasks, Linked, Ok, NewIds, Killed;
      ghost var l, c := list, cur;
      Neighbours(l, c);
      if currentTask.prev == null && currentTask.next == null {
        return true;
      }
      var task := firstTask;
      if currentTask.next != null {
        task := currentTask.next;
      }
      Unlink();
      currentTask := task;
      cur := if c + 1 < |l| then c else 0;
      TasksRemoved(l, c);
      KilledParts(old(View()));
      KilledOk(old(View()), nextTaskId);
      panicked := false;
    }

    /** Taking the current task out of the list. */
    method Unlink()
      requires ValidList() && |list| >= 2
      modifies this`firstTask, this`lastTask, this`list, Elems(list)`next, Elems(list)`prev
      ensures list == old(list)[..cur] + old(list)[cur + 1..] && Linked(list)
      ensures firstTask == list[0] && lastTask == list[|list| - 1]
    {
      hide Linked;
      ghost var l, c := list, cur;
      Neighbours(l, c);
      var prev, next := currentTask.prev, currentTask.next;
      Join(prev, next, l, c);
      if currentTask == firstTask {
        firstTask := next;
      }
      if currentTask == lastTask {
        lastTask := prev;
      }
      list := l[..c] + l[c + 1..];
    }

    /** The neighbours of a task that leaves the list meet. */
    method Join(prev: Node?, next: Node?, ghost l: seq<Node>, ghost c: nat)
      requires c < |l| && |l| >= 2 && Linked(l)
      requires prev == (if c > 0 then l[c - 1] else null) && next == if c + 1 < |l| then l[c + 1] else null
      modifies Elems(l)`next, Elems(l)`prev
      ensures Linked(l[..c] + l[c + 1..])
    {
      ghost var rest := l[..c] + l[c + 1..];
      if prev != null {
        prev.next := next;
      }
      if next != null {
        next.prev := prev;
      }
      assert forall i :: 0 <= i < |rest| ==> rest[i] == if i < c then l[i] else l[i + 1];
    }

    /** _do_switch_task: the first task after the current one that does not wait.  With
        none the loop would not end; the test behind it is never reached. */
    method DoSwitchTask()
      requires Valid() && Runnable(View())
      modifies this`currentTask, this`cur
      ensures Valid() && View() == Switched(old(View()))
    {
      hide Linked, Ok, NewIds, Tasks, Pick, After, Distance;
      ghost var v, target := View(), FirstRunnable(View());
      ghost var i: nat := cur;
      StepOk(v, Switch);
      Advance(v.tasks, i, target);
      Neighbours(list, i);
      currentTask := if currentTask.next == null then firstTask else currentTask.next;
      i := After(|list|, i);
      TaskAt(list, i);
      while currentTask.waiting
        invariant cur == v.cur && i < |list| && currentTask == list[i] && Linked(list) && Tasks(list) == v.tasks
        invariant Tasks(list)[i] == Task(list[i].id, list[i].waiting)
        invariant Pick(v.tasks, v.cur, target) == if !v.tasks[i].waiting then i else Pick(v.tasks, i, target)
        decreases if v.tasks[i].waiting then Distance(|list|, i, target) else 0
      {
        Advance(v.tasks, i, target);
        Neighbours(list, i);
        currentTask := if currentTask.next == null then firstTask else currentTask.next;
        i := After(|list|, i);
        TaskAt(list, i);
      }
      cur := i;
    }

    /** set_waiting: the first task with this identifier. */
    method SetWaitingFlag(tid: nat, waiting: bool)
      requires Valid()
      modifies Elems(list)`waiting
      ensures Valid() && View() == old(View()).(tasks := SetAll(old(View()).tasks, tid, waiting))
    {
      hide Linked, Ok, NewIds, Tasks, SetAll;
      ghost var i: nat := 0;
      ghost var v := View();
      AllTasks(list);
      var t := firstTask;
      while t != null && t.id != tid
        invariant i <= |list| && (if i < |list| then t == list[i] else t == null)
        invariant forall k :: 0 <= k < i ==> v.tasks[k].id != tid
        invariant Linked(list) && Tasks(list) == v.tasks
        decreases |list| - i
      {
        Neighbours(list, i);
        t := t.next;
        i := i + 1;
      }
      if t != null {
        SetFlag(t, i, waiting);
      }
      ChangedOk(v, nextTaskId, i, tid, waiting);
    }

    method SetFlag(t: Node, ghost i: nat, waiting: bool)
      requires Linked(list) && i < |list| && t == list[i]
      modifies t`waiting
      ensures Tasks(list) == old(Tasks(list))[i := Task(t.id, waiting)]
    {
      hide Linked, Tasks;
      Neighbours(list, i);
      AllTasks(list);
      ghost var was := Tasks(list);
      t.waiting := waiting;
      AllTasks(list);
      assert Tasks(list) == was[i := Task(t.id, waiting)];
    }
  }

  /** One step of the selection loop. */
  lemma Advance(tasks: seq<Task>, i: nat, target: nat)
    requires i < |tasks| && target < |tasks| && !tasks[target].waiting
    ensures After(|tasks|, i) == if i + 1 < |tasks| then i + 1 else 0
    ensures Pick(tasks, i, target) == if !tasks[After(|tasks|, i)].waiting then After(|tasks|, i)
      else Pick(tasks, After(|tasks|, i), target)
    ensures tasks[After(|tasks|, i)].waiting ==> Distance(|tasks|, After(|tasks|, i), target) < Distance(|tasks|, i,
        target)
  {
  }

  // ----- the data part of each change -----

  ghost predicate NewIds(tasks: seq<Task>, nextId: nat) {
    forall i :: 0 <= i < |tasks| ==> tasks[i].id < nextId
  }

  lemma TasksAppended(l: seq<Node>, t: Node)
    ensures Tasks(l + [t]) == Tasks(l) + [Task(t.id, t.waiting)]
  {
  }

  lemma SpawnedOk(v: Sched, nextId: nat)
    requires Ok(v) && NewIds(v.tasks, nextId)
    ensures Ok(v.(tasks := v.tasks + [Task(nextId, false)])) && NewIds(v.tasks + [Task(nextId, false)], nextId + 1)
  {
  }

  lemma TasksRemoved(l: seq<Node>, c: nat)
    requires c < |l|
    ensures Tasks(l[..c] + l[c + 1..]) == Tasks(l)[..c] + Tasks(l)[c + 1..]
  {
    hide Tasks;
    AllTasks(l);
    AllTasks(l[..c] + l[c + 1..]);
  }

  lemma KilledParts(v: Sched)
    requires v.cur < |v.tasks| && |v.tasks| >= 2
    ensures Killed(v) == Sched(v.tasks[..v.cur] + v.tasks[v.cur + 1..], if v.cur + 1 < |v.tasks| then v.cur else 0)
  {
  }

  lemma KilledOk(v: Sched, nextId: nat)
    requires Ok(v) && |v.tasks| >= 2 && NewIds(v.tasks, nextId)
    ensures Ok(Killed(v)) && NewIds(Killed(v).tasks, nextId)
  {
    StepOk(v, Kill);
  }

  /** At most one task carries an identifier. */
  lemma OneChanged(v: Sched, i: nat, waiting: bool)
    requires Ok(v) && i < |v.tasks|
    ensures SetAll(v.tasks, v.tasks[i].id, waiting) == v.tasks[i := Task(v.tasks[i].id, waiting)]
  {
  }

  lemma ChangedOk(v: Sched, nextId: nat, i: nat, tid: nat, waiting: bool)
    requires Ok(v) && NewIds(v.tasks, nextId) && i <= |v.tasks| && (i < |v.tasks| ==> v.tasks[i].id == tid)
    requires forall k :: 0 <= k < i ==> v.tasks[k].id != tid
    ensures var tasks := if i < |v.tasks| then v.tasks[i := Task(tid, waiting)] else v.tasks;
      tasks == SetAll(v.tasks, tid, waiting) && Ok(v.(tasks := tasks)) && NewIds(tasks, nextId)
  {
    if i < |v.tasks| {
      OneChanged(v, i, waiting);
    } else {
      assert SetAll(v.tasks, tid, waiting) == v.tasks;
    }
  }
}
