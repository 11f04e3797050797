/** The scheduler: tasks in a ring of `next` pointers, one of them running. */
module Scheduler {
  import opened Sequences
  import opened Folding
  import opened Ring

  const MAX_TASKS := 16
  const KERNEL_SPACE := 1
  const NO_SPACE := 0

  datatype State = Unused | Ready | Running | Blocked | Exited

  class Task {
    var id: nat
    var state: State
    var esp: nat
    var userProcess: nat
    var addressSpace: nat
    var next: Task?

    constructor ()
      ensures state == Unused && next == null
    {
      id, state, esp, userProcess, addressSpace, next := 0, Unused, 0, 0, NO_SPACE, null;
    }
  }

  /** What the scheduler's state means: the tasks in ring order, what each is doing, and whose turn it is. */
  datatype View = View(ring: seq<Task>, state: map<Task, State>, current: Task)

  /** The first ready element from position k on, or |rot|. */
  ghost function NextReady(rot: seq<Task>, state: map<Task, State>, k: nat): (r: nat)
    requires k <= |rot|
    ensures k <= r <= |rot|
    ensures r < |rot| ==> rot[r] in state && state[rot[r]] == Ready
    ensures forall j :: k <= j < r ==> !(rot[j] in state && state[rot[j]] == Ready)
    decreases |rot| - k
  {
    if k == |rot| || (rot[k] in state && state[rot[k]] == Ready) then k else NextReady(rot, state, k + 1)
  }

  /** A turn: the first ready task after the current one runs next. */
  ghost predicate Turn(v: View, v': View)
    requires v.current in v.ring && v.current in v.state
  {
    var rot := From(v.ring, v.current);
    var k := NextReady(rot, v.state, 1);
    if k == |rot| then v' == v
    else
      var yielded := if v.state[v.current] == Running then v.state[v.current := Ready] else v.state;
      v' == View(v.ring, yielded[rot[k] := Running], rot[k])
  }

  ghost predicate Linked(ring: seq<Task>)
    reads ring`next
  {
    forall i :: 0 <= i < |ring| ==> ring[i].next == Succ(ring, i)
  }

  lemma LinkedFrom(ring: seq<Task>, x: Task)
    requires x in ring && NoDup(ring) && Linked(ring)
    ensures Linked(From(ring, x))
  {
    var i, n, r := IndexOf(ring, x), |ring|, From(ring, x);
    forall k | 0 <= k < n ensures r[k].next == Succ(r, k) {
      var at := if i + k < n then i + k else i + k - n;
      assert r[k] == ring[at];
      assert ring[at].next == Succ(ring, at);
    }
  }

  /** The task whose turn is next, when there is one. */
  ghost predicate Chosen(v: View, next: Task)
    requires v.current in v.ring
  {
    var rot := From(v.ring, v.current);
    var k := NextReady(rot, v.state, 1);
    k < |rot| && next == rot[k] != v.current && next in v.ring && next in v.state && v.state[next] == Ready
  }

  lemma ChosenOrNot(v: View, next: Task)
    requires v.current in v.ring && next in v.state && NoDup(v.ring) && v.current in v.state && v.state[v.current] != Ready
    requires
      var rot := From(v.ring, v.current);
      var k := NextReady(rot, v.state, 1);
      (k == |rot| ==> next == v.current) && (k < |rot| ==> next == rot[k] != v.current)
    ensures if v.state[next] == Ready then Chosen(v, next) else Turn(v, v)
  {
    FromNoDup(v.ring, v.current);
  }

  lemma Switched(v: View, v': View)
    requires v.current in v.ring && v.current in v.state && v'.ring == v.ring && v'.state.Keys == v.state.Keys
    requires Chosen(v, v'.current) && v'.state[v'.current] == Running
    requires v'.state[v.current] == if v.state[v.current] == Running then Ready else v.state[v.current]
    requires forall x :: x in v.state && x != v.current && x != v'.current ==> v'.state[x] == v.state[x]
    ensures Turn(v, v')
  {
  }

  /** Somebody other than the current task is ready. */
  ghost predicate Waits(v: View) {
    exists x :: x in v.ring && x != v.current && x in v.state && v.state[x] == Ready
  }

  /** A search finds somebody exactly when somebody waits. */
  lemma WaitsFound(v: View)
    requires v.current in v.ring && NoDup(v.ring)
    ensures Waits(v) <==> NextReady(From(v.ring, v.current), v.state, 1) < |v.ring|
  {
    FromNoDup(v.ring, v.current);
    var rot := From(v.ring, v.current);
    if Waits(v) {
      var x :| x in v.ring && x != v.current && x in v.state && v.state[x] == Ready;
      var i :| 0 <= i < |rot| && rot[i] == x;
    }
  }

  lemma ExitTurn(v: View)
    requires v.current in v.ring && v.current in v.state
    ensures Waits(v.(state := v.state[v.current := Exited])) <==> Waits(v)
  {
    var w := v.(state := v.state[v.current := Exited]);
    forall x | x in v.ring && x != v.current && x in v.state ensures w.state[x] == v.state[x] {
    }
  }

  /** The turn of a task that has exited moves on exactly when somebody waits. */
  lemma ExitEnds(v: View, v': View)
    requires v.current in v.ring && v.current in v.state && NoDup(v.ring) && Turn(v.(state := v.state[v.current := Exited]), v')
    ensures (Waits(v) <==> v'.current != v.current) && v'.current in v'.state
    ensures v.current in v'.state && v'.state[v.current] == Exited && (Waits(v) ==> v'.state[v'.current] == Running)
  {
    var w := v.(state := v.state[v.current := Exited]);
    ExitTurn(v);
    WaitsFound(w);
    FromNoDup(w.ring, w.current);
  }

  /** The first unused slot from k on, or |table|. */
  ghost function FirstUnused(table: seq<Task>, state: map<Task, State>, k: nat): (r: nat)
    requires k <= |table|
    ensures k <= r <= |table|
    ensures r < |table| ==> table[r] in state && state[table[r]] == Unused
    ensures forall j :: k <= j < r ==> !(table[j] in state && state[table[j]] == Unused)
    decreases |table| - k
  {
    if k == |table| || (table[k] in state && state[table[k]] == Unused) then k else FirstUnused(table, state, k + 1)
  }

  class Scheduler {
    const main: Task
    const idle: Task
    const table: seq<Task>
    var current: Task
    var taskList: Task
    var nextTaskId: nat
    var ready: bool
    var activeSpace: nat
    ghost var ring: seq<Task>
    /** Every task there is. */
    ghost const all: set<Task>

    ghost function States(): map<Task, State>
      reads all`state
    {
      map x | x in all :: x.state
    }

    ghost function AsView(): View
      reads this, all
    {
      View(ring, States(), current)
    }

    /** The ring starts at main and holds each of its tasks once. */
    ghost predicate Linkage()
      reads this`ring, this`taskList, this`ready, all`next, ring`next
    {
      && Distinct() && ready && taskList == main && |ring| > 0 && ring[0] == main && NoDup(ring)
      && (forall x :: x in ring ==> x in all)
      && Linked(ring)
    }

    /** The tasks in the ring are those in use. */
    ghost predicate Members()
      reads this`ring, all`state
    {
      forall x :: x in all ==> (x in ring <==> x.state != Unused)
    }

    ghost predicate Ringed()
      reads this, all, ring`next
    {
      Linkage() && Members() && current in ring
    }

    /** Nobody but the current task runs. */
    ghost predicate OthersWait()
      reads this`current, all`state
    {
      forall x :: x in all && x != current ==> x.state != Running
    }

    ghost predicate Valid()
      reads this, all, ring`next
    {
      Ringed() && OthersWait() && current.state == Running
    }

    ghost predicate IdleAlive()
      reads idle
    {
      idle.state == Ready || idle.state == Running
    }

    ghost predicate Distinct() {
      && main != idle && main !in table && idle !in table && |table| == MAX_TASKS
      && main in all && idle in all && forall x :: x in table ==> x in all
    }

    /** The zeroed static storage before scheduler_init. */
    ghost predicate Zeroed()
      reads all`state
    {
      Distinct() && forall x :: x in all ==> x.state == Unused
    }

    constructor (main: Task, idle: Task, table: seq<Task>)
      requires main != idle && main !in table && idle !in table && |table| == MAX_TASKS
      requires main.state == idle.state == Unused && forall x :: x in table ==> x.state == Unused
      ensures Zeroed() && this.main == main && this.idle == idle && this.table == table && |table| == 16
    {
      this.main, this.idle, this.table, all := main, idle, table, {main, idle} + set x | x in table;
      current, taskList, nextTaskId, ready, activeSpace, ring := main, main, 0, false, KERNEL_SPACE, [];
    }

    /** The first part of scheduler_init: the boot thread alone. */
    method InitMain()
      modifies this, main
      ensures main.state == Running && main.next == main && current == taskList == main && ring == [main]
    {
      main.id := nextTaskId;
      nextTaskId := (nextTaskId + 1) % 0x1_0000_0000;
      main.state, main.esp, main.next := Running, 0, main;
      main.userProcess, main.addressSpace := 0, KERNEL_SPACE;
      current, taskList := main, main;
      ring := [main];
    }

    /** Two tasks in the ring, the first of them running. */
    lemma TwoTasks()
      requires Distinct() && ready && taskList == current == main && ring == [main, idle] && main.state == Running && idle.state == Ready
      requires main.next == idle && idle.next == main && forall x :: x in all && x != main && x != idle ==> x.state == Unused
      ensures Valid() && IdleAlive()
    {
    }

    /** scheduler_init: the boot thread runs, idle waits. */
    method Init(idleStack: nat)
      requires Zeroed()
      modifies this, main, idle
      ensures Valid() && IdleAlive() && ring == [main, idle] && current == main
    {
      InitMain();
      CreateTask(idle, idleStack);
      AddTask(idle);
      ready := true;
      assert ring[0].next == Succ(ring, 0) && ring[1].next == Succ(ring, 1);
      TwoTasks();
    }

    /** create_task, for a stack whose top is known. */
    method CreateTask(t: Task, stack: nat)
      modifies this`nextTaskId, t
      ensures nextTaskId == (old(nextTaskId) + 1) % 0x1_0000_0000 && t.id == old(nextTaskId) && t.esp == stack
      ensures t.state == Ready && t.next == null && t.userProcess == 0 && t.addressSpace == KERNEL_SPACE
    {
      t.esp := stack;
      t.id := nextTaskId;
      nextTaskId := (nextTaskId + 1) % 0x1_0000_0000;
      t.userProcess := 0;
      t.addressSpace := KERNEL_SPACE;
      t.state := Ready;
      t.next := null;
    }

    /** add_task: the new task goes in at the end, just before the head. */
    method AddTask(t: Task)
      requires |ring| > 0 && ring[0] == taskList && NoDup(ring) && Linked(ring) && t !in ring
      modifies this`ring, t`next, ring`next
      ensures ring == old(ring) + [t] && NoDup(ring) && Linked(ring)
    {
      var last := taskList;
      ghost var i := 0;
      while last.next != taskList
        invariant 0 <= i < |ring| && last == ring[i]
        decreases |ring| - i
      {
        assert last.next == Succ(ring, i);
        last, i := last.next, i + 1;
      }
      assert last.next == Succ(ring, i);
      t.next := taskList;
      last.next := t;
      ring := ring + [t];
    }

    /** The search of schedule: round the ring to the first ready task, or back to the current one. */
    method Search() returns (next: Task)
      requires Ringed()
      ensures
        var rot := From(ring, current);
        var k := NextReady(rot, States(), 1);
        && next in all && (k == |rot| ==> next == current) && (k < |rot| ==> next == rot[k] != current)
    {
      ghost var rot, state := From(ring, current), States();
      LinkedFrom(ring, current);
      FromNoDup(ring, current);
      next := current.next;
      ghost var k := 1;
      assert current.next == Succ(rot, 0);
      while next != current && next.state != Ready
        invariant 1 <= k <= |rot| && next == Succ(rot, k - 1)
        invariant NextReady(rot, state, 1) == NextReady(rot, state, k)
        decreases |rot| - k
      {
        assert next.next == Succ(rot, k);
        next := next.next;
        k := k + 1;
      }
      assert k < |rot| <==> next != current;
    }

    method NextTask(ghost v: View) returns (next: Task)
      requires Ringed() && OthersWait() && current.state != Ready && v == AsView()
      ensures Ringed() && OthersWait() && v == AsView()
      ensures next in all && if next.state == Ready then Chosen(v, next) else Turn(v, v)
    {
      next := Search();
      ChosenOrNot(v, next);
    }

    /** The current task gives up the processor; if it has exited it stays so. */
    method StopCurrent()
      requires Ringed() && OthersWait() && (current.state == Running || current.state == Exited)
      modifies current`state
      ensures Ringed() && OthersWait() && current.state == if old(current.state) == Running then Ready else Exited
    {
      if current.state == Running {
        current.state := Ready;
      }
    }

    /** A waiting task gets the processor while nobody runs. */
    method Resume(next: Task)
      requires Ringed() && OthersWait() && current.state != Running && next in ring && next.state == Ready
      modifies this`current, this`activeSpace, next`state
      ensures Ringed() && OthersWait() && current == next && current.state == Running
      ensures activeSpace == if next.addressSpace != NO_SPACE then next.addressSpace else KERNEL_SPACE
    {
      next.state := Running;
      current := next;
      activeSpace := if next.addressSpace != NO_SPACE then next.addressSpace else KERNEL_SPACE;
    }

    /** The switch at the end of schedule. */
    method SwitchTo(next: Task)
      requires Ringed() && OthersWait() && next in ring && next != current && next.state == Ready
      requires current.state == Running || current.state == Exited
      modifies this`current, this`activeSpace, current`state, next`state
      ensures Ringed() && OthersWait() && current == next && current.state == Running
      ensures activeSpace == if next.addressSpace != NO_SPACE then next.addressSpace else KERNEL_SPACE
      ensures old(current).state == if old(current.state) == Running then Ready else Exited
    {
      StopCurrent();
      Resume(next);
    }

    method TakeTurn(next: Task, ghost v: View)
      requires Ringed() && OthersWait() && v == AsView() && Chosen(v, next)
      requires current.state == Running || current.state == Exited
      modifies this`current, this`activeSpace, all`state
      ensures Ringed() && OthersWait() && Turn(v, AsView()) && current == next && current.state == Running
      ensures activeSpace == if next.addressSpace != NO_SPACE then next.addressSpace else KERNEL_SPACE
    {
      FromNoDup(ring, current);
      SwitchTo(next);
      Switched(v, AsView());
    }

    /** schedule. */
    method Schedule()
      requires Ringed() && OthersWait() && (current.state == Running || current.state == Exited)
      modifies this`current, this`activeSpace, all`state
      ensures Ringed() && OthersWait() && Turn(old(AsView()), AsView())
      ensures current != old(current) ==>
        && current.state == Running
        && activeSpace == if current.addressSpace != NO_SPACE then current.addressSpace else KERNEL_SPACE
      ensures current == old(current) ==> current.state == old(current.state)
    {
      if !ready {
        return;
      }
      ghost var v := AsView();
      var next := NextTask(v);
      if next.state == Ready {
        TakeTurn(next, v);
      }
    }

    /** task_exit up to its switch: the task is done and another one runs, if one waits. */
    method Exit()
      requires Valid()
      modifies this`current, this`activeSpace, all`state
      ensures Ringed() && OthersWait() && old(current).state == Exited
      ensures Turn(old(AsView()).(state := old(States())[old(current) := Exited]), AsView())
      ensures if Waits(old(AsView())) then Valid() && current != old(current) else current == old(current)
    {
      ghost var v := AsView();
      current.state := Exited;
      assert AsView() == v.(state := v.state[v.current := Exited]);
      ExitTurn(v);
      Schedule();
      ExitEnds(v, AsView());
    }

    /** task_kill. */
    method Kill(t: Task?) returns (r: int)
      requires Valid() && (t != null ==> t in all)
      modifies (if t == null then {} else {t})`state
      ensures Valid()
      ensures r == if t != null && t != current && old(t.state) != Exited && old(t.state) != Unused then 1 else 0
      ensures r == 1 ==> t.state == Exited
      ensures r == 0 ==> t != null ==> t.state == old(t.state)
      ensures IdleAlive() <==> old(IdleAlive()) && !(r == 1 && t == idle)
    {
      if t == null || t == current || t.state == Exited || t.state == Unused {
        return 0;
      }
      t.state := Exited;
      return 1;
    }

    /** The slot task_alloc finds. */
    ghost function Slot(): Task?
      reads all`state
    {
      var k := FirstUnused(table, States(), 0);
      if k < |table| then table[k] else null
    }

    /** task_alloc: the first unused slot of the table is reserved. */
    method Alloc() returns (t: Task?)
      requires Distinct()
      modifies (set x | x in table)`state, (set x | x in table)`next
      ensures t == old(Slot()) && (t != null ==> t in table && old(t.state) == Unused && t.state == Blocked && t.next == null)
      ensures forall x :: x in table && x != t ==> x.state == old(x.state) && x.next == old(x.next)
    {
      for i := 0 to |table|
        invariant FirstUnused(table, old(States()), 0) == FirstUnused(table, old(States()), i)
        invariant forall x :: x in table ==> x.state == old(x.state) && x.next == old(x.next)
      {
        if table[i].state == Unused {
          table[i].state := Blocked;
          table[i].next := null;
          return table[i];
        }
      }
      return null;
    }

    /** Task t is out of the ring while its slot is taken; otherwise all is well. */
    ghost predicate Unlinked(t: Task)
      reads this, all, ring`next
    {
      && Linkage() && OthersWait() && current in ring && current.state == Running && t !in ring
      && forall x :: x in all && x != t ==> (x in ring <==> x.state != Unused)
    }

    /** task_alloc between two operations. */
    method Reserve() returns (t: Task?)
      requires Valid()
      modifies (set x | x in table)`state, (set x | x in table)`next
      ensures t == old(Slot()) && forall x :: x in all && x != t ==> x.state == old(x.state)
      ensures if t == null then Valid() else t in table && old(t.state) == Unused && Unlinked(t)
    {
      t := Alloc();
    }

    /** add_task between two operations. */
    method Link(t: Task)
      requires Linkage() && t in all && t !in ring
      modifies this`ring, t`next, ring`next
      ensures Linkage() && ring == old(ring) + [t]
    {
      AddTask(t);
    }

    /** A reserved task is set up and joins the ring. */
    method Enter(t: Task, stack: nat)
      requires Unlinked(t) && t in table
      modifies this`ring, this`nextTaskId, t, ring`next
      ensures Valid() && ring == old(ring) + [t] && t.state == Ready
    {
      CreateTask(t, stack);
      Link(t);
    }

    /** spawn_task. */
    method Spawn(stack: nat) returns (t: Task?)
      requires Valid()
      modifies this`ring, this`nextTaskId, all
      ensures Valid() && current == old(current) && (old(IdleAlive()) ==> IdleAlive())
      ensures t == old(Slot()) && (t == null ==> ring == old(ring))
      ensures t != null ==> t in table && old(t.state) == Unused && t.state == Ready && ring == old(ring) + [t]
      ensures forall x :: x in all && x != t ==> x.state == old(x.state)
    {
      t := Reserve();
      if t != null {
        Enter(t, stack);
      }
    }

    /** Takes the task at position i out of the ring. */
    method Unlink(prev: Task, t: Task, ghost i: nat)
      requires 0 < i < |ring| && NoDup(ring) && Linked(ring) && prev == ring[i - 1] && t == ring[i]
      modifies this`ring, prev`next, t`next
      ensures ring == old(ring)[..i] + old(ring)[i + 1..] && NoDup(ring) && Linked(ring) && t !in ring
      ensures prev.next == Succ(old(ring), i) && forall x :: x in ring <==> x in old(ring) && x != t
    {
      ghost var was := ring;
      assert t.next == Succ(was, i);
      prev.next := t.next;
      t.next := null;
      ring := was[..i] + was[i + 1..];
      CutNoDup(was, i);
      CutMembers(was, i);
      forall k | 0 <= k < |ring| ensures ring[k].next == Succ(ring, k) {
        CutSucc(was, i, k);
      }
    }

    /** The fields of a slot that is free again. */
    method Clear(t: Task)
      requires Unlinked(t)
      modifies t`state, t`userProcess, t`addressSpace, t`esp
      ensures Valid() && t.state == Unused && t.userProcess == 0 && t.addressSpace == NO_SPACE && t.esp == 0
    {
      t.state, t.userProcess, t.addressSpace, t.esp := Unused, 0, NO_SPACE, 0;
    }

    /** Unlink within the ring of tasks. */
    method UnlinkLinked(prev: Task, t: Task, ghost i: nat)
      requires Linkage() && 0 < i < |ring| && prev == ring[i - 1] && t == ring[i]
      modifies this`ring, prev`next, t`next
      ensures Linkage() && ring == old(ring)[..i] + old(ring)[i + 1..] && prev.next == Succ(old(ring), i)
      ensures forall x :: x in ring <==> x in old(ring) && x != t
    {
      Unlink(prev, t, i);
    }

    /** It leaves everything but the membership of that one task as it was. */
    method UnlinkTask(prev: Task, t: Task, ghost i: nat)
      requires Valid() && 0 < i < |ring| && prev == ring[i - 1] && t == ring[i] && t != current
      modifies this`ring, prev`next, t`next
      ensures Unlinked(t) && ring == old(ring)[..i] + old(ring)[i + 1..] && prev.next == Succ(old(ring), i)
      ensures forall x :: x in ring ==> x in old(ring) && x != t
    {
      UnlinkLinked(prev, t, i);
    }

    /** Unlinks the task at position i and frees its slot. */
    method Retire(prev: Task, t: Task, ghost i: nat)
      requires Valid() && 0 < i < |ring| && prev == ring[i - 1] && t == ring[i] && t != current
      modifies this`ring, prev`next, t
      ensures Valid() && ring == old(ring)[..i] + old(ring)[i + 1..]
      ensures t.state == Unused && prev.state == old(prev.state) && prev.next == Succ(old(ring), i)
      ensures forall x :: x in ring ==> x in old(ring) && x.state == old(x.state)
    {
      UnlinkTask(prev, t, i);
      Clear(t);
    }

    method RetireOne(prev: Task, t: Task, ghost i: nat)
      requires Valid() && 0 < i < |ring| && prev == ring[i - 1] && t == ring[i] && t != current
      modifies this`ring, prev`next, t
      ensures Valid() && ring == Without<Task>(old(ring), {t}) && t.state == Unused && prev.state == old(prev.state)
    {
      WithoutOne<Task>(ring, i);
      Retire(prev, t, i);
    }

    /** The search of task_remove: the predecessor of target, when target is in the ring but not at its head. */
    method Before(target: Task) returns (prev: Task, found: bool, ghost i: nat)
      requires Valid() && target != main
      ensures found <==> target in ring
      ensures found ==> 0 < i < |ring| && ring[i] == target && prev == ring[i - 1]
    {
      prev, found, i := taskList, false, 1;
      var t := taskList.next;
      assert ring[0].next == Succ(ring, 0);
      while t != taskList
        invariant 1 <= i <= |ring| && prev == ring[i - 1] && t == Succ(ring, i - 1) && target !in ring[..i]
        decreases |ring| - i
      {
        if t == target {
          found := true;
          return;
        }
        assert t.next == Succ(ring, i);
        prev, t, i := t, t.next, i + 1;
      }
      assert ring[..i] == ring;
    }

    ghost predicate Removable(target: Task?)
      reads this
    {
      target != null && target != main && target != current && target in ring
    }

    /** task_remove: the head and the running task stay; a task that is not in the ring is not touched. */
    method Remove(target: Task?)
      requires Valid() && (target != null ==> target in all)
      modifies this`ring, all
      ensures Valid() && current == old(current)
      ensures old(Removable(target)) ==> ring == Without<Task>(old(ring), {target}) && target.state == Unused
      ensures !old(Removable(target)) ==> ring == old(ring) && (target != null ==> target.state == old(target.state))
      ensures forall x :: x in all && x != target ==> x.state == old(x.state)
    {
      if target != null && target != taskList && target != current {
        var prev, found, i := Before(target);
        if found {
          RetireOne(prev, target, i);
        }
      }
    }

    /** The exited tasks task_reap_exited may take out: neither the head, nor idle, nor the running one. */
    ghost function Dead(): set<Task>
      reads this, all
    {
      set x | x in all && x != main && x != idle && x != current && x.state == Exited
    }

    /** All is well, and the tasks still in the ring are as they were. */
    ghost predicate Kept(before: map<Task, State>)
      reads this, all, ring`next, ring`state
    {
      Valid() && forall x :: x in ring ==> x in before && x.state == before[x]
    }

    ghost predicate FoldedKept(before: map<Task, State>)
      reads this, all, ring`next, ring`state
    {
      forall k :: Asked(k) ==> Kept(before)
    }

    lemma UnfoldKept(before: map<Task, State>)
      requires FoldedKept(before)
      ensures Kept(before)
    {
      assert Asked(0);
    }

    lemma KeptAt(i: nat, before: map<Task, State>)
      requires FoldedKept(before) && i < |ring|
      ensures ring[i].next == Succ(ring, i) && ring[i] in before && ring[i].state == before[ring[i]]
    {
      UnfoldKept(before);
    }

    method RetireKept(prev: Task, t: Task, ghost i: nat, ghost before: map<Task, State>)
      requires FoldedKept(before) && 0 < i < |ring| && prev == ring[i - 1] && t == ring[i] && t != current
      modifies this`ring, prev`next, t
      ensures FoldedKept(before) && ring == old(ring)[..i] + old(ring)[i + 1..] && prev.next == Succ(old(ring), i)
    {
      UnfoldKept(before);
      Retire(prev, t, i);
    }

    /** One round of the loop of task_reap_exited: of the ring `was` it started with, the part before m is down to `kept`. */
    method ReapStep(prev: Task, t: Task, ghost was: seq<Task>, ghost m: nat, ghost kept: seq<Task>, ghost before: map<Task, State>)
      returns (prev': Task, t': Task, ghost kept': seq<Task>)
      requires FoldedKept(before) && 0 < m < |was| && t == was[m] && kept != [] && kept[0] == was[0]
      requires ring == kept + was[m..] && prev == kept[|kept| - 1]
      modifies this`ring, prev`next, t
      ensures FoldedKept(before) && ring == kept' + was[m + 1..] && kept' != [] && prev' == kept'[|kept'| - 1]
      ensures kept' == kept + if t != idle && t != current && old(t.state) == Exited then [] else [t]
      ensures t' == Succ(was, m)
    {
      ThinnedAt(was, m, kept);
      KeptAt(|kept|, before);
      if t != idle && t != current && t.state == Exited {
        RetireKept(prev, t, |kept|, before);
        prev', t', kept' := prev, prev.next, kept;
      } else {
        prev', t', kept' := t, t.next, kept + [t];
      }
    }

    /** The loop of task_reap_exited has looked at the first m tasks of the ring it started with. */
    ghost predicate Reaping(was: seq<Task>, dead: set<Task>, m: nat, kept: seq<Task>, prev: Task, t: Task)
      reads this`ring
    {
      && 1 <= m <= |was| && kept != [] && kept[0] == was[0] && prev == kept[|kept| - 1] && t == Succ(was, m - 1)
      && kept == Without(was[..m], dead) && ring == kept + was[m..]
    }

    /** The tasks the loop is to take out, by the states it started with. */
    ghost predicate ToReap(was: seq<Task>, dead: set<Task>, before: map<Task, State>)
      reads this`current
    {
      forall x :: x in was && x != main ==>
        (x in dead <==> x != idle && x != current && x in before && before[x] == Exited)
    }

    method ReapNext(prev: Task, t: Task, ghost was: seq<Task>, ghost dead: set<Task>, ghost m: nat, ghost kept: seq<Task>,
                    ghost before: map<Task, State>)
      returns (prev': Task, t': Task, ghost kept': seq<Task>)
      requires FoldedKept(before) && Reaping(was, dead, m, kept, prev, t) && ToReap(was, dead, before)
      requires NoDup(was) && was[0] == main != t
      modifies this`ring, prev`next, t
      ensures FoldedKept(before) && m < |was| && Reaping(was, dead, m + 1, kept', prev', t')
    {
      WithoutSnoc(was, m, dead);
      ThinnedAt(was, m, kept);
      KeptAt(|kept|, before);
      prev', t', kept' := ReapStep(prev, t, was, m, kept, before);
    }

    lemma ReapMembers(was: seq<Task>, dead: set<Task>, before: map<Task, State>, m: nat, kept: seq<Task>, prev: Task, t: Task)
      requires FoldedKept(before) && Reaping(was, dead, m, kept, prev, t)
      ensures prev in all && t in all
    {
      UnfoldKept(before);
      assert prev == ring[|kept| - 1] && t == if m < |was| then ring[|kept|] else ring[0];
    }

    /** The loop starts at the task after the head. */
    lemma ReapStart()
      requires Valid()
      ensures taskList == main && FoldedKept(States()) && ToReap(ring, Dead(), States()) && NoDup(ring) && ring != [] && ring[0] == main
      ensures taskList.next != null && Reaping(ring, Dead(), 1, [main], main, taskList.next)
    {
      assert ring[0].next == Succ(ring, 0);
      assert ring[..1] == [main];
    }

    /** The loop of task_reap_exited. */
    method ReapFrom(first: Task, ghost was: seq<Task>, ghost dead: set<Task>, ghost before: map<Task, State>)
      requires FoldedKept(before) && ToReap(was, dead, before) && NoDup(was) && taskList == main
      requires Reaping(was, dead, 1, [main], main, first)
      modifies this`ring, all
      ensures FoldedKept(before) && ring == Without(was, dead)
    {
      var prev: Task, t: Task := taskList, first;
      ghost var m: nat, kept := 1, [main];
      while t != taskList
        invariant FoldedKept(before) && Reaping(was, dead, m, kept, prev, t)
        decreases |was| - m
      {
        ReapMembers(was, dead, before, m, kept, prev, t);
        prev, t, kept := ReapNext(prev, t, was, dead, m, kept, before);
        m := m + 1;
      }
      ReapEnd(was, dead, m, kept, prev);
    }

    /** Back at the head, every task has been looked at. */
    lemma ReapEnd(was: seq<Task>, dead: set<Task>, m: nat, kept: seq<Task>, prev: Task)
      requires Reaping(was, dead, m, kept, prev, main) && NoDup(was) && was[0] == main
      ensures ring == Without(was, dead)
    {
      assert m == |was|;
      assert was[..m] == was;
    }

    /** It goes from the task after the head back to the head. */
    method ReapRing(ghost was: seq<Task>, ghost dead: set<Task>, ghost before: map<Task, State>)
      requires Valid() && was == ring && dead == Dead() && before == States()
      modifies this`ring, all
      ensures FoldedKept(before) && ring == Without(was, dead)
    {
      ReapStart();
      ReapFrom(taskList.next, was, dead, before);
    }

    /** task_reap_exited: exactly the dead tasks leave the ring, the others keep their order. */
    method Reap()
      requires Valid()
      modifies this`ring, all
      ensures Valid() && current == old(current) && ring == Without(old(ring), old(Dead()))
      ensures forall x :: x in all ==> x.state == if x in old(Dead()) then Unused else old(x.state)
    {
      ghost var before := States();
      ReapRing(ring, Dead(), before);
      UnfoldKept(before);
    }
  }
}
