/** Runs of the scheduler: what every sequence of its operations keeps, and that every waiting task gets its turn. */
module SchedulerRuns {
  import opened Sequences
  import opened Folding
  import opened Ring
  import opened Scheduler

  /** What holds between two operations: the ring holds each task in use once, exactly one runs, and it is current. */
  ghost predicate Sound(v: View) {
    && NoDup(v.ring) && v.current in v.ring && (forall x :: x in v.ring ==> x in v.state)
    && (forall x :: x in v.state ==> (x in v.ring <==> v.state[x] != Unused))
    && (forall x :: x in v.state ==> (v.state[x] == Running <==> x == v.current))
  }

  /** A turn, taken by a task that goes on or by one that exits. */
  ghost predicate TurnStep(v: View, v': View)
    requires Sound(v)
  {
    Turn(v, v') || Turn(v.(state := v.state[v.current := Exited]), v')
  }

  /** The tasks that left the ring. */
  ghost function Gone(v: View, v': View): set<Task> {
    set x | x in v.ring && x !in v'.ring
  }

  /** What killing and removing may do to a task. */
  ghost predicate Ends(was: State, now: State) {
    now == was || now == Unused || (now == Exited && was != Unused)
  }

  /** Tasks are killed or leave the ring, the others keep their order; the running one stays. */
  ghost predicate Thinned(v: View, v': View)
    requires Sound(v)
  {
    && v'.current == v.current && v'.current in v'.ring
    && v'.ring == Without(v.ring, Gone(v, v')) && v'.state.Keys == v.state.Keys
    && (forall x :: x in v.state ==> Ends(v.state[x], v'.state[x]))
  }

  /** A task enters at the end of the ring, in a slot that was unused. */
  ghost predicate Entered(v: View, v': View, t: Task)
    requires Sound(v)
  {
    t in v.state && v.state[t] == Unused && v' == View(v.ring + [t], v.state[t := Ready], v.current)
  }

  datatype Kind = TurnTaken | Thinning | Entry

  ghost predicate Step(kind: Kind, v: View, v': View)
    requires Sound(v)
  {
    match kind
    case TurnTaken => TurnStep(v, v')
    case Thinning => Thinned(v, v')
    case Entry => v' == v || exists t :: t in v.state && Entered(v, v', t)
  }

  // ---- fairness ----

  /** How many tasks come up before t. */
  ghost function Distance(v: View, t: Task): (d: nat)
    requires Sound(v) && t in v.ring
    ensures d < |v.ring| && (d == 0 <==> t == v.current)
  {
    FromNoDup(v.ring, v.current);
    var d := IndexOf(From(v.ring, v.current), t);
    d
  }

  /** A turn brings a ready task closer. */
  lemma TurnCloser(v: View, v': View, t: Task)
    requires Sound(v) && Sound(v') && Turn(v, v') && t in v.ring && v.state[t] == Ready
    ensures v'.ring == v.ring && Distance(v', t) < Distance(v, t)
  {
    var rot, d := From(v.ring, v.current), Distance(v, t);
    var k := NextReady(rot, v.state, 1);
    assert rot[d] == t;
    TurnedIndex(v.ring, v.current, k, d);
  }

  /** So does a turn taken by an exiting task. */
  lemma TurnStepCloser(v: View, v': View, t: Task)
    requires Sound(v) && Sound(v') && TurnStep(v, v') && t in v.ring && v.state[t] == Ready
    ensures v'.ring == v.ring && Distance(v', t) < Distance(v, t)
  {
    if Turn(v, v') {
      TurnCloser(v, v', t);
    } else {
      var rot, d := From(v.ring, v.current), Distance(v, t);
      var k := NextReady(rot, v.state[v.current := Exited], 1);
      assert rot[d] == t;
      TurnedIndex(v.ring, v.current, k, d);
    }
  }

  /** Kills and removals of other tasks take a task no further away. */
  lemma ThinnedNotFurther(v: View, v': View, t: Task)
    requires Sound(v) && Sound(v') && Thinned(v, v') && t in v.ring && t in v'.ring
    ensures Distance(v', t) <= Distance(v, t)
  {
    FromNoDup(v.ring, v.current);
    FromWithout(v.ring, v.current, Gone(v, v'));
    IndexWithout(From(v.ring, v.current), t, Gone(v, v'));
  }

  /** How many of the steps from position i on are turns. */
  ghost function Turns(kinds: seq<Kind>, i: nat): nat
    requires i <= |kinds|
    decreases |kinds| - i
  {
    if i == |kinds| then 0 else (if kinds[i] == TurnTaken then 1 else 0) + Turns(kinds, i + 1)
  }

  /** A run: each step leads from one view to the next. */
  ghost predicate Run(views: seq<View>, kinds: seq<Kind>) {
    && |views| == |kinds| + 1 && (forall i :: 0 <= i < |views| ==> Sound(views[i]))
    && forall i :: 0 <= i < |kinds| ==> Step(kinds[i], views[i], views[i + 1])
  }

  /** How many of the steps from position i on let a task in. */
  ghost function Entries(kinds: seq<Kind>, i: nat): nat
    requires i <= |kinds|
    decreases |kinds| - i
  {
    if i == |kinds| then 0 else (if kinds[i] == Entry then 1 else 0) + Entries(kinds, i + 1)
  }

  /** A task that enters takes the others at most one place further away. */
  lemma EnteredFurther(v: View, v': View, t: Task)
    requires Sound(v) && Sound(v') && Step(Entry, v, v') && t in v.ring
    ensures t in v'.ring && Distance(v', t) <= Distance(v, t) + 1
  {
    if v' != v {
      var x :| x in v.state && Entered(v, v', x);
      IndexEntered(v.ring, v.current, t, x);
    }
  }

  /** One step: a turn brings a ready task closer, an entry takes it one place further away, nothing else does. */
  lemma StepCloser(kind: Kind, v: View, v': View, t: Task)
    requires Sound(v) && Sound(v') && Step(kind, v, v') && t in v.ring && t in v'.ring && v.state[t] == Ready
    ensures Distance(v', t) + (if kind == TurnTaken then 1 else 0) <= Distance(v, t) + if kind == Entry then 1 else 0
  {
    match kind
    case TurnTaken => TurnStepCloser(v, v', t);
    case Thinning => ThinnedNotFurther(v, v', t);
    case Entry => EnteredFurther(v, v', t);
  }

  /** Round-robin fairness: a task that is ready whenever it is not running becomes current within as many turns as there are
      tasks before it and tasks that enter, whatever is killed or removed in between. */
  lemma {:induction false} Fair(views: seq<View>, kinds: seq<Kind>, t: Task, i: nat) returns (j: nat)
    requires Run(views, kinds) && i <= |kinds|
    requires forall k :: i <= k < |views| ==> t in views[k].ring && (t == views[k].current || views[k].state[t] == Ready)
    requires Turns(kinds, i) >= Distance(views[i], t) + Entries(kinds, i)
    ensures i <= j < |views| && views[j].current == t
    decreases |kinds| - i
  {
    if views[i].current == t {
      return i;
    }
    assert i < |kinds| && Step(kinds[i], views[i], views[i + 1]);
    StepCloser(kinds[i], views[i], views[i + 1], t);
    j := Fair(views, kinds, t, i + 1);
  }

  /** In particular within n - 1 turns in a ring of n tasks, and one more for each that enters. */
  lemma FairInRing(views: seq<View>, kinds: seq<Kind>, t: Task) returns (j: nat)
    requires Run(views, kinds)
    requires forall k :: 0 <= k < |views| ==> t in views[k].ring && (t == views[k].current || views[k].state[t] == Ready)
    requires Turns(kinds, 0) >= |views[0].ring| - 1 + Entries(kinds, 0)
    ensures j < |views| && views[j].current == t
  {
    j := Fair(views, kinds, t, 0);
  }

  // ---- exited tasks ----

  lemma ExitedStep(kind: Kind, v: View, v': View, x: Task)
    requires Sound(v) && Sound(v') && Step(kind, v, v') && x in v.state && v.state[x] == Exited
    ensures x in v'.state && v'.state[x] in {Exited, Unused} && v'.current != x
  {
  }

  ghost predicate IsExited(v: View, x: Task) {
    x in v.state && v.state[x] == Exited && v.current != x
  }

  ghost predicate FoldedRun(views: seq<View>, kinds: seq<Kind>) {
    |views| == |kinds| + 1 && forall k :: Asked(k) ==> Run(views, kinds)
  }

  lemma ExitedHere(views: seq<View>, kinds: seq<Kind>, x: Task, i: nat)
    requires FoldedRun(views, kinds) && i < |views| && x in views[i].state && views[i].state[x] == Exited
    ensures IsExited(views[i], x)
  {
    assert Asked(0);
    assert Sound(views[i]);
  }

  lemma ExitedNext(views: seq<View>, kinds: seq<Kind>, x: Task, j: nat)
    requires FoldedRun(views, kinds) && j < |kinds| && IsExited(views[j], x)
    requires x in views[j + 1].state ==> views[j + 1].state[x] != Unused
    ensures IsExited(views[j + 1], x)
  {
    assert Asked(0);
    ExitedStep(kinds[j], views[j], views[j + 1], x);
  }

  lemma {:induction false} StaysOut(views: seq<View>, kinds: seq<Kind>, x: Task, i: nat, j: nat)
    requires FoldedRun(views, kinds) && i <= j < |views| && IsExited(views[i], x)
    requires forall k :: i <= k <= j && x in views[k].state ==> views[k].state[x] != Unused
    ensures IsExited(views[j], x)
  {
    if i < j {
      StaysOut(views, kinds, x, i, j - 1);
      ExitedNext(views, kinds, x, j - 1);
    }
  }

  /** A task that has exited does not run again before its slot has been freed. */
  lemma ExitedStaysOut(views: seq<View>, kinds: seq<Kind>, x: Task, i: nat, j: nat)
    requires Run(views, kinds) && i <= j < |views| && x in views[i].state && views[i].state[x] == Exited
    requires forall k :: i <= k <= j && x in views[k].state ==> views[k].state[x] != Unused
    ensures IsExited(views[j], x)
  {
    ExitedHere(views, kinds, x, i);
    StaysOut(views, kinds, x, i, j);
  }

  // ---- the operations ----

  lemma ValidIsSound(s: Scheduler)
    requires s.Valid()
    ensures Sound(s.AsView())
  {
  }

  datatype Op =
    | Yield
    | Exit
    | Spawn(stack: nat)
    | Kill(t: Task?)
    | Remove(t: Task?)
    | Reap

  /** Pointers to tasks point to tasks of this scheduler. */
  predicate Known(s: Scheduler, op: Op) {
    match op
    case Kill(t) => t == null || t == s.main || t == s.idle || t in s.table
    case Remove(t) => t == null || t == s.main || t == s.idle || t in s.table
    case _ => true
  }

  ghost predicate Killable(v: View, t: Task?) {
    t != null && t != v.current && t in v.state && v.state[t] != Exited && v.state[t] != Unused
  }

  ghost predicate Removable(s: Scheduler, v: View, t: Task?) {
    t != null && t != s.main && t != v.current && t in v.ring
  }

  ghost function DeadIn(s: Scheduler, v: View): set<Task> {
    set x | x in v.state.Keys && x != s.main && x != s.idle && x != v.current && v.state[x] == Exited
  }

  /** What each operation does. */
  ghost predicate Does(s: Scheduler, op: Op, v: View, v': View)
    requires Sound(v)
  {
    match op
    case Yield => Turn(v, v')
    case Exit => Turn(v.(state := v.state[v.current := Exited]), v')
    case Spawn(_) =>
      var k := FirstUnused(s.table, v.state, 0);
      if k < |s.table| then Entered(v, v', s.table[k]) else v' == v
    case Kill(t) => v' == if Killable(v, t) then v.(state := v.state[t := Exited]) else v
    case Remove(t) => v' == if Removable(s, v, t) then View(Without<Task>(v.ring, {t}), v.state[t := Unused], v.current) else v
    case Reap =>
      && v'.ring == Without(v.ring, DeadIn(s, v)) && v'.current == v.current && v'.state.Keys == v.state.Keys
      && forall x :: x in v.state ==> v'.state[x] == if x in DeadIn(s, v) then Unused else v.state[x]
  }

  lemma {:induction false} WithoutSame(ring: seq<Task>, dead: set<Task>, gone: set<Task>)
    requires forall x :: x in ring ==> (x in dead <==> x in gone)
    ensures Without(ring, dead) == Without(ring, gone)
    decreases |ring|
  {
    if ring != [] {
      WithoutSame(ring[1..], dead, gone);
    }
  }

  lemma SameRing(v: View, v': View)
    requires Sound(v) && v'.ring == v.ring && v'.current == v.current && v'.state.Keys == v.state.Keys
    requires forall x :: x in v.state ==> Ends(v.state[x], v'.state[x])
    ensures Thinned(v, v')
  {
    WithoutNone(v.ring, Gone(v, v'));
  }

  lemma SomeGone(v: View, v': View, dead: set<Task>)
    requires Sound(v) && v.current !in dead && v'.ring == Without<Task>(v.ring, dead) && v'.current == v.current
    requires v'.state.Keys == v.state.Keys && forall x :: x in v.state ==> v'.state[x] == if x in dead then Unused else v.state[x]
    ensures Thinned(v, v')
  {
    WithoutSame(v.ring, dead, Gone(v, v'));
  }

  ghost function KindOf(op: Op): Kind {
    match op
    case Yield => TurnTaken
    case Exit => TurnTaken
    case Spawn(_) => Entry
    case _ => Thinning
  }

  /** Every operation is a step of the kind it should be. */
  lemma DoesStep(s: Scheduler, op: Op, v: View, v': View)
    requires Sound(v) && Does(s, op, v, v')
    ensures Step(KindOf(op), v, v')
  {
    match op
    case Kill(t) => SameRing(v, v');
    case Remove(t) =>
      if Removable(s, v, t) {
        SomeGone(v, v', {t});
      } else {
        SameRing(v, v');
      }
    case Reap => SomeGone(v, v', DeadIn(s, v));
    case _ =>
  }

  method DoYield(s: Scheduler)
    requires s.Valid()
    modifies s, s.all
    ensures s.Valid() && Sound(old(s.AsView())) && Does(s, Yield, old(s.AsView()), s.AsView())
  {
    ValidIsSound(s);
    s.Schedule();
  }

  /** task_exit; when nobody waits, the processor halts in it. */
  method DoExit(s: Scheduler) returns (halted: bool)
    requires s.Valid()
    modifies s, s.all
    ensures Sound(old(s.AsView())) && Does(s, Exit, old(s.AsView()), s.AsView())
    ensures (halted <==> !Waits(old(s.AsView()))) && (!halted ==> s.Valid())
  {
    ValidIsSound(s);
    ghost var v := s.AsView();
    s.Exit();
    ExitEnds(v, s.AsView());
    halted := s.current.state != Running;
    assert s.AsView().state[s.current] == s.current.state;
  }

  lemma NewTask(v: View, v': View, t: Task)
    requires Sound(v) && t in v.state && v.state[t] == Unused && v'.ring == v.ring + [t] && v'.current == v.current
    requires v'.state.Keys == v.state.Keys && v'.state[t] == Ready
    requires forall x :: x in v.state && x != t ==> v'.state[x] == v.state[x]
    ensures Entered(v, v', t)
  {
  }

  method DoSpawn(s: Scheduler, stack: nat)
    requires s.Valid()
    modifies s, s.all
    ensures s.Valid() && Sound(old(s.AsView())) && Does(s, Spawn(stack), old(s.AsView()), s.AsView())
  {
    ValidIsSound(s);
    ghost var v := s.AsView();
    var t := s.Spawn(stack);
    if t != null {
      NewTask(v, s.AsView(), t);
    } else {
      assert s.AsView().state == v.state;
    }
  }

  lemma KnownTask(s: Scheduler, t: Task)
    requires s.Distinct()
    requires t == s.main || t == s.idle || t in s.table
    ensures t in s.all
  {
  }

  lemma SameStates(state: map<Task, State>, state': map<Task, State>)
    requires state'.Keys == state.Keys && forall x :: x in state ==> state'[x] == state[x]
    ensures state' == state
  {
  }

  lemma OneState(state: map<Task, State>, state': map<Task, State>, t: Task, now: State)
    requires t in state && state'.Keys == state.Keys && state'[t] == now && forall x :: x in state && x != t ==> state'[x] == state[x]
    ensures state' == state[t := now]
  {
  }

  method DoKill(s: Scheduler, t: Task?)
    requires s.Valid() && Known(s, Kill(t))
    modifies s, s.all
    ensures s.Valid() && Sound(old(s.AsView())) && Does(s, Kill(t), old(s.AsView()), s.AsView())
  {
    ValidIsSound(s);
    ghost var v := s.AsView();
    if t != null {
      KnownTask(s, t);
    }
    var r := s.Kill(t);
    if Killable(v, t) {
      OneState(v.state, s.AsView().state, t, Exited);
    } else {
      SameStates(v.state, s.AsView().state);
    }
  }

  method DoRemove(s: Scheduler, t: Task?)
    requires s.Valid() && Known(s, Remove(t))
    modifies s, s.all
    ensures s.Valid() && Sound(old(s.AsView())) && Does(s, Remove(t), old(s.AsView()), s.AsView())
  {
    ValidIsSound(s);
    ghost var v := s.AsView();
    if t != null {
      KnownTask(s, t);
    }
    s.Remove(t);
    if Removable(s, v, t) {
      OneState(v.state, s.AsView().state, t, Unused);
    } else {
      SameStates(v.state, s.AsView().state);
    }
  }

  method DoReap(s: Scheduler)
    requires s.Valid()
    modifies s, s.all
    ensures s.Valid() && Sound(old(s.AsView())) && Does(s, Reap, old(s.AsView()), s.AsView())
  {
    ValidIsSound(s);
    ghost var v := s.AsView();
    assert DeadIn(s, v) == s.Dead();
    s.Reap();
  }

  /** Any operation keeps the ring and the one running task, unless the last task that could run exits. */
  method Apply(s: Scheduler, op: Op) returns (halted: bool)
    requires s.Valid() && Known(s, op)
    modifies s, s.all
    ensures Sound(old(s.AsView())) && Does(s, op, old(s.AsView()), s.AsView())
    ensures (halted <==> op.Exit? && !Waits(old(s.AsView()))) && (!halted ==> s.Valid() && Sound(s.AsView()))
  {
    halted := false;
    match op {
      case Yield => DoYield(s);
      case Exit => halted := DoExit(s);
      case Spawn(stack) => DoSpawn(s, stack);
      case Kill(t) => DoKill(s, t);
      case Remove(t) => DoRemove(s, t);
      case Reap => DoReap(s);
    }
    if !halted {
      ValidIsSound(s);
    }
  }

  // ---- runs of operations ----

  /** The first n operations were done; views[i] is what operation i found. */
  ghost predicate Played(s: Scheduler, ops: seq<Op>, views: seq<View>, n: nat) {
    && n <= |ops| && |views| == n + 1 && (forall i :: 0 <= i < |views| ==> Sound(views[i]))
    && forall i :: 0 <= i < n ==> Does(s, ops[i], views[i], views[i + 1])
  }

  lemma PlayedMore(s: Scheduler, ops: seq<Op>, views: seq<View>, n: nat, v: View)
    requires Played(s, ops, views, n) && n < |ops| && Does(s, ops[n], views[n], v) && Sound(v)
    ensures Played(s, ops, views + [v], n + 1)
  {
    var views' := views + [v];
    forall i | 0 <= i < n + 1 ensures Does(s, ops[i], views'[i], views'[i + 1]) {
      if i < n {
        assert Does(s, ops[i], views[i], views[i + 1]);
      }
    }
  }

  /** Any sequence of the operations is done, one after the other, until a task exits while nobody else is ready. */
  method Play(s: Scheduler, ops: seq<Op>) returns (n: nat, ghost views: seq<View>)
    requires s.Valid() && forall i :: 0 <= i < |ops| ==> Known(s, ops[i])
    modifies s, s.all
    ensures Played(s, ops, views, n) && views[0] == old(s.AsView())
    ensures if n == |ops| then s.Valid() && views[n] == s.AsView() else ops[n].Exit? && !Waits(views[n])
  {
    ValidIsSound(s);
    ghost var v := s.AsView();
    n, views := 0, [v];
    while n < |ops|
      invariant s.Valid() && Played(s, ops, views, n) && views[0] == v && views[n] == s.AsView()
    {
      var halted := Apply(s, ops[n]);
      if halted {
        return;
      }
      PlayedMore(s, ops, views, n, s.AsView());
      n, views := n + 1, views + [s.AsView()];
    }
  }

  ghost function Kinds(ops: seq<Op>, n: nat): seq<Kind>
    requires n <= |ops|
  {
    seq(n, i requires 0 <= i < n => KindOf(ops[i]))
  }

  lemma PlayedRun(s: Scheduler, ops: seq<Op>, views: seq<View>, n: nat)
    requires Played(s, ops, views, n)
    ensures Run(views, Kinds(ops, n))
  {
    forall i | 0 <= i < n ensures Step(Kinds(ops, n)[i], views[i], views[i + 1]) {
      DoesStep(s, ops[i], views[i], views[i + 1]);
    }
  }

  ghost predicate Alive(v: View, t: Task) {
    t in v.state && (v.state[t] == Ready || v.state[t] == Running)
  }

  /** The operation is not the end of task t. */
  ghost predicate Spares(op: Op, v: View, t: Task) {
    op != Kill(t) && op != Remove(t) && !(op.Exit? && v.current == t)
  }

  lemma AliveStep(s: Scheduler, op: Op, v: View, v': View, t: Task)
    requires Sound(v) && Sound(v') && Does(s, op, v, v') && Spares(op, v, t) && Alive(v, t)
    ensures Alive(v', t)
  {
  }

  lemma {:induction false} AliveThrough(s: Scheduler, ops: seq<Op>, views: seq<View>, n: nat, t: Task, k: nat)
    requires Played(s, ops, views, n) && k <= n && Alive(views[0], t) && forall i :: 0 <= i < k ==> Spares(ops[i], views[i], t)
    ensures Alive(views[k], t)
  {
    if k > 0 {
      AliveThrough(s, ops, views, n, t, k - 1);
      AliveStep(s, ops[k - 1], views[k - 1], views[k], t);
    }
  }

  lemma AliveReady(v: View, t: Task)
    requires Sound(v) && Alive(v, t)
    ensures t in v.ring && (t == v.current || v.state[t] == Ready)
  {
  }

  /** The fairness of every run of the scheduler: a task that nobody kills or removes becomes current, once as many tasks have
      yielded or exited as there are others in the ring and as were spawned. */
  lemma FairPlay(s: Scheduler, ops: seq<Op>, views: seq<View>, n: nat, t: Task) returns (j: nat)
    requires Played(s, ops, views, n) && Alive(views[0], t) && forall i :: 0 <= i < n ==> ops[i] != Kill(t) && ops[i] != Remove(t)
    requires Turns(Kinds(ops, n), 0) >= |views[0].ring| - 1 + Entries(Kinds(ops, n), 0)
    ensures j <= n && views[j].current == t
  {
    if k :| 0 <= k <= n && views[k].current == t {
      return k;
    }
    forall k | 0 <= k <= n ensures t in views[k].ring && (t == views[k].current || views[k].state[t] == Ready) {
      AliveThrough(s, ops, views, n, t, k);
      AliveReady(views[k], t);
    }
    PlayedRun(s, ops, views, n);
    j := FairInRing(views, Kinds(ops, n), t);
  }

  /** As long as idle is alive and somebody else is current, somebody waits. */
  lemma IdleWaits(v: View, idle: Task)
    requires Sound(v) && Alive(v, idle) && v.current != idle
    ensures Waits(v)
  {
    AliveReady(v, idle);
  }

  /** A run in which idle is neither killed nor removed and does not exit never halts. */
  lemma NeverHalts(s: Scheduler, ops: seq<Op>, views: seq<View>, n: nat)
    requires Played(s, ops, views, n) && n < |ops| && Alive(views[0], s.idle)
    requires forall i :: 0 <= i <= n ==> Spares(ops[i], views[i], s.idle)
    ensures !(ops[n].Exit? && !Waits(views[n]))
  {
    AliveThrough(s, ops, views, n, s.idle, n);
    if ops[n].Exit? {
      IdleWaits(views[n], s.idle);
    }
  }

  /** Killing idle right after scheduler_init: the next exit halts. */
  method HaltedRun(s: Scheduler) returns (n: nat)
    requires s.Valid() && s.ring == [s.main, s.idle] && s.current == s.main
    modifies s, s.all
    ensures n == 1
  {
    ghost var v := s.AsView();
    ghost var views;
    n, views := Play(s, [Kill(s.idle), Exit]);
    assert n > 0 ==> Does(s, Kill(s.idle), views[0], views[1]);
    assert n == 2 ==> Does(s, Exit, views[1], views[2]);
    if n > 0 {
      KilledIdle(s, v, views[1]);
    }
  }

  lemma KilledIdle(s: Scheduler, v: View, v': View)
    requires Sound(v) && v.ring == [s.main, s.idle] && v.current == s.main && Does(s, Kill(s.idle), v, v')
    ensures !Waits(v')
  {
  }
}
