/** The file descriptors of user processes: which process owns which handle, from start to reaping. */
module Descriptors {
  import opened Bytes
  import opened Limits
  import opened Names
  import opened Tree
  import opened Vfs

  const USER_MAX_FDS := 8
  const FIRST_FILE := 3
  const NOBODY := -1

  const USER_KILL_OK := 1
  const USER_KILL_NOT_FOUND := 0
  const USER_KILL_DEAD := 2
  const USER_KILL_NO_TASK := 3
  const USER_REAP_OK := 1
  const USER_REAP_NOT_FOUND := 0
  const USER_REAP_RUNNING := -1

  datatype Fd = Unused | Stdin | Stdout | Stderr | Handle(h: int)

  datatype Status = Free | Ready | Running | Exited | Failed | Killed

  predicate Dead(s: Status) {
    s.Exited? || s.Failed? || s.Killed?
  }

  /** The descriptor parts of user_process_t. */
  datatype Process = Process(status: Status, fds: seq<Fd>)

  /** Who owns a handle: a process and one of its descriptors. */
  datatype Owner = Owner(i: nat, j: nat)

  /** The used handles are exactly those that descriptors stand for, each standing for a handle of its own. */
  ghost predicate Owned(procs: seq<Process>, files: seq<OpenFile>, owner: map<int, Owner>) {
    && (forall h :: h in owner ==> 0 <= h < |files| && files[h].used && owner[h].i < |procs| && owner[h].j < |procs[owner[h].i].fds|
                                   && procs[owner[h].i].fds[owner[h].j] == Handle(h))
    && (forall h :: 0 <= h < |files| && files[h].used ==> h in owner)
    && (forall i, j :: 0 <= i < |procs| && 0 <= j < |procs[i].fds| && procs[i].fds[j].Handle? ==>
          procs[i].fds[j].h in owner && owner[procs[i].fds[j].h] == Owner(i, j))
  }

  ghost predicate NoHandles(fds: seq<Fd>) {
    forall j :: 0 <= j < |fds| ==> !fds[j].Handle?
  }

  /** Descriptors 0 to 2 are the standard ones; free slots and processes that have not begun hold no handles. */
  ghost predicate Tidy(p: Process) {
    && |p.fds| == USER_MAX_FDS && (forall j :: 0 <= j < FIRST_FILE ==> !p.fds[j].Handle?)
    && (p.status.Free? || p.status.Ready? ==> NoHandles(p.fds))
  }

  /** A dead process that holds a handle. */
  ghost predicate Stray(p: Process) {
    Dead(p.status) && !NoHandles(p.fds)
  }

  /** No two descriptors, of whatever processes, share a handle. */
  lemma NotShared(procs: seq<Process>, files: seq<OpenFile>, owner: map<int, Owner>, i: nat, j: nat, i': nat, j': nat)
    requires Owned(procs, files, owner) && i < |procs| && j < |procs[i].fds| && i' < |procs| && j' < |procs[i'].fds|
    requires procs[i].fds[j].Handle? && procs[i'].fds[j'] == procs[i].fds[j]
    ensures i == i' && j == j' && 0 <= procs[i].fds[j].h < |files| && files[procs[i].fds[j].h].used
  {
    assert owner[procs[i].fds[j].h] == Owner(i, j);
    assert owner[procs[i'].fds[j'].h] == Owner(i', j');
  }

  function SetFd(procs: seq<Process>, i: nat, j: nat, fd: Fd): seq<Process>
    requires i < |procs| && j < |procs[i].fds|
  {
    procs[i := procs[i].(fds := procs[i].fds[j := fd])]
  }

  /** A handle that was free is opened into a descriptor that held none. */
  lemma Acquire(procs: seq<Process>, files: seq<OpenFile>, owner: map<int, Owner>, i: nat, j: nat, h: nat, f: OpenFile)
    requires Owned(procs, files, owner) && i < |procs| && j < |procs[i].fds| && !procs[i].fds[j].Handle?
    requires h < |files| && !files[h].used && f.used
    ensures Owned(SetFd(procs, i, j, Handle(h)), files[h := f], owner[h := Owner(i, j)])
  {
    var procs' := SetFd(procs, i, j, Handle(h));
    assert procs'[i].fds[j] == Handle(h);
    assert forall k, l :: 0 <= k < |procs| && 0 <= l < |procs[k].fds| && (k, l) != (i, j) ==> procs'[k].fds[l] == procs[k].fds[l];
  }

  /** A descriptor gives its handle back. */
  lemma Release(procs: seq<Process>, files: seq<OpenFile>, owner: map<int, Owner>, i: nat, j: nat)
    requires Owned(procs, files, owner) && i < |procs| && j < |procs[i].fds| && procs[i].fds[j].Handle?
    ensures
      var h := procs[i].fds[j].h;
      && 0 <= h < |files|
      && Owned(SetFd(procs, i, j, Unused), files[h := files[h].(used := false)], owner - {h})
  {
    var h := procs[i].fds[j].h;
    var procs' := SetFd(procs, i, j, Unused);
    assert owner[h] == Owner(i, j);
    assert forall k, l :: 0 <= k < |procs| && 0 <= l < |procs[k].fds| && (k, l) != (i, j) ==> procs'[k].fds[l] == procs[k].fds[l];
  }

  /** A descriptor that stands for no handle may be anything else that stands for none. */
  lemma Neutral(procs: seq<Process>, files: seq<OpenFile>, owner: map<int, Owner>, i: nat, p: Process)
    requires Owned(procs, files, owner) && i < |procs| && |p.fds| == |procs[i].fds|
    requires forall j :: 0 <= j < |p.fds| ==> p.fds[j] == procs[i].fds[j] || (!p.fds[j].Handle? && !procs[i].fds[j].Handle?)
    ensures Owned(procs[i := p], files, owner)
  {
  }

  /** The handles of descriptors `from` to `to` of process i are closed; no other handle is touched. */
  ghost predicate Shut(owner: map<int, Owner>, files: seq<OpenFile>, owner': map<int, Owner>, files': seq<OpenFile>, i: nat, from: nat, to: nat) {
    && |files'| == |files|
    && (forall h :: h in owner' <==> h in owner && !(owner[h].i == i && from <= owner[h].j < to))
    && (forall h :: h in owner' ==> owner'[h] == owner[h])
    && (forall h :: 0 <= h < |files| ==>
          files'[h] == if h in owner && owner[h].i == i && from <= owner[h].j < to then files[h].(used := false) else files[h])
  }

  lemma ShutMore(owner: map<int, Owner>, files: seq<OpenFile>, owner1: map<int, Owner>, files1: seq<OpenFile>,
                 owner2: map<int, Owner>, files2: seq<OpenFile>, i: nat, from: nat, to: nat)
    requires from <= to && Shut(owner, files, owner1, files1, i, from, to) && Shut(owner1, files1, owner2, files2, i, to, to + 1)
    ensures Shut(owner, files, owner2, files2, i, from, to + 1)
  {
  }

  lemma ShutOne(procs: seq<Process>, files: seq<OpenFile>, owner: map<int, Owner>, i: nat, j: nat)
    requires Owned(procs, files, owner) && i < |procs| && j < |procs[i].fds| && procs[i].fds[j].Handle?
    ensures
      var h := procs[i].fds[j].h;
      0 <= h < |files| && Shut(owner, files, owner - {h}, files[h := files[h].(used := false)], i, j, j + 1)
  {
    var h := procs[i].fds[j].h;
    assert owner[h] == Owner(i, j);
    forall k | k in owner && owner[k] == Owner(i, j) ensures k == h {
      assert procs[owner[k].i].fds[owner[k].j] == Handle(k);
    }
  }

  lemma ShutNone(procs: seq<Process>, files: seq<OpenFile>, owner: map<int, Owner>, i: nat, j: nat)
    requires Owned(procs, files, owner) && i < |procs| && j < |procs[i].fds| && !procs[i].fds[j].Handle?
    ensures Shut(owner, files, owner, files, i, j, j + 1)
  {
    forall k | k in owner ensures owner[k] != Owner(i, j) {
      assert procs[owner[k].i].fds[owner[k].j] == Handle(k);
    }
  }

  /** The descriptors after user_process_close_fds. */
  function Emptied(fds: seq<Fd>): (r: seq<Fd>)
    ensures |r| == |fds|
  {
    seq(|fds|, j requires 0 <= j < |fds| => if j < FIRST_FILE then fds[j] else Unused)
  }

  /** Exactly the handles of these descriptors are closed. */
  ghost predicate ClosedFiles(fds: seq<Fd>, files: seq<OpenFile>, files': seq<OpenFile>) {
    && |files'| == |files|
    && forall h :: 0 <= h < |files| ==> files'[h] == if Handle(h) in fds then files[h].(used := false) else files[h]
  }

  lemma ShutCloses(procs: seq<Process>, files: seq<OpenFile>, owner: map<int, Owner>, files': seq<OpenFile>, owner': map<int, Owner>, i: nat)
    requires Owned(procs, files, owner) && i < |procs| && Tidy(procs[i]) && Shut(owner, files, owner', files', i, FIRST_FILE, USER_MAX_FDS)
    ensures ClosedFiles(procs[i].fds, files, files')
  {
    forall h | 0 <= h < |files| ensures Handle(h) in procs[i].fds <==> h in owner && owner[h].i == i && FIRST_FILE <= owner[h].j < USER_MAX_FDS {
      if Handle(h) in procs[i].fds {
        var j :| 0 <= j < |procs[i].fds| && procs[i].fds[j] == Handle(h);
        assert owner[procs[i].fds[j].h] == Owner(i, j);
      }
    }
  }

  const NO_FDS: seq<Fd> := [Unused, Unused, Unused, Unused, Unused, Unused, Unused, Unused]
  const START_FDS: seq<Fd> := [Stdin, Stdout, Stderr, Unused, Unused, Unused, Unused, Unused]

  /** The first free slot of the process table from k on. */
  function FreeProcess(procs: seq<Process>, k: nat): (i: int)
    requires k <= |procs|
    ensures i == NOBODY || k <= i < |procs|
    ensures i != NOBODY ==> procs[i].status.Free? && forall x :: k <= x < i ==> !procs[x].status.Free?
    ensures i == NOBODY ==> forall x :: k <= x < |procs| ==> !procs[x].status.Free?
    decreases |procs| - k
  {
    if k == |procs| then NOBODY else if procs[k].status.Free? then k else FreeProcess(procs, k + 1)
  }

  /** The first unused descriptor from j on. */
  function UnusedFd(fds: seq<Fd>, j: nat): (fd: int)
    requires j <= |fds|
    ensures fd == -1 || (j <= fd < |fds| && fds[fd].Unused?)
    ensures forall x :: j <= x < (if fd == -1 then |fds| else fd) ==> !fds[x].Unused?
    decreases |fds| - j
  {
    if j == |fds| then -1 else if fds[j].Unused? then j else UnusedFd(fds, j + 1)
  }

  function Handles(hs: seq<nat>): seq<Fd> {
    seq(|hs|, k requires 0 <= k < |hs| => Handle(hs[k]))
  }

  lemma {:induction false} UnusedIs(fds: seq<Fd>, j: nat, k: nat)
    requires j <= k <= |fds| && (forall x :: j <= x < k ==> !fds[x].Unused?) && (k < |fds| ==> fds[k].Unused?)
    ensures UnusedFd(fds, j) == if k < |fds| then k else -1
    decreases k - j
  {
    if j < k {
      UnusedIs(fds, j + 1, k);
    }
  }

  /** A process starts with input, output and error at 0, 1 and 2. The files it opens get 3 to 7, and there is no eighth
      descriptor. */
  lemma FiveFiles(hs: seq<nat>)
    requires |hs| <= 5
    ensures
      var fds := [Stdin, Stdout, Stderr] + Handles(hs) + seq(5 - |hs|, _ => Unused);
      |fds| == USER_MAX_FDS && (hs == [] ==> fds == START_FDS) && UnusedFd(fds, FIRST_FILE) == if |hs| < 5 then 3 + |hs| else -1
  {
    var fds := [Stdin, Stdout, Stderr] + Handles(hs) + seq(5 - |hs|, _ => Unused);
    assert forall k :: 0 <= k < |hs| ==> fds[3 + k] == Handle(hs[k]);
    UnusedIs(fds, 3, 3 + |hs|);
  }

  /** The process table after the start of a process. */
  function Started(procs: seq<Process>, fails: bool): seq<Process> {
    var i := FreeProcess(procs, 0);
    if i == NOBODY then procs else procs[i := Process(if fails then Free else Ready, START_FDS)]
  }

  /** What the descriptors and the volume are at a moment. */
  datatype State = State(current: int, saved: int, procs: seq<Process>, files: seq<OpenFile>, tree: Tree, room: map<nat, nat>)

  /** The current process has a descriptor left. */
  ghost predicate FdLeft(a: State) {
    && 0 <= a.current < |a.procs| && |a.procs[a.current].fds| == USER_MAX_FDS && UnusedFd(a.procs[a.current].fds, FIRST_FILE) != -1
  }

  /** An open by or on behalf of the current process works. */
  ghost predicate OpenWorks(a: State, cwd: Text, path: Text, flags: nat) {
    FdLeft(a) && OpenCode(a.tree, a.room, a.files, cwd, path, flags) == 0
  }

  /** What user_fd_open_current returns. */
  ghost function OpenResult(a: State, cwd: Text, path: Text, flags: nat): u32 {
    if a.current == NOBODY then UserError(USER_ERR_INVAL)
    else if !FdLeft(a) then UserError(USER_ERR_NO_SPACE)
    else
      var code := OpenCode(a.tree, a.room, a.files, cwd, path, flags);
      if code == 0 then UnusedFd(a.procs[a.current].fds, FIRST_FILE) else UserResult(code)
  }

  /** A close by or on behalf of the current process works. */
  ghost predicate CloseWorks(a: State, fd: int) {
    0 <= a.current < |a.procs| && 0 <= fd < |a.procs[a.current].fds| && a.procs[a.current].fds[fd].Handle?
  }

  /** The first unused descriptor of the current process stands for the first free handle. */
  ghost predicate Opened(a: State, b: State, cwd: Text, path: Text, flags: nat)
    requires OpenWorks(a, cwd, path, flags)
  {
    var fd := UnusedFd(a.procs[a.current].fds, FIRST_FILE);
    && path != [] && b == State(a.current, a.saved, b.procs, b.files, OpenTree(a.tree, Rest(path), flags), OpenRoom(a.tree, a.room, Rest(path)))
    && exists h :: 0 <= h < |a.files| == |b.files| && !a.files[h].used && (forall g :: 0 <= g < h ==> a.files[g].used)
         && b.files[h].used && b.files == a.files[h := b.files[h]] && b.procs == SetFd(a.procs, a.current, fd, Handle(h))
  }

  /** user_process_reap may take this slot. */
  predicate Reapable(current: int, procs: seq<Process>, i: nat)
    requires i < |procs|
  {
    i != current && Dead(procs[i].status)
  }

  /** The process table with the slots below n reaped. */
  function Reaped(current: int, procs: seq<Process>, n: nat): seq<Process> {
    seq(|procs|, i requires 0 <= i < |procs| => if i < n && Reapable(current, procs, i) then Process(Free, Emptied(procs[i].fds)) else procs[i])
  }

  /** A reapable slot below n holds the handle. */
  ghost predicate HeldByDead(current: int, procs: seq<Process>, n: nat, h: int) {
    exists i :: 0 <= i < n && i < |procs| && Reapable(current, procs, i) && Handle(h) in procs[i].fds
  }

  ghost predicate ReapedFiles(current: int, procs: seq<Process>, n: nat, files: seq<OpenFile>, files': seq<OpenFile>) {
    && |files'| == |files|
    && forall h :: 0 <= h < |files| ==> files'[h] == if HeldByDead(current, procs, n, h) then files[h].(used := false) else files[h]
  }

  lemma ReapMore(current: int, procs: seq<Process>, n: nat, files: seq<OpenFile>, files1: seq<OpenFile>, files2: seq<OpenFile>)
    requires n < |procs| && ReapedFiles(current, procs, n, files, files1)
    requires if Reapable(current, procs, n) then ClosedFiles(procs[n].fds, files1, files2) else files2 == files1
    ensures ReapedFiles(current, procs, n + 1, files, files2)
  {
    forall h | 0 <= h < |files|
      ensures HeldByDead(current, procs, n + 1, h) <==> HeldByDead(current, procs, n, h) || (Reapable(current, procs, n) && Handle(h) in procs[n].fds)
    {
    }
  }

  /** The process table of cpu/user_mode.c, as far as descriptors go, over the handles of fs/vfs.c. */
  class FdTable {
    const f: OpenFiles
    var procs: seq<Process>
    /** current_user_process. */
    var current: int
    /** The process whose run_user_process saved the context that exits and faults return to. */
    var saved: int
    ghost var owner: map<int, Owner>

    /** What concerns handles. */
    ghost predicate Sound()
      reads this, f, f.v
    {
      && f.Sane() && |procs| == MAX_USER_PROCESSES && (forall i :: 0 <= i < |procs| ==> Tidy(procs[i]))
      && Owned(procs, f.files, owner)
    }

    /** The current process is the one that began last, and its slot is not free. */
    ghost predicate CurrentOk()
      reads this
    {
      && |procs| == MAX_USER_PROCESSES && NOBODY <= saved < |procs| && (current == NOBODY || current == saved)
      && (current != NOBODY ==> !procs[current].status.Free? && !procs[current].status.Ready?)
    }

    ghost predicate Valid()
      reads this, f, f.v
    {
      Sound() && CurrentOk()
    }

    constructor (f: OpenFiles)
      requires f.Sane() && forall h :: 0 <= h < |f.files| ==> !f.files[h].used
      ensures Valid() && this.f == f && current == saved == NOBODY && |procs| == 8 && forall i :: 0 <= i < |procs| ==> procs[i] == Process(Free, NO_FDS)
    {
      this.f := f;
      procs := seq(MAX_USER_PROCESSES, _ => Process(Free, NO_FDS));
      current, saved := NOBODY, NOBODY;
      owner := map[];
    }

    /** user_process_alloc: the first free slot. */
    method Alloc() returns (i: int)
      requires |procs| == MAX_USER_PROCESSES
      ensures i == FreeProcess(procs, 0)
    {
      for k := 0 to |procs|
        invariant FreeProcess(procs, 0) == FreeProcess(procs, k)
      {
        if procs[k].status.Free? {
          return k;
        }
      }
      return NOBODY;
    }

    /** Another process value with the same handles. */
    method Replace(i: nat, p: Process)
      requires Sound() && i < |procs| && Tidy(p)
      requires forall j :: 0 <= j < |p.fds| ==> p.fds[j] == procs[i].fds[j] || (!p.fds[j].Handle? && !procs[i].fds[j].Handle?)
      modifies this`procs
      ensures Sound() && procs == old(procs)[i := p]
    {
      Neutral(procs, f.files, owner, i, p);
      procs := procs[i := p];
    }

    /** user_process_clear of a process that has not begun. */
    method Abandon(i: nat)
      requires Sound() && i < |procs| && procs[i] == Process(Ready, START_FDS)
      modifies this`procs, this`owner, f`files
      ensures Sound() && f.files == old(f.files) && procs == old(procs)[i := Process(Free, START_FDS)]
    {
      Clear(i);
      assert Emptied(START_FDS) == START_FDS;
    }

    /** The start of a process: a free slot is taken and overwritten, which loses no handle because a free slot holds none;
        when a later step fails, user_process_clear gives it back. */
    method Start(fails: bool) returns (i: int)
      requires Valid()
      modifies this`procs, this`owner, f`files
      ensures Valid() && f.files == old(f.files) && i == FreeProcess(old(procs), 0) && procs == Started(old(procs), fails)
    {
      i := Alloc();
      if i != NOBODY {
        Replace(i, Process(Ready, START_FDS));
        if fails {
          Abandon(i);
        }
      }
    }

    /** run_user_process up to the switch: a slot that was freed meanwhile has no address space. */
    method Begin(i: nat)
      requires Valid() && i < |procs|
      modifies this`procs, this`current, this`saved
      ensures Valid() && owner == old(owner)
      ensures old(procs)[i].status.Free? ==>
        procs == old(procs)[i := old(procs)[i].(status := Failed)] && current == old(current) && saved == old(saved)
      ensures !old(procs)[i].status.Free? ==>
        procs == old(procs)[i := old(procs)[i].(status := Running)] && current == saved == i
    {
      if procs[i].status.Free? {
        Replace(i, procs[i].(status := Failed));
      } else {
        Replace(i, procs[i].(status := Running));
        current, saved := i, i;
      }
    }

    /** user_fd_find_free. */
    method FindFree(i: nat) returns (fd: int)
      requires i < |procs| && |procs[i].fds| == USER_MAX_FDS
      ensures fd == UnusedFd(procs[i].fds, FIRST_FILE)
    {
      for j := FIRST_FILE to USER_MAX_FDS
        invariant UnusedFd(procs[i].fds, FIRST_FILE) == UnusedFd(procs[i].fds, j)
      {
        if procs[i].fds[j].Unused? {
          return j;
        }
      }
      return -1;
    }

    ghost function View(): State
      reads this, f, f.v
    {
      State(current, saved, procs, f.files, f.T(), f.R())
    }

    /** vfs_open_at, seen from the handle table. */
    method TakeHandle(cwd: Text, path: Text, flags: nat) returns (h: int)
      requires f.Sane()
      modifies f`files, f.v
      ensures f.Sane() && h < |f.files| == |old(f.files)|
      ensures
        var code := OpenCode(old(f.T()), old(f.R()), old(f.files), cwd, path, flags);
        if code == 0 then
          && h >= 0 && !old(f.files)[h].used && (forall g :: 0 <= g < h ==> old(f.files)[g].used)
          && f.files[h].used && f.files == old(f.files)[h := f.files[h]]
          && f.T() == OpenTree(old(f.T()), Rest(path), flags) && f.R() == OpenRoom(old(f.T()), old(f.R()), Rest(path))
        else h == code && f.files == old(f.files) && f.T() == old(f.T()) && f.R() == old(f.R())
    {
      h := f.OpenAt(cwd, path, flags);
    }

    /** The new handle becomes a descriptor of the current process. */
    method Attach(fd: nat, h: nat, ghost files: seq<OpenFile>)
      requires f.Sane() && CurrentOk() && current != NOBODY && (forall i :: 0 <= i < |procs| ==> Tidy(procs[i])) && Owned(procs, files, owner)
      requires FIRST_FILE <= fd < |procs[current].fds| && procs[current].fds[fd].Unused?
      requires h < |files| == |f.files| && !files[h].used && f.files[h].used && f.files == files[h := f.files[h]]
      modifies this`procs, this`owner
      ensures Valid() && procs == SetFd(old(procs), current, fd, Handle(h))
    {
      Acquire(procs, files, owner, current, fd, h, f.files[h]);
      procs := SetFd(procs, current, fd, Handle(h));
      owner := owner[h := Owner(current, fd)];
    }

    /** user_fd_open_current: whatever state the current process is in. */
    method OpenFd(cwd: Text, path: Text, flags: nat) returns (ret: u32)
      requires Valid()
      modifies this`procs, this`owner, f`files, f.v
      ensures Valid() && ret == OpenResult(old(View()), cwd, path, flags)
      ensures
        var a, b := old(View()), View();
        if OpenWorks(a, cwd, path, flags) then Opened(a, b, cwd, path, flags) else b == a
    {
      if current == NOBODY {
        return UserError(USER_ERR_INVAL);
      }
      var fd := FindFree(current);
      if fd < 0 {
        return UserError(USER_ERR_NO_SPACE);
      }
      var h := TakeHandle(cwd, path, flags);
      if h < 0 {
        return UserResult(h);
      }
      Attach(fd, h, old(f.files));
      ret := fd;
    }

    /** Closes the handle of one descriptor. */
    method CloseHandle(i: nat, j: nat)
      requires Sound() && i < |procs| && FIRST_FILE <= j < USER_MAX_FDS && procs[i].fds[j].Handle?
      modifies this`procs, this`owner, f`files
      ensures Sound() && procs == SetFd(old(procs), i, j, Unused)
      ensures Shut(old(owner), old(f.files), owner, f.files, i, j, j + 1) && ClosedFiles([old(procs)[i].fds[j]], old(f.files), f.files)
    {
      ghost var h := procs[i].fds[j].h;
      Release(procs, f.files, owner, i, j);
      ShutOne(procs, f.files, owner, i, j);
      var ret := f.Close(procs[i].fds[j].h);
      procs := SetFd(procs, i, j, Unused);
      owner := owner - {h};
    }

    /** user_fd_close_current. */
    method CloseFd(fd: int) returns (ret: u32)
      requires Valid()
      modifies this`procs, this`owner, f`files
      ensures Valid()
      ensures ret == if current == NOBODY then UserError(USER_ERR_INVAL) else if CloseWorks(old(View()), fd) then 0 else UserError(USER_ERR_BADF)
      ensures
        if CloseWorks(old(View()), fd)
        then procs == SetFd(old(procs), current, fd, Unused) && ClosedFiles([old(procs)[current].fds[fd]], old(f.files), f.files)
        else procs == old(procs) && f.files == old(f.files)
    {
      if current == NOBODY {
        return UserError(USER_ERR_INVAL);
      }
      if fd < 0 || fd >= USER_MAX_FDS || !procs[current].fds[fd].Handle? {
        return UserError(USER_ERR_BADF);
      }
      CloseHandle(current, fd);
      ret := 0;
    }

    /** One round of user_process_close_fds. */
    method CloseSlot(i: nat, j: nat)
      requires Sound() && i < |procs| && FIRST_FILE <= j < USER_MAX_FDS
      modifies this`procs, this`owner, f`files
      ensures Sound() && procs == SetFd(old(procs), i, j, Unused)
      ensures Shut(old(owner), old(f.files), owner, f.files, i, j, j + 1)
    {
      if procs[i].fds[j].Handle? {
        CloseHandle(i, j);
      } else {
        ShutNone(procs, f.files, owner, i, j);
        Replace(i, procs[i].(fds := procs[i].fds[j := Unused]));
      }
    }

    /** user_process_close_fds: the handles of the process are closed, and nobody else's. */
    method CloseAll(i: nat)
      requires Sound() && i < |procs|
      modifies this`procs, this`owner, f`files
      ensures Sound() && ClosedFiles(old(procs)[i].fds, old(f.files), f.files)
      ensures procs == old(procs)[i := old(procs)[i].(fds := Emptied(old(procs)[i].fds))]
    {
      for j := FIRST_FILE to USER_MAX_FDS
        invariant Sound() && procs[i].status == old(procs)[i].status && procs == old(procs)[i := procs[i]]
        invariant Shut(old(owner), old(f.files), owner, f.files, i, FIRST_FILE, j)
        invariant forall k :: 0 <= k < USER_MAX_FDS ==> procs[i].fds[k] == if FIRST_FILE <= k < j then Unused else old(procs)[i].fds[k]
      {
        ghost var owner1, files1 := owner, f.files;
        CloseSlot(i, j);
        ShutMore(old(owner), old(f.files), owner1, files1, owner, f.files, i, FIRST_FILE, j);
      }
      ShutCloses(old(procs), old(f.files), old(owner), f.files, owner, i);
      assert procs[i].fds == Emptied(old(procs)[i].fds);
    }

    /** The descriptor part of user_process_clear. */
    method Clear(i: nat)
      requires Sound() && i < |procs|
      modifies this`procs, this`owner, f`files
      ensures Sound() && ClosedFiles(old(procs)[i].fds, old(f.files), f.files)
      ensures procs == old(procs)[i := Process(Free, Emptied(old(procs)[i].fds))]
    {
      CloseAll(i);
      Replace(i, procs[i].(status := Free));
    }

    /** A process is marked dead and its descriptors are closed. */
    method Finish(i: nat, status: Status)
      requires Sound() && i < |procs| && Dead(status)
      modifies this`procs, this`owner, f`files
      ensures Sound() && ClosedFiles(old(procs)[i].fds, old(f.files), f.files)
      ensures procs == old(procs)[i := Process(status, Emptied(old(procs)[i].fds))]
    {
      Replace(i, procs[i].(status := status));
      CloseAll(i);
    }

    /** user_exit_current and user_fault_current: the run that saved the context last ends, whoever called. */
    method End(fault: bool)
      requires Valid()
      modifies this`procs, this`current, this`owner, f`files
      ensures Valid()
      ensures saved == NOBODY ==> procs == old(procs) && f.files == old(f.files) && current == old(current)
      ensures saved != NOBODY ==>
        && current == NOBODY && procs == old(procs)[saved := Process(if fault then Failed else Exited, Emptied(old(procs)[saved].fds))]
        && ClosedFiles(old(procs)[saved].fds, old(f.files), f.files)
    {
      if saved != NOBODY {
        if fault && current != NOBODY {
          Replace(current, procs[current].(status := Failed));
        }
        Finish(saved, if fault then Failed else Exited);
        current := NOBODY;
      }
    }

    /** user_process_kill_pid, for a task that task_kill takes or not. The current process stays current. */
    method Kill(i: nat, killable: bool) returns (ret: int)
      requires Valid() && i < |procs|
      modifies this`procs, this`owner, f`files
      ensures Valid()
      ensures
        var s := old(procs)[i].status;
        ret == if s.Free? then USER_KILL_NOT_FOUND else if Dead(s) then USER_KILL_DEAD else if killable then USER_KILL_OK else USER_KILL_NO_TASK
      ensures ret != USER_KILL_OK ==> procs == old(procs) && f.files == old(f.files)
      ensures ret == USER_KILL_OK ==>
        procs == old(procs)[i := Process(Killed, Emptied(old(procs)[i].fds))] && ClosedFiles(old(procs)[i].fds, old(f.files), f.files)
    {
      if procs[i].status.Free? {
        return USER_KILL_NOT_FOUND;
      }
      if Dead(procs[i].status) {
        return USER_KILL_DEAD;
      }
      if !killable {
        return USER_KILL_NO_TASK;
      }
      Finish(i, Killed);
      ret := USER_KILL_OK;
    }

    /** user_process_reap_pid: the slot is free, and so are the handles it still held. */
    method Reap(i: nat) returns (ret: int)
      requires Valid() && i < |procs|
      modifies this`procs, this`owner, f`files
      ensures Valid()
      ensures
        ret == if old(procs)[i].status.Free? then USER_REAP_NOT_FOUND else if Reapable(current, old(procs), i) then USER_REAP_OK else USER_REAP_RUNNING
      ensures ret != USER_REAP_OK ==> procs == old(procs) && f.files == old(f.files)
      ensures ret == USER_REAP_OK ==>
        procs == old(procs)[i := Process(Free, Emptied(old(procs)[i].fds))] && ClosedFiles(old(procs)[i].fds, old(f.files), f.files)
    {
      if procs[i].status.Free? {
        return USER_REAP_NOT_FOUND;
      }
      if i == current || !Dead(procs[i].status) {
        return USER_REAP_RUNNING;
      }
      Clear(i);
      ret := USER_REAP_OK;
    }

    /** user_process_reap: afterwards no slot is dead but perhaps that of the current process. */
    method ReapAll()
      requires Valid()
      modifies this`procs, this`owner, f`files
      ensures Valid() && procs == Reaped(current, old(procs), |old(procs)|) && ReapedFiles(current, old(procs), |old(procs)|, old(f.files), f.files)
    {
      for i := 0 to |procs|
        invariant Valid() && procs == Reaped(current, old(procs), i) && ReapedFiles(current, old(procs), i, old(f.files), f.files)
      {
        ghost var files := f.files;
        if i != current && Dead(procs[i].status) {
          Clear(i);
        }
        ReapMore(current, old(procs), i, old(f.files), files, f.files);
      }
    }
  }

  datatype Event =
    | StartEvent(fails: bool)
    | BeginEvent(i: nat)
    | OpenEvent(cwd: Text, path: Text, flags: nat)
    | CloseEvent(fd: int)
    | EndEvent(fault: bool)
    | KillEvent(i: nat, killable: bool)
    | ReapEvent(i: nat)
    | ReapAllEvent

  /** Nothing but the process table and the handle table changes. */
  ghost predicate SameRest(a: State, b: State) {
    b == State(a.current, a.saved, b.procs, b.files, a.tree, a.room)
  }

  /** What each event does. */
  ghost predicate Does(e: Event, a: State, b: State) {
    match e
    case StartEvent(fails) => b == a.(procs := Started(a.procs, fails))
    case BeginEvent(i) =>
      if i >= |a.procs| then b == a
      else if a.procs[i].status.Free? then b == a.(procs := a.procs[i := a.procs[i].(status := Failed)])
      else b == a.(procs := a.procs[i := a.procs[i].(status := Running)], current := i, saved := i)
    case OpenEvent(cwd, path, flags) => if OpenWorks(a, cwd, path, flags) then Opened(a, b, cwd, path, flags) else b == a
    case CloseEvent(fd) =>
      if !CloseWorks(a, fd) then b == a
      else SameRest(a, b) && b.procs == SetFd(a.procs, a.current, fd, Unused) && ClosedFiles([a.procs[a.current].fds[fd]], a.files, b.files)
    case EndEvent(fault) =>
      if !(0 <= a.saved < |a.procs|) then b == a
      else SameRest(a.(current := NOBODY), b) && Becomes(a, b, a.saved, if fault then Failed else Exited)
    case KillEvent(i, killable) =>
      if i >= |a.procs| || a.procs[i].status.Free? || Dead(a.procs[i].status) || !killable then b == a
      else SameRest(a, b) && Becomes(a, b, i, Killed)
    case ReapEvent(i) =>
      if i >= |a.procs| || !Reapable(a.current, a.procs, i) then b == a
      else SameRest(a, b) && Becomes(a, b, i, Free)
    case ReapAllEvent =>
      SameRest(a, b) && b.procs == Reaped(a.current, a.procs, |a.procs|) && ReapedFiles(a.current, a.procs, |a.procs|, a.files, b.files)
  }

  /** Process i gets this status, and its handles are closed. */
  ghost predicate Becomes(a: State, b: State, i: nat, status: Status)
    requires i < |a.procs|
  {
    b.procs == a.procs[i := Process(status, Emptied(a.procs[i].fds))] && ClosedFiles(a.procs[i].fds, a.files, b.files)
  }

  /** An open that works while process i is current but dead: somebody else made it. */
  ghost predicate LateOpen(e: Event, a: State, i: int) {
    e.OpenEvent? && i == a.current && OpenWorks(a, e.cwd, e.path, e.flags) && Dead(a.procs[i].status)
  }

  lemma EmptiedHolds(fds: seq<Fd>)
    requires forall j :: 0 <= j < |fds| && j < FIRST_FILE ==> !fds[j].Handle?
    ensures NoHandles(Emptied(fds))
  {
  }

  lemma OpenedStray(a: State, b: State, cwd: Text, path: Text, flags: nat)
    requires OpenWorks(a, cwd, path, flags) && Opened(a, b, cwd, path, flags)
    ensures |b.procs| == |a.procs| && (Stray(b.procs[a.current]) <==> Dead(a.procs[a.current].status))
    ensures forall i :: 0 <= i < |a.procs| && i != a.current ==> b.procs[i] == a.procs[i]
  {
    var fd := UnusedFd(a.procs[a.current].fds, FIRST_FILE);
    assert b.procs[a.current].fds[fd].Handle?;
  }

  /** A dead process comes to hold a handle exactly by a late open. */
  lemma StrayExact(e: Event, a: State, b: State, i: nat)
    requires Does(e, a, b) && i < |a.procs| && Tidy(a.procs[i]) && !Stray(a.procs[i])
    ensures |b.procs| == |a.procs| && (Stray(b.procs[i]) <==> LateOpen(e, a, i))
  {
    EmptiedHolds(a.procs[i].fds);
    match e {
      case OpenEvent(cwd, path, flags) =>
        if OpenWorks(a, cwd, path, flags) {
          OpenedStray(a, b, cwd, path, flags);
        }
      case _ =>
    }
  }

  method DoBegin(t: FdTable, i: nat)
    requires t.Valid()
    modifies t`procs, t`current, t`saved
    ensures t.Valid() && Does(BeginEvent(i), old(t.View()), t.View())
  {
    if i < |t.procs| {
      t.Begin(i);
    }
  }

  method DoKill(t: FdTable, i: nat, killable: bool)
    requires t.Valid()
    modifies t`procs, t`owner, t.f`files
    ensures t.Valid() && Does(KillEvent(i, killable), old(t.View()), t.View())
  {
    if i < |t.procs| {
      var ret := t.Kill(i, killable);
    }
  }

  method DoReap(t: FdTable, i: nat)
    requires t.Valid()
    modifies t`procs, t`owner, t.f`files
    ensures t.Valid() && Does(ReapEvent(i), old(t.View()), t.View())
  {
    if i < |t.procs| {
      var ret := t.Reap(i);
    }
  }

  method DoStart(t: FdTable, fails: bool)
    requires t.Valid()
    modifies t`procs, t`owner, t.f`files
    ensures t.Valid() && Does(StartEvent(fails), old(t.View()), t.View())
  {
    var i := t.Start(fails);
  }

  method DoOpen(t: FdTable, cwd: Text, path: Text, flags: nat)
    requires t.Valid()
    modifies t`procs, t`owner, t.f`files, t.f.v
    ensures t.Valid() && Does(OpenEvent(cwd, path, flags), old(t.View()), t.View())
  {
    var ret := t.OpenFd(cwd, path, flags);
  }

  method DoClose(t: FdTable, fd: int)
    requires t.Valid()
    modifies t`procs, t`owner, t.f`files
    ensures t.Valid() && Does(CloseEvent(fd), old(t.View()), t.View())
  {
    var ret := t.CloseFd(fd);
  }

  method DoEnd(t: FdTable, fault: bool)
    requires t.Valid()
    modifies t`procs, t`current, t`owner, t.f`files
    ensures t.Valid() && Does(EndEvent(fault), old(t.View()), t.View())
  {
    t.End(fault);
  }

  method DoReapAll(t: FdTable)
    requires t.Valid()
    modifies t`procs, t`owner, t.f`files
    ensures t.Valid() && Does(ReapAllEvent, old(t.View()), t.View())
  {
    t.ReapAll();
  }

  /** Any event. */
  method Step(t: FdTable, e: Event)
    requires t.Valid()
    modifies t`procs, t`current, t`saved, t`owner, t.f`files, t.f.v
    ensures t.Valid() && Does(e, old(t.View()), t.View())
  {
    match e {
      case StartEvent(fails) => DoStart(t, fails);
      case BeginEvent(i) => DoBegin(t, i);
      case OpenEvent(cwd, path, flags) => DoOpen(t, cwd, path, flags);
      case CloseEvent(fd) => DoClose(t, fd);
      case EndEvent(fault) => DoEnd(t, fault);
      case KillEvent(i, killable) => DoKill(t, i, killable);
      case ReapEvent(i) => DoReap(t, i);
      case ReapAllEvent => DoReapAll(t);
    }
  }

  ghost predicate AllTidy(a: State) {
    |a.procs| == MAX_USER_PROCESSES && forall i :: 0 <= i < |a.procs| ==> Tidy(a.procs[i])
  }

  /** states[k] is what event k found; in each of them the process table is tidy. */
  ghost predicate Ran(events: seq<Event>, states: seq<State>, n: nat) {
    && n <= |events| && |states| == n + 1
    && (forall k :: 0 <= k < |states| ==> AllTidy(states[k]))
    && (forall k :: 0 <= k < n ==> Does(events[k], states[k], states[k + 1]))
  }

  lemma RanMore(events: seq<Event>, states: seq<State>, n: nat, b: State)
    requires n < |events| && Ran(events, states, n) && Does(events[n], states[n], b) && AllTidy(b)
    ensures Ran(events, states + [b], n + 1)
  {
    var states' := states + [b];
    forall k | 0 <= k < n + 1 ensures Does(events[k], states'[k], states'[k + 1]) {
      if k < n {
        assert Does(events[k], states[k], states[k + 1]);
      }
    }
  }

  /** Every run of process starts, opens, closes, exits, faults, kills and reaps keeps every handle owned exactly once. */
  method Play(t: FdTable, events: seq<Event>) returns (ghost states: seq<State>)
    requires t.Valid()
    modifies t`procs, t`current, t`saved, t`owner, t.f`files, t.f.v
    ensures t.Valid() && Ran(events, states, |events|) && states[0] == old(t.View()) && states[|events|] == t.View()
  {
    ghost var start := t.View();
    states := [start];
    for k := 0 to |events|
      invariant t.Valid() && Ran(events, states, k) && states[0] == start && states[k] == t.View()
    {
      Step(t, events[k]);
      RanMore(events, states, k, t.View());
      states := states + [t.View()];
    }
  }

  ghost predicate AnyStray(a: State) {
    exists i :: 0 <= i < |a.procs| && Stray(a.procs[i])
  }

  ghost predicate AnyLate(e: Event, a: State) {
    exists i :: 0 <= i < |a.procs| && LateOpen(e, a, i)
  }

  ghost predicate NoStray(states: seq<State>, k: nat) {
    forall j :: 0 <= j < k && j < |states| ==> !AnyStray(states[j])
  }

  ghost predicate NoLate(events: seq<Event>, states: seq<State>, k: nat) {
    forall j :: 0 <= j < k && j < |events| && j < |states| ==> !AnyLate(events[j], states[j])
  }

  lemma FirstStray(e: Event, a: State, b: State)
    requires Does(e, a, b) && AllTidy(a) && !AnyStray(a)
    ensures AnyStray(b) <==> AnyLate(e, a)
  {
    forall i | 0 <= i < |a.procs| ensures |b.procs| == |a.procs| && (Stray(b.procs[i]) <==> LateOpen(e, a, i)) {
      StrayExact(e, a, b, i);
    }
  }

  /** In a run from a table without one, the first dead process to hold a handle got it by a late open, and a late open always
      gives it one. */
  lemma {:induction false} StrayOrigin(events: seq<Event>, states: seq<State>, k: nat)
    requires Ran(events, states, |events|) && k <= |events| && !AnyStray(states[0])
    ensures NoStray(states, k + 1) <==> NoLate(events, states, k)
  {
    if k > 0 {
      StrayOrigin(events, states, k - 1);
      if NoStray(states, k) {
        FirstStray(events[k - 1], states[k - 1], states[k]);
      }
    }
  }

  /** A begins, B begins, A goes on and kills B, then opens a file; whoever can be reaped is. */
  function KillThenOpen(cwd: Text, path: Text, flags: nat): seq<Event> {
    [StartEvent(false), StartEvent(false), BeginEvent(0), BeginEvent(1), KillEvent(1, true), OpenEvent(cwd, path, flags), ReapAllEvent]
  }

  ghost predicate NobodyYet(a: State) {
    AllTidy(a) && forall i :: 0 <= i < |a.procs| ==> a.procs[i] == Process(Free, NO_FDS)
  }

  lemma TwoStart(a: State, b: State, c: State)
    requires NobodyYet(a) && Does(StartEvent(false), a, b) && Does(StartEvent(false), b, c)
    ensures c == a.(procs := c.procs) && |c.procs| == |a.procs| && c.procs[0] == c.procs[1] == Process(Ready, START_FDS)
  {
    assert FreeProcess(a.procs, 0) == 0 && FreeProcess(b.procs, 0) == 1;
  }

  /** B is dead, current, and holds no handle. */
  lemma BeginAndKill(a: State, b: State, c: State, d: State)
    requires |a.procs| == MAX_USER_PROCESSES && a.procs[0] == a.procs[1] == Process(Ready, START_FDS)
    requires Does(BeginEvent(0), a, b) && Does(BeginEvent(1), b, c) && Does(KillEvent(1, true), c, d)
    ensures d == a.(procs := d.procs, current := 1, saved := 1) && |d.procs| == |a.procs| && d.procs[1] == Process(Killed, START_FDS)
  {
    assert c.procs[1] == Process(Running, START_FDS);
    assert Emptied(START_FDS) == START_FDS;
  }

  lemma OpenAndReap(a: State, b: State, c: State, cwd: Text, path: Text, flags: nat)
    requires a.current == 1 && |a.procs| == MAX_USER_PROCESSES && a.procs[1] == Process(Killed, START_FDS)
    requires OpenCode(a.tree, a.room, a.files, cwd, path, flags) == 0
    requires Does(OpenEvent(cwd, path, flags), a, b) && Does(ReapAllEvent, b, c)
    ensures LateOpen(OpenEvent(cwd, path, flags), a, 1) && c.current == 1 && |c.procs| == |a.procs| && Stray(c.procs[1])
  {
    assert UnusedFd(START_FDS, FIRST_FILE) == FIRST_FILE;
    OpenedStray(a, b, cwd, path, flags);
  }

  lemma AfterLateOpen(events: seq<Event>, a: seq<State>, cwd: Text, path: Text, flags: nat)
    requires events == KillThenOpen(cwd, path, flags) && Ran(events, a, |events|) && NobodyYet(a[0])
    requires OpenCode(a[0].tree, a[0].room, a[0].files, cwd, path, flags) == 0
    ensures LateOpen(events[5], a[5], 1) && a[7].current == 1 && Stray(a[7].procs[1])
  {
    assert Does(events[0], a[0], a[1]) && Does(events[1], a[1], a[2]);
    TwoStart(a[0], a[1], a[2]);
    assert Does(events[2], a[2], a[3]) && Does(events[3], a[3], a[4]) && Does(events[4], a[4], a[5]);
    BeginAndKill(a[2], a[3], a[4], a[5]);
    assert Does(events[5], a[5], a[6]) && Does(events[6], a[6], a[7]);
    OpenAndReap(a[5], a[6], a[7], cwd, path, flags);
  }

  /** So a dead process can hold a handle that reaping does not get at, for every open that works. */
  method OpenAfterKill(t: FdTable, cwd: Text, path: Text, flags: nat)
    requires t.Valid() && NobodyYet(t.View()) && OpenCode(t.f.T(), t.f.R(), t.f.files, cwd, path, flags) == 0
    modifies t`procs, t`current, t`saved, t`owner, t.f`files, t.f.v
    ensures t.Valid() && t.current == 1 && Stray(t.procs[1])
  {
    ghost var states := Play(t, KillThenOpen(cwd, path, flags));
    AfterLateOpen(KillThenOpen(cwd, path, flags), states, cwd, path, flags);
  }
}
