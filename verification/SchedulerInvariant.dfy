/**
 * The inductive invariant of the task managers.  It is kept by every step except one: a stray
 * allocation on a unit whose running task has already been mapped (see SchedulerTheorems).
 */
module SchedulerInvariant {

  import opened Wrappers
  import opened ClusterMapping
  import opened SchedulerModel

  // ---- one task ----

  predicate AtSource(u: Unit, task: Task) { u.epoch == task.source.epoch }

  predicate DestOk(u: Unit, task: Task, dest: Vuid) {
    dest.prefix == task.source.prefix && task.source.epoch < dest.epoch <= u.nextEpoch
  }

  /** The mapping has moved to dest and no later destination has been handed out. */
  predicate AppliedTo(u: Unit, dest: Vuid) { u.epoch == dest.epoch == u.nextEpoch }

  predicate IsPrepared(u: Unit, task: Task) {
    task.state == Prepared && AtSource(u, task) && task.dest.Some? && DestOk(u, task, task.dest.value)
  }

  predicate IsCompleted(u: Unit, task: Task, dest: Vuid) {
    && task.state == WorkCompleted && task.dest == Some(dest) && DestOk(u, task, dest)
    && (AtSource(u, task) || AppliedTo(u, dest))
  }

  predicate PhaseOk(u: Unit, task: Task, p: Phase) {
    match p
    case Queued => task.state == Inited
    case Locked => task.state == Inited
    case Moved => task.state == Inited
    case Current => task.state == Inited && AtSource(u, task)
    case Allocated(dest) => task.state == Inited && AtSource(u, task) && DestOk(u, task, dest)
    case Working(dest) => IsPrepared(u, task) && DestOk(u, task, dest)
    case Finishing(dest) => DestOk(u, task, dest) && (IsPrepared(u, task) || IsCompleted(u, task, dest))
    case Saved(dest) => IsCompleted(u, task, dest)
    case Proposed(dest) => IsCompleted(u, task, dest) && AtSource(u, task)
    case Redoing(dest) => IsCompleted(u, task, dest) && AtSource(u, task)
    case Reallocated(dest, redo) =>
      IsCompleted(u, task, dest) && AtSource(u, task) && DestOk(u, task, redo)
    case Mapped(dest) => IsCompleted(u, task, dest)
    case Stranded(dest) =>
      && DestOk(u, task, dest) && AtSource(u, task)
      && (IsPrepared(u, task) || IsCompleted(u, task, dest))
  }

  /** A record has a destination from the moment it is prepared. */
  predicate DestSaved(task: Task) {
    task.state == Inited || task.state == FinishedInAdvance ==> task.dest.None?
  }

  predicate Holds(s: State, t: TaskId) {
    t in s.phase && s.phase[t].HoldsLock()
  }

  /** An unfinished record has exactly one place in memory, and the two agree with the mapping. */
  predicate TaskOk(s: State, t: TaskId)
    requires t in s.table
  {
    && (t in s.phase <==> !s.table[t].Done()) && DestSaved(s.table[t])
    && (t in s.phase && s.phase[t] == Queued ==> s.table[t].state == Inited)
    && (Holds(s, t) ==> At(s, t) && PhaseOk(UnitOf(s, t), s.table[t], s.phase[t]))
  }

  // ---- all tasks ----

  ghost predicate UnitsOk(s: State) {
    forall id | id in s.units :: s.units[id].epoch <= s.units[id].nextEpoch
  }

  ghost predicate TasksOk(s: State) {
    && (forall t | t in s.phase :: t in s.table)
    && (forall t | t in s.table :: TaskOk(s, t))
  }

  /** A volume is locked exactly when one task holds it. */
  ghost predicate LocksOk(s: State) {
    LocksHeld(s) && LocksDistinct(s) && LocksUsed(s)
  }

  ghost predicate CoreInv(s: State) {
    !s.panicked && UnitsOk(s) && TasksOk(s) && LocksOk(s)
  }

  // ---- the repair manager's disk ----

  predicate IsRepair(s: State, t: TaskId) { t in s.table && s.table[t].kind == Repair }

  predicate Is(s: State, disk: nat, status: DiskStatus) {
    disk in s.disks && s.disks[disk] == status
  }

  ghost predicate OneDisk(s: State) {
    forall t | IsRepair(s, t) :: RepairDisk(s) == Some(s.table[t].disk)
  }

  ghost predicate OneRecordPerSource(s: State) {
    forall t, r | IsRepair(s, t) && IsRepair(s, r) && t != r :: s.table[t].source != s.table[r].source
  }

  ghost predicate GenOk(s: State) {
    s.gen.Some? ==>
      && RepairDisk(s) == Some(s.gen.value.disk)
      && s.gen.value.revising == s.repairing.Some?
      && Is(s, s.gen.value.disk, Broken)
      && forall t | IsRepair(s, t) :: s.table[t].source !in s.gen.value.remain
  }

  ghost predicate RepairInv(s: State) {
    && OneDisk(s) && OneRecordPerSource(s) && GenOk(s)
    && (s.repairing.Some? ==> s.brokenDisk.None?)
    && (s.brokenDisk.Some? ==> Is(s, s.brokenDisk.value, Broken))
    && (s.clearing ==> s.repairing.Some? && Is(s, s.repairing.value, Repaired) && AllDone(s, Repair))
  }

  ghost predicate Inv(s: State) {
    CoreInv(s) && RepairInv(s)
  }

  // ---- the one unsafe step ----

  /** A running task of unit id whose destination is the chunk in use. */
  ghost predicate AppliedAt(s: State, id: UnitId) {
    exists t :: t in s.table && IsAppliedAt(s, t, id)
  }

  predicate IsAppliedAt(s: State, t: TaskId, id: UnitId)
    requires t in s.table
  {
    && id in s.units && s.table[t].source.prefix == id
    && s.table[t].state == WorkCompleted && s.table[t].dest == Some(Vuid(id, s.units[id].epoch))
  }

  /** Every step is safe but an allocation that overtakes an applied update. */
  ghost predicate Safe(s: State, step: Step) {
    step.StrayAlloc? ==> !AppliedAt(s, step.id)
  }

  // ---- framing: a step that concerns one task ----

  ghost predicate OthersKept(s: State, s': State, t: TaskId) {
    && s'.table.Keys == s.table.Keys + {t}
    && (t in s.table ==> s'.table[t].source == s.table[t].source)
    && (forall r | r in s.table && r != t :: s'.table[r] == s.table[r])
    && (forall r | r != t :: (r in s'.phase <==> r in s.phase))
    && (forall r | r in s.phase && r != t :: s'.phase[r] == s.phase[r])
    && s'.units.Keys == s.units.Keys
    && (forall id | id in s.units ::
          s'.units[id] == s.units[id] || (Holds(s, t) && t in s.table && id == s.table[t].source.prefix))
  }

  ghost predicate LocksFollow(s: State, s': State, t: TaskId)
    requires t in s'.table
  {
    var vid := s'.table[t].Vid();
    if Holds(s', t) then s'.locks == s.locks + {vid} && (Holds(s, t) || vid !in s.locks)
    else if Holds(s, t) then s'.locks == s.locks - {vid}
    else s'.locks == s.locks
  }

  lemma TaskStep(s: State, s': State, t: TaskId)
    requires CoreInv(s) && !s'.panicked
    requires OthersKept(s, s', t) && t in s'.table
    requires UnitsOk(s') && TaskOk(s', t) && LocksFollow(s, s', t)
    ensures CoreInv(s')
  {
    forall r | r in s'.table
      ensures TaskOk(s', r)
    {
      if r != t {
        assert TaskOk(s, r);
        if Holds(s, r) && Holds(s, t) {
          assert s.table[r].Vid() != s.table[t].Vid();
        }
      }
    }
    LocksStep(s, s', t);
  }

  ghost predicate LocksDistinct(s: State) {
    forall t, r | t in s.table && r in s.table && t != r && Holds(s, t) && Holds(s, r) ::
      s.table[t].Vid() != s.table[r].Vid()
  }

  ghost predicate LocksHeld(s: State) {
    forall t | t in s.table && Holds(s, t) :: s.table[t].Vid() in s.locks
  }

  ghost predicate LocksUsed(s: State) {
    forall v | v in s.locks :: exists t :: t in s.table && Holds(s, t) && s.table[t].Vid() == v
  }

  lemma LocksStep(s: State, s': State, t: TaskId)
    requires LocksOk(s) && (forall r | r in s.phase :: r in s.table)
    requires OthersKept(s, s', t) && t in s'.table && LocksFollow(s, s', t)
    ensures LocksOk(s')
  {
    HeldStep(s, s', t);
    UsedStep(s, s', t);
    hide OthersKept, LocksFollow, Holds;
  }

  lemma HeldStep(s: State, s': State, t: TaskId)
    requires LocksHeld(s) && LocksDistinct(s) && LocksUsed(s) && (forall r | r in s.phase :: r in s.table)
    requires OthersKept(s, s', t) && t in s'.table && LocksFollow(s, s', t)
    ensures LocksHeld(s') && LocksDistinct(s')
  {
    hide LocksUsed;
    forall r | r in s'.table && Holds(s', r)
      ensures s'.table[r].Vid() in s'.locks
    {
      if r != t {
        assert Holds(s, r) && s.table[r].Vid() in s.locks;
      }
    }
  }

  lemma UsedStep(s: State, s': State, t: TaskId)
    requires LocksHeld(s) && LocksDistinct(s) && LocksUsed(s) && (forall r | r in s.phase :: r in s.table)
    requires OthersKept(s, s', t) && t in s'.table && LocksFollow(s, s', t)
    ensures LocksUsed(s')
  {
    hide LocksDistinct;
    var vid := s'.table[t].Vid();
    forall v | v in s'.locks
      ensures exists r :: r in s'.table && Holds(s', r) && s'.table[r].Vid() == v
    {
      if v == vid && Holds(s', t) {
      } else {
        assert v in s.locks;
        var r :| r in s.table && Holds(s, r) && s.table[r].Vid() == v;
        assert r != t;
        assert r in s'.table && Holds(s', r) && s'.table[r].Vid() == v;
      }
    }
  }

  // ---- one task on its own ----

  predicate LocalOk(l: Local) {
    && !l.panicked && l.unit.epoch <= l.unit.nextEpoch
    && (l.phase.Some? <==> !l.task.Done()) && DestSaved(l.task)
    && (l.phase.Some? ==> PhaseOk(l.unit, l.task, l.phase.value))
  }

  /** The mapping is the source or the destination, so the update is never refused for the old
      chunk; and once it is the destination, no redo code can come back. */
  lemma CheckKeepsLocal(task: Task, dest: Vuid, u: Unit, check: CheckFate)
    requires LocalOk(Kept(task, Saved(dest), u))
    ensures LocalOk(AfterCheck(task, dest, u, check))
  {
    assert CheckUpdate(u, dest, task.source) != Refused(OldVuidNotMatch);
  }

  lemma ApplyKeepsLocal(task: Task, dest: Vuid, u: Unit, disk: nat, fate: ApplyFate)
    requires LocalOk(Kept(task, Proposed(dest), u))
    ensures LocalOk(AfterApply(task, dest, u, disk, fate))
  {
  }

  /** Whatever a handler does next with its task, record, place and unit stay consistent. */
  lemma PerformKeepsLocal(task: Task, p: Phase, u: Unit, op: Op)
    requires LocalOk(Kept(task, p, u)) && OpEnabled(task, p, op)
    ensures LocalOk(Perform(task, p, u, op))
  {
    hide LocalOk, Kept;
    if op.CheckVolume? {
      CheckKeepsLocal(task, p.dest, u, op.check);
    } else if op.ApplyVolume? {
      ApplyKeepsLocal(task, p.dest, u, op.disk, op.fate);
    } else {
      OtherKeepsLocal(task, p, u, op);
    }
  }

  lemma OtherKeepsLocal(task: Task, p: Phase, u: Unit, op: Op)
    requires LocalOk(Kept(task, p, u)) && OpEnabled(task, p, op) && !op.CheckVolume? && !op.ApplyVolume?
    ensures LocalOk(Perform(task, p, u, op))
  {
    hide AfterCheck, AfterApply;
  }

  lemma PerformKeepsIdentity(task: Task, p: Phase, u: Unit, op: Op)
    requires OpEnabled(task, p, op)
    ensures var task' := Perform(task, p, u, op).task;
            task'.source == task.source && task'.disk == task.disk && task'.kind == task.kind
  {
  }

  lemma LocalOf(s: State, t: TaskId)
    requires CoreInv(s) && At(s, t)
    ensures LocalOk(Kept(s.table[t], s.phase[t], UnitOf(s, t)))
    ensures Holds(s, t) ==> s.table[t].Vid() in s.locks
  {
    assert TaskOk(s, t);
  }

  lemma QueuedKeepsUnit(task: Task, p: Phase, u: Unit, op: Op)
    requires OpEnabled(task, p, op) && p.Queued?
    ensures Perform(task, p, u, op).unit == u && op == LockTask
  {
  }

  lemma OnTaskKeepsCore(s: State, t: TaskId, op: Op)
    requires CoreInv(s) && Enabled(s, OnTask(t, op))
    ensures CoreInv(Apply(s, OnTask(t, op)))
  {
    hide Perform, LocalOk, CoreInv, Install;
    LocalOf(s, t);
    PerformKeepsLocal(s.table[t], s.phase[t], UnitOf(s, t), op);
    PerformKeepsIdentity(s.table[t], s.phase[t], UnitOf(s, t), op);
    if s.phase[t].Queued? {
      QueuedKeepsUnit(s.table[t], s.phase[t], UnitOf(s, t), op);
    }
    InstallKeeps(s, t, Perform(s.table[t], s.phase[t], UnitOf(s, t), op));
  }

  lemma InstallKeeps(s: State, t: TaskId, l: Local)
    requires CoreInv(s) && At(s, t)
    requires LocalOk(l) && l.task.source == s.table[t].source
    requires Holds(s, t) || (l.unit == UnitOf(s, t) && s.table[t].Vid() !in s.locks)
    ensures CoreInv(Install(s, t, l))
  {
    assert TaskOk(s, t);
    TaskStep(s, Install(s, t, l), t);
  }

  lemma InsertKeeps(s: State, s': State, t: TaskId, task: Task)
    requires CoreInv(s) && t !in s.table && task.state == Inited && task.dest.None?
    requires s'.table == s.table[t := task] && s'.phase == s.phase[t := Queued]
    requires s'.units == s.units && s'.locks == s.locks && !s'.panicked
    ensures CoreInv(s')
  {
    TaskStep(s, s', t);
  }

  /** Deleting finished records touches neither a queue nor a lock. */
  lemma ClearKeeps(s: State, s': State)
    requires CoreInv(s)
    requires s'.phase == s.phase && s'.locks == s.locks && s'.units == s.units && !s'.panicked
    requires forall t | t in s'.table :: t in s.table && s'.table[t] == s.table[t]
    requires forall t | t in s.table && t !in s'.table :: s.table[t].Done()
    ensures CoreInv(s')
  {
    forall t | t in s'.phase ensures t in s'.table {
      assert TaskOk(s, t);
    }
    forall t | t in s'.table ensures TaskOk(s', t) {
      assert TaskOk(s, t);
    }
    forall v | v in s'.locks
      ensures exists t :: t in s'.table && Holds(s', t) && s'.table[t].Vid() == v
    {
      var t :| t in s.table && Holds(s, t) && s.table[t].Vid() == v;
      assert TaskOk(s, t);
      assert t in s'.table && Holds(s', t);
    }
  }

  lemma StrayTask(s: State, id: UnitId, t: TaskId)
    requires id in s.units && t in s.table && TaskOk(s, t) && !IsAppliedAt(s, t, id)
    ensures TaskOk(s.(units := s.units[id := Bump(s.units[id])]), t)
  {
  }

  lemma StrayKeeps(s: State, id: UnitId)
    requires CoreInv(s) && id in s.units && !AppliedAt(s, id)
    ensures CoreInv(Apply(s, StrayAlloc(id)))
  {
    hide TaskOk, IsAppliedAt, LocksOk;
    var s' := Apply(s, StrayAlloc(id));
    assert s' == s.(units := s.units[id := Bump(s.units[id])]);
    forall t | t in s'.table
      ensures TaskOk(s', t)
    {
      StrayTask(s, id, t);
    }
    SameLocks(s, s');
  }

  lemma SameLocks(s: State, s': State)
    requires LocksOk(s) && s'.table == s.table && s'.phase == s.phase && s'.locks == s.locks
    ensures LocksOk(s')
  {
    assert forall t :: Holds(s', t) <==> Holds(s, t);
  }

  // ---- restart ----

  /** Before any restart the running records are on different volumes and the repair records on
      one disk: Load cannot panic. */
  lemma LoadNeverPanics(s: State)
    requires Inv(s)
    ensures LoadSucceeds(s.table)
  {
    forall t | t in s.table && s.table[t].Running()
      ensures Holds(s, t)
    {
      RunningHolds(s, t);
    }
    hide TasksOk, GenOk, LocksHeld, LocksUsed, Holds;
    forall t, r | t in s.table && r in s.table && s.table[t].kind == Repair && s.table[r].kind == Repair
      ensures s.table[t].disk == s.table[r].disk
    {
      assert IsRepair(s, t) && IsRepair(s, r);
    }
  }

  lemma RunningHolds(s: State, t: TaskId)
    requires TasksOk(s) && t in s.table && s.table[t].Running()
    ensures Holds(s, t)
  {
    assert TaskOk(s, t);
  }

  lemma RestartedTask(s: State, t: TaskId)
    requires TasksOk(s) && Enabled(s, Restart) && t in s.table
    ensures var s' := Apply(s, Restart);
            TaskOk(s', t) && (Holds(s', t) <==> s.table[t].Running())
  {
    hide LoadSucceeds, LoadedLocks, LoadedDisk;
    assert TaskOk(s, t);
  }

  lemma RestartKeepsCore(s: State)
    requires CoreInv(s) && Enabled(s, Restart)
    ensures CoreInv(Apply(s, Restart))
  {
    var s' := Apply(s, Restart);
    assert s'.table == s.table && s'.units == s.units;
    forall t | t in s.table
      ensures TaskOk(s', t) && (Holds(s', t) <==> s.table[t].Running())
    {
      RestartedTask(s, t);
    }
    RestartKeepsLocks(s, s');
  }

  lemma RestartKeepsLocks(s: State, s': State)
    requires LoadSucceeds(s.table) && s'.table == s.table && s'.locks == LoadedLocks(s.table)
    requires forall t | t in s.table :: Holds(s', t) <==> s.table[t].Running()
    ensures LocksOk(s')
  {
    forall v | v in s'.locks
      ensures exists t :: t in s'.table && Holds(s', t) && s'.table[t].Vid() == v
    {
      var t :| t in s.table && s.table[t].Running() && s.table[t].Vid() == v;
      assert Holds(s', t);
    }
  }

  lemma RestartKeepsRepair(s: State)
    requires RepairInv(s) && Enabled(s, Restart)
    ensures RepairInv(Apply(s, Restart))
  {
    var s' := Apply(s, Restart);
    if HasRepairRecord(s.table) {
      var w :| w in s.table && s.table[w].kind == Repair && LoadedDisk(s.table) == Some(s.table[w].disk);
      forall t | IsRepair(s', t)
        ensures RepairDisk(s') == Some(s'.table[t].disk)
      {
      }
    }
    forall t, r | IsRepair(s', t) && IsRepair(s', r) && t != r
      ensures s'.table[t].source != s'.table[r].source
    {
      assert IsRepair(s, t) && IsRepair(s, r);
    }
  }

  // ---- the repair part ----

  /** A step on an existing record leaves what the repair manager relies on. */
  lemma TaskKeepsRepair(s: State, s': State)
    requires RepairInv(s)
    requires s'.disks == s.disks && s'.repairing == s.repairing && s'.brokenDisk == s.brokenDisk
    requires s'.gen == s.gen && s'.clearing == s.clearing
    requires forall t | IsRepair(s', t) :: IsRepair(s, t)
               && s'.table[t].source == s.table[t].source && s'.table[t].disk == s.table[t].disk
               && (s.table[t].Done() ==> s'.table[t].Done())
    ensures RepairInv(s')
  {
    forall t, r | IsRepair(s', t) && IsRepair(s', r) && t != r
      ensures s'.table[t].source != s'.table[r].source
    {
      assert IsRepair(s, t) && IsRepair(s, r);
    }
    forall t | IsRepair(s', t)
      ensures RepairDisk(s') == Some(s'.table[t].disk)
      ensures s.gen.Some? ==> s'.table[t].source !in s'.gen.value.remain
      ensures s'.clearing ==> s'.table[t].Done()
    {
      assert IsRepair(s, t);
    }
  }

  lemma RepairStepKeeps(s: State, step: Step)
    requires Inv(s) && Enabled(s, step)
    requires step.DiskBreaks? || step.AcquireBroken? || step.StartGeneration? || step.SkipRevise?
             || step.EndGeneration? || step.SetRepaired?
    ensures RepairInv(Apply(s, step))
  {
    hide CoreInv;
    var s' := Apply(s, step);
    assert s'.table == s.table;
    forall t | IsRepair(s', t)
      ensures IsRepair(s, t)
    {
    }
    if step.StartGeneration? {
      var disk := s'.gen.value.disk;
      forall t | IsRepair(s', t)
        ensures s'.table[t].source !in s'.gen.value.remain
      {
        assert s.table[t].source in RecordedOn(s, disk);
      }
    }
  }

  lemma InsertRepairKeepsRepair(s: State, t: TaskId, source: Vuid)
    requires RepairInv(s) && Enabled(s, InsertRepair(t, source))
    ensures RepairInv(Apply(s, InsertRepair(t, source)))
  {
    var s' := Apply(s, InsertRepair(t, source));
    forall r | IsRepair(s', r)
      ensures r == t || IsRepair(s, r)
      ensures s'.table[r].source !in s'.gen.value.remain
      ensures RepairDisk(s') == Some(s'.table[r].disk)
    {
    }
    forall r, q | IsRepair(s', r) && IsRepair(s', q) && r != q
      ensures s'.table[r].source != s'.table[q].source
    {
      if r != t && q != t {
        assert IsRepair(s, r) && IsRepair(s, q);
      }
    }
  }

  lemma InsertRepairKeeps(s: State, t: TaskId, source: Vuid)
    requires Inv(s) && Enabled(s, InsertRepair(t, source))
    ensures Inv(Apply(s, InsertRepair(t, source)))
  {
    hide CoreInv, RepairInv;
    InsertKeeps(s, Apply(s, InsertRepair(t, source)), t, Task(Repair, Inited, source, None, s.gen.value.disk));
    InsertRepairKeepsRepair(s, t, source);
  }

  lemma ClearRepairedKeeps(s: State)
    requires Inv(s) && Enabled(s, ClearRepaired)
    ensures Inv(Apply(s, ClearRepaired))
  {
    var s' := Apply(s, ClearRepaired);
    ClearKeeps(s, s');
    forall t | IsRepair(s', t)
      ensures false
    {
      assert IsRepair(s, t);
    }
  }

  lemma OnTaskKeepsRepair(s: State, t: TaskId, op: Op)
    requires Inv(s) && Enabled(s, OnTask(t, op))
    ensures RepairInv(Apply(s, OnTask(t, op)))
  {
    assert TaskOk(s, t);
    PerformKeepsIdentity(s.table[t], s.phase[t], UnitOf(s, t), op);
    TaskKeepsRepair(s, Install(s, t, Perform(s.table[t], s.phase[t], UnitOf(s, t), op)));
  }

  // ---- all steps ----

  lemma TableStepKeeps(s: State, step: Step)
    requires Inv(s) && Enabled(s, step)
    requires step.AddTask? || step.ClearFinished? || step.ClearDropped?
    ensures Inv(Apply(s, step))
  {
    var s' := Apply(s, step);
    if step.AddTask? {
      InsertKeeps(s, s', step.t, Task(step.kind, Inited, step.source, None, step.disk));
    } else {
      ClearKeeps(s, s');
    }
    TaskKeepsRepair(s, s');
  }

  lemma DiskStepKeeps(s: State, step: Step)
    requires Inv(s) && Enabled(s, step)
    requires step.DiskBreaks? || step.AcquireBroken? || step.StartGeneration? || step.SkipRevise?
             || step.EndGeneration? || step.SetRepaired?
    ensures Inv(Apply(s, step))
  {
    hide CoreInv, RepairInv, Apply, Enabled;
    RepairStepKeeps(s, step);
    DiskStepFrame(s, step);
    ClearKeeps(s, Apply(s, step));
  }

  lemma DiskStepFrame(s: State, step: Step)
    requires Enabled(s, step)
    requires step.DiskBreaks? || step.AcquireBroken? || step.StartGeneration? || step.SkipRevise?
             || step.EndGeneration? || step.SetRepaired?
    ensures var s' := Apply(s, step);
      s'.table == s.table && s'.phase == s.phase && s'.locks == s.locks && s'.units == s.units && !s'.panicked
  {
  }

  lemma StrayKeepsInv(s: State, id: UnitId)
    requires Inv(s) && Enabled(s, StrayAlloc(id)) && Safe(s, StrayAlloc(id))
    ensures Inv(Apply(s, StrayAlloc(id)))
  {
    hide CoreInv;
    StrayKeeps(s, id);
    TaskKeepsRepair(s, Apply(s, StrayAlloc(id)));
  }

  lemma StepKeepsInv(s: State, step: Step)
    requires Inv(s) && Enabled(s, step) && Safe(s, step)
    ensures Inv(Apply(s, step))
  {
    hide CoreInv, RepairInv, Enabled, Apply, Safe;
    match step
    case OnTask(t, op) =>
      OnTaskKeepsCore(s, t, op);
      OnTaskKeepsRepair(s, t, op);
    case InsertRepair(t, source) => InsertRepairKeeps(s, t, source);
    case ClearRepaired => ClearRepairedKeeps(s);
    case StrayAlloc(id) => StrayKeepsInv(s, id);
    case Restart =>
      RestartKeepsCore(s);
      RestartKeepsRepair(s);
    case _ =>
      if step.AddTask? || step.ClearFinished? || step.ClearDropped? {
        TableStepKeeps(s, step);
      } else {
        DiskStepKeeps(s, step);
      }
  }
}
