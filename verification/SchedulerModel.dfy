/**
 * The repair and migrate managers of the scheduler as one state machine.
 *
 * The durable part is the task tables, the cluster manager's mapping and its disk states.  The
 * volatile part is the queues, how far each handler has got with its task, the volume lock and
 * the repair manager's own fields.  One step is one durable write or one remote call of one
 * handler, so handlers of different tasks interleave freely and a restart may fall between any
 * two of their steps.
 */
module SchedulerModel {

  import opened Wrappers
  import opened ClusterMapping

  type TaskId = nat

  datatype Kind = Repair | Balance | DiskDrop | Manual

  datatype TaskState = Inited | Prepared | WorkCompleted | Finished | FinishedInAdvance

  /** A record of a task table that is not marked deleted. */
  datatype Task = Task(kind: Kind, state: TaskState, source: Vuid, dest: Option<Vuid>, disk: nat)
  {
    predicate Running() { state == Prepared || state == WorkCompleted }

    predicate Done() { state == Finished || state == FinishedInAdvance }

    function Vid(): nat { source.prefix.vid }
  }

  /** Which queue a task is in, or how far the handler that popped it has got. */
  datatype Phase =
    | Queued                                  // in the prepare queue
    | Locked                                  // volume lock taken
    | Current                                 // its source is still the mapped chunk
    | Moved                                   // to be finished in advance
    | Allocated(dest: Vuid)                   // destination handed out, nothing saved yet
    | Working(dest: Vuid)                     // in the work queue
    | Finishing(dest: Vuid)                   // in the finish queue
    | Saved(dest: Vuid)                       // this attempt has saved WorkCompleted
    | Proposed(dest: Vuid)                    // the update has passed the checks
    | Redoing(dest: Vuid)                     // the update was refused with a redo code
    | Reallocated(dest: Vuid, redo: Vuid)    // a new destination was handed out for the redo
    | Mapped(dest: Vuid)                      // the update was acknowledged
    | Stranded(dest: Vuid)                    // completed, in no queue until the next restart
  {
    predicate HoldsLock() { !Queued? }
  }

  datatype DiskStatus = Normal | Broken | Repairing | Repaired

  /** Task generation in progress: the chunks of the disk that still lack a record. */
  datatype Generation = Generation(disk: nat, remain: set<Vuid>, revising: bool)

  datatype State = State(
    table: map<TaskId, Task>,
    units: Mapping,
    disks: map<nat, DiskStatus>,
    phase: map<TaskId, Phase>,
    locks: set<nat>,
    repairing: Option<nat>,
    brokenDisk: Option<nat>,
    hasRevised: bool,
    gen: Option<Generation>,
    clearing: bool,
    panicked: bool)

  datatype CompleteResult = Completed | SaveFailed | SaveUnacknowledged

  /** What a handler does next with its task: one table write or one remote call. */
  datatype Op =
    | LockTask
    | ReadVolume
    | LockRefused
    | PrepareFailed(bumped: bool)
    | AllocDest
    | SavePrepared
    | FinishInAdvance
    | Reclaim(saved: bool)
    | Complete(result: CompleteResult)
    | SaveCompleted
    | CheckVolume(check: CheckFate)
    | ApplyVolume(disk: nat, fate: ApplyFate)
    | RedoAlloc
    | RedoAllocFailed(bumped: bool)
    | SaveRedo
    | ReleaseFailed
    | SaveFinished

  datatype Step =
    | OnTask(t: TaskId, op: Op)
    | AddTask(t: TaskId, kind: Kind, source: Vuid, disk: nat)
    | ClearFinished
    | ClearDropped(disk: nat)
    | DiskBreaks(disk: nat)
    | AcquireBroken(disk: nat)
    | StartGeneration
    | SkipRevise
    | InsertRepair(t: TaskId, source: Vuid)
    | EndGeneration
    | SetRepaired
    | ClearRepaired
    | StrayAlloc(id: UnitId)
    | Restart

  // ---- one task: its record, its place in memory and its unit ----

  datatype Local = Local(task: Task, phase: Option<Phase>, unit: Unit, panicked: bool)

  predicate OpEnabled(task: Task, p: Phase, op: Op) {
    match op
    case LockTask => p.Queued?
    case ReadVolume => p.Locked?
    case LockRefused => p.Current? && task.kind in {Balance, Manual}
    case PrepareFailed(bumped) =>
      && (p.Locked? || p.Current? || (p.Moved? && task.kind != Repair))
      && (bumped ==> p.Current?)
    case AllocDest => p.Current?
    case SavePrepared => p.Allocated?
    case FinishInAdvance => p.Moved?
    case Reclaim(_) => p.Working?
    case Complete(result) => p.Working? && (task.kind == Repair ==> result == Completed)
    case SaveCompleted => p.Finishing?
    case CheckVolume(_) => p.Saved?
    case ApplyVolume(_, _) => p.Proposed?
    case RedoAlloc => p.Redoing?
    case RedoAllocFailed(_) => p.Redoing?
    case SaveRedo => p.Reallocated?
    case ReleaseFailed => p.Mapped? && task.kind != Repair
    case SaveFinished => p.Mapped?
  }

  function Bump(u: Unit): Unit { u.(nextEpoch := u.nextEpoch + 1) }

  /** The destination that the next allocation for the task's unit hands out. */
  function NextDest(task: Task, u: Unit): Vuid {
    Vuid(task.source.prefix, u.nextEpoch + 1)
  }

  function Kept(task: Task, p: Phase, u: Unit): Local { Local(task, Some(p), u, false) }

  function SavedAs(task: Task, state: TaskState, dest: Vuid): Task {
    task.(state := state, dest := Some(dest))
  }

  /** What an error code makes of the task: a panic, a redo or another try. */
  function AfterCode(task: Task, dest: Vuid, u: Unit, code: Code): Local {
    if code == OldVuidNotMatch then Local(task, Some(Saved(dest)), u, true)
    else if ShouldAllocAndRedo(code) then Kept(task, Redoing(dest), u)
    else Kept(task, Finishing(dest), u)
  }

  function AfterCheck(task: Task, dest: Vuid, u: Unit, check: CheckFate): Local {
    if check == CheckLost then AfterCode(task, dest, u, OtherError)
    else
      match CheckUpdate(u, dest, task.source)
      case Refused(code) => AfterCode(task, dest, u, code)
      case Repeated => Kept(task, Mapped(dest), u)
      case Proposable =>
        if check == ChunkFails then AfterCode(task, dest, u, StatChunkFailed) else Kept(task, Proposed(dest), u)
  }

  function AfterApply(task: Task, dest: Vuid, u: Unit, disk: nat, fate: ApplyFate): Local {
    var unit := AppliedUnit(u, dest, disk, fate);
    if fate.applied && !fate.replyLost then Kept(task, Mapped(dest), unit)
    else AfterCode(task, dest, unit, OtherError)
  }

  function AfterComplete(task: Task, dest: Vuid, u: Unit, result: CompleteResult): Local {
    if task.kind == Repair then Kept(task, Finishing(dest), u)
    else if result == Completed then Kept(SavedAs(task, WorkCompleted, dest), Finishing(dest), u)
    else if result == SaveFailed then Kept(task, Stranded(dest), u)
    else Kept(SavedAs(task, WorkCompleted, dest), Stranded(dest), u)
  }

  function Perform(task: Task, p: Phase, u: Unit, op: Op): Local
    requires OpEnabled(task, p, op)
  {
    match op
    case LockTask => Kept(task, Locked, u)
    case ReadVolume => Kept(task, if u.epoch == task.source.epoch then Current else Moved, u)
    case LockRefused => Kept(task, Moved, u)
    case PrepareFailed(bumped) => Kept(task, Queued, if bumped then Bump(u) else u)
    case AllocDest => Kept(task, Phase.Allocated(NextDest(task, u)), Bump(u))
    case SavePrepared => Kept(SavedAs(task, Prepared, p.dest), Working(p.dest), u)
    case FinishInAdvance => Local(task.(state := FinishedInAdvance), None, u, false)
    case Reclaim(saved) =>
      var dest := NextDest(task, u);
      Kept(if saved then SavedAs(task, Prepared, dest) else task, Working(dest), Bump(u))
    case Complete(result) => AfterComplete(task, p.dest, u, result)
    case SaveCompleted => Kept(SavedAs(task, WorkCompleted, p.dest), Saved(p.dest), u)
    case CheckVolume(check) => AfterCheck(task, p.dest, u, check)
    case ApplyVolume(disk, fate) => AfterApply(task, p.dest, u, disk, fate)
    case RedoAlloc => Kept(task, Reallocated(p.dest, NextDest(task, u)), Bump(u))
    case RedoAllocFailed(bumped) => Kept(task, Finishing(p.dest), if bumped then Bump(u) else u)
    case SaveRedo => Kept(SavedAs(task, Prepared, p.redo), Working(p.redo), u)
    case ReleaseFailed => Kept(task, Finishing(p.dest), u)
    case SaveFinished => Local(task.(state := Finished), None, u, false)
  }

  // ---- the whole state ----

  predicate At(s: State, t: TaskId) {
    t in s.phase && t in s.table && s.table[t].source.prefix in s.units
  }

  function UnitOf(s: State, t: TaskId): Unit
    requires At(s, t)
  {
    s.units[s.table[t].source.prefix]
  }

  function OnDisk(s: State, disk: nat): set<Vuid> {
    set id | id in s.units && s.units[id].disk == disk :: Vuid(id, s.units[id].epoch)
  }

  predicate AllDone(s: State, kind: Kind) {
    forall t | t in s.table && s.table[t].kind == kind :: s.table[t].Done()
  }

  function RecordedOn(s: State, disk: nat): set<Vuid> {
    set t | t in s.table && s.table[t].kind == Repair && s.table[t].disk == disk :: s.table[t].source
  }

  /** The chunks for which generating the disk's tasks would add a record. */
  function Remain(s: State, disk: nat): set<Vuid> {
    OnDisk(s, disk) - RecordedOn(s, disk)
  }

  ghost predicate Enabled(s: State, step: Step) {
    !s.panicked &&
    match step
    case AddTask(t, kind, source, _) => kind != Repair && t !in s.table
    case OnTask(t, op) =>
      && At(s, t) && OpEnabled(s.table[t], s.phase[t], op)
      && (op.LockTask? ==> s.table[t].Vid() !in s.locks)
    case ClearFinished => true
    case ClearDropped(disk) => AllDone(s, DiskDrop)
    case DiskBreaks(disk) => disk in s.disks && s.disks[disk] == Normal
    case AcquireBroken(disk) =>
      && s.repairing.None? && s.brokenDisk.None? && s.gen.None?
      && disk in s.disks && s.disks[disk] == Broken
    case StartGeneration =>
      && s.gen.None?
      && (s.repairing.Some? || s.brokenDisk.Some?)
      && (s.repairing.Some? ==>
            !s.hasRevised && s.repairing.value in s.disks && s.disks[s.repairing.value] == Broken)
    case SkipRevise =>
      && s.gen.None? && s.repairing.Some? && !s.hasRevised
      && s.repairing.value in s.disks && s.disks[s.repairing.value] != Broken
    case InsertRepair(t, source) => s.gen.Some? && source in s.gen.value.remain && t !in s.table
    case EndGeneration => s.gen.Some? && s.gen.value.remain == {}
    case SetRepaired =>
      && s.repairing.Some? && AllDone(s, Repair) && OnDisk(s, s.repairing.value) == {}
      && s.repairing.value in s.disks && s.disks[s.repairing.value] in {Repairing, Repaired}
    case ClearRepaired => s.clearing && s.repairing.Some?
    case StrayAlloc(id) => id in s.units
    case Restart => LoadSucceeds(s.table)
  }

  // ---- what the managers' Load does ----

  /** Load panics when two running tasks share a volume or the repair records name two disks. */
  ghost predicate LoadSucceeds(table: map<TaskId, Task>) {
    && (forall t, r | t in table && r in table && t != r && table[t].Running() && table[r].Running() ::
          table[t].Vid() != table[r].Vid())
    && (forall t, r | t in table && r in table && table[t].kind == Repair && table[r].kind == Repair ::
          table[t].disk == table[r].disk)
  }

  function LoadedPhase(task: Task): Phase
    requires !task.Done()
    requires task.Running() ==> task.dest.Some?
  {
    if task.state == Inited then Queued
    else if task.state == Prepared then Working(task.dest.value)
    else Finishing(task.dest.value)
  }

  ghost predicate Loadable(table: map<TaskId, Task>) {
    forall t | t in table :: table[t].Running() ==> table[t].dest.Some?
  }

  ghost function LoadedPhases(table: map<TaskId, Task>): map<TaskId, Phase>
  {
    map t | t in table && !table[t].Done() && (table[t].Running() ==> table[t].dest.Some?) ::
      LoadedPhase(table[t])
  }

  ghost function LoadedLocks(table: map<TaskId, Task>): set<nat> {
    set t | t in table && table[t].Running() :: table[t].Vid()
  }

  ghost predicate HasRepairRecord(table: map<TaskId, Task>) {
    exists t :: t in table && table[t].kind == Repair
  }

  /** The disk of the repair records; Load reads it off the first one. */
  ghost function LoadedDisk(table: map<TaskId, Task>): Option<nat> {
    if HasRepairRecord(table) then
      var t :| t in table && table[t].kind == Repair;
      Some(table[t].disk)
    else
      None
  }

  // ---- effects ----

  /** Puts a task's new record, place and unit back; the volume is locked while a handler or a
      queue past the prepare queue has the task. */
  function Install(s: State, t: TaskId, l: Local): State
    requires At(s, t)
  {
    var vid := s.table[t].Vid();
    var holds := l.phase.Some? && l.phase.value.HoldsLock();
    s.(table := if l.task == s.table[t] then s.table else s.table[t := l.task],
       phase := if l.phase.Some? then s.phase[t := l.phase.value] else s.phase - {t},
       units := if l.unit == UnitOf(s, t) then s.units else s.units[s.table[t].source.prefix := l.unit],
       locks := if holds == (vid in s.locks) then s.locks else if holds then s.locks + {vid} else s.locks - {vid},
       panicked := l.panicked)
  }

  function AddRecord(s: State, t: TaskId, task: Task): State {
    s.(table := s.table[t := task], phase := s.phase[t := Queued])
  }

  function Without(table: map<TaskId, Task>, gone: Task -> bool): map<TaskId, Task> {
    map t | t in table && !gone(table[t]) :: table[t]
  }

  function RepairDisk(s: State): Option<nat> {
    if s.repairing.Some? then s.repairing else s.brokenDisk
  }

  ghost function Apply(s: State, step: Step): State
    requires Enabled(s, step)
  {
    match step
    case OnTask(t, op) =>
      Install(s, t, Perform(s.table[t], s.phase[t], UnitOf(s, t), op))
    case AddTask(t, kind, source, disk) =>
      AddRecord(s, t, Task(kind, Inited, source, None, disk))
    case ClearFinished =>
      s.(table := Without(s.table, (task: Task) => task.kind == Balance && task.Done()))
    case ClearDropped(disk) =>
      s.(table := Without(s.table, (task: Task) => task.kind == DiskDrop && task.disk == disk))
    case DiskBreaks(disk) =>
      s.(disks := s.disks[disk := Broken])
    case AcquireBroken(disk) =>
      s.(brokenDisk := Some(disk))
    case StartGeneration =>
      var disk := RepairDisk(s).value;
      s.(gen := Some(Generation(disk, Remain(s, disk), s.repairing.Some?)))
    case SkipRevise =>
      s.(hasRevised := true)
    case InsertRepair(t, source) =>
      AddRecord(s, t, Task(Repair, Inited, source, None, s.gen.value.disk))
      .(gen := Some(s.gen.value.(remain := s.gen.value.remain - {source})))
    case EndGeneration =>
      var disk := s.gen.value.disk;
      var s1 := s.(disks := s.disks[disk := Repairing], gen := None);
      if s.gen.value.revising then s1.(hasRevised := true)
      else s1.(repairing := Some(disk), brokenDisk := None)
    case SetRepaired =>
      s.(disks := s.disks[s.repairing.value := Repaired], clearing := true)
    case ClearRepaired =>
      var disk := s.repairing.value;
      s.(table := Without(s.table, (task: Task) => task.kind == Repair && task.disk == disk),
         repairing := None, clearing := false)
    case StrayAlloc(id) =>
      s.(units := ClusterMapping.Allocated(s.units, id))
    case Restart =>
      s.(phase := LoadedPhases(s.table), locks := LoadedLocks(s.table),
         repairing := LoadedDisk(s.table), brokenDisk := None, hasRevised := false,
         gen := None, clearing := false)
  }

  ghost predicate Init(s: State) {
    && s.table == map[] && s.phase == map[] && s.locks == {}
    && s.repairing.None? && s.brokenDisk.None? && s.gen.None?
    && !s.clearing && !s.panicked
    && forall id | id in s.units :: s.units[id].epoch <= s.units[id].nextEpoch
  }

  /** A run, and the state it ends in. */
  ghost predicate IsRun(s: State, steps: seq<Step>)
    decreases |steps|
  {
    steps == [] || (Enabled(s, steps[0]) && IsRun(Apply(s, steps[0]), steps[1..]))
  }

  ghost function Exec(s: State, steps: seq<Step>): State
    requires IsRun(s, steps)
    decreases |steps|
  {
    if steps == [] then s else Exec(Apply(s, steps[0]), steps[1..])
  }
}
