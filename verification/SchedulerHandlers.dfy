/**
 * The managers' handlers in the form the scheduler runs them: queues, tables and the volume
 * lock are updated in place, and every handler is a safe run of the state machine.
 */
module SchedulerHandlers {

  import opened Wrappers
  import opened ClusterMapping
  import opened SchedulerModel
  import opened SchedulerInvariant
  import opened SchedulerTheorems
  import opened SchedulerRuns

  /** Where the handler has got with its task makes no difference to what it installs. */
  lemma AnyPlace(s: State, t: TaskId, p: Phase, l: Local)
    requires At(s, t)
    ensures Install(s.(phase := s.phase[t := p]), t, l) == Install(s, t, l)
  {
    assert Install(s.(phase := s.phase[t := p]), t, l).phase == Install(s, t, l).phase;
  }

  lemma AdvanceAlloc(s: State, m: State, t: TaskId, alloc: AllocFate) returns (e: State)
    requires Leads(s, m) && !m.panicked && At(m, t) && m.phase[t].Current?
    ensures Leads(s, e) && e == Install(m, t, WithNewDest(m.table[t], Queued, UnitOf(m, t), alloc))
  {
    hide Leads;
    if alloc.Given? {
      e := Advance(s, m, t, AllocDest);
      e := Advance(s, e, t, SavePrepared);
      assert e.units == m.units[m.table[t].source.prefix := Bump(UnitOf(m, t))];
    } else {
      e := Advance(s, m, t, PrepareFailed(alloc.TakenButLost?));
    }
  }

  lemma AdvanceRedo(s: State, m: State, t: TaskId, alloc: AllocFate) returns (e: State)
    requires Leads(s, m) && !m.panicked && At(m, t) && m.phase[t].Redoing?
    ensures Leads(s, e) && e == Install(m, t, WithNewDest(m.table[t], Finishing(m.phase[t].dest), UnitOf(m, t), alloc))
  {
    hide Leads;
    if alloc.Given? {
      e := Advance(s, m, t, RedoAlloc);
      e := Advance(s, e, t, SaveRedo);
      assert e.units == m.units[m.table[t].source.prefix := Bump(UnitOf(m, t))];
    } else {
      e := Advance(s, m, t, RedoAllocFailed(alloc.TakenButLost?));
    }
  }

  /** Locking the volume first makes no difference to where the handler's task ends up. */
  lemma SameInstall(s: State, locked: State, t: TaskId, l: Local)
    requires At(s, t) && s.table[t].Vid() !in s.locks && locked == s.(locks := s.locks + {s.table[t].Vid()})
    ensures Install(locked, t, l) == Install(s, t, l)
  {
    assert Install(locked, t, l).locks == Install(s, t, l).locks;
  }

  /** Nor does saving the work as completed, which every outcome of finishing includes. */
  lemma SameFinish(s: State, saved: State, t: TaskId, dest: Vuid, env: FinishEnv)
    requires At(s, t) && saved == s.(table := s.table[t := SavedAs(s.table[t], WorkCompleted, dest)])
    ensures var l := FinishOutcome(s.table[t], dest, UnitOf(s, t), env);
            Install(saved, t, FinishOutcome(saved.table[t], dest, UnitOf(saved, t), env)) == Install(s, t, l)
  {
    var l := FinishOutcome(s.table[t], dest, UnitOf(s, t), env);
    assert FinishOutcome(saved.table[t], dest, UnitOf(s, t), env) == l;
    assert Install(saved, t, l).table == Install(s, t, l).table;
  }

  lemma AdvanceStart(s: State, m: State, disk: nat) returns (e: State)
    requires Leads(s, m) && Enabled(m, StartGeneration) && RepairDisk(m) == Some(disk)
    ensures Leads(s, e) && Remain(e, disk) == Remain(m, disk)
    ensures e == m.(gen := Some(Generation(disk, Remain(m, disk), m.repairing.Some?)))
  {
    e := AdvanceWith(s, m, StartGeneration);
    SameRemain(m, e, disk);
  }

  lemma RemainIs(s: State, disk: nat, remain: set<Vuid>)
    requires remain == OnDisk(s, disk) - RecordedOn(s, disk)
    ensures remain == Remain(s, disk)
  {
  }

  lemma SameRemain(a: State, b: State, disk: nat)
    requires a.table == b.table && a.units == b.units
    ensures Remain(a, disk) == Remain(b, disk)
  {
    assert OnDisk(a, disk) == OnDisk(b, disk) && RecordedOn(a, disk) == RecordedOn(b, disk);
  }

  lemma AdvanceInsert(s: State, m: State, t: TaskId, v: Vuid) returns (e: State)
    requires Leads(s, m) && m.gen.Some? && m.gen.value.remain == Remain(m, m.gen.value.disk)
    requires !m.panicked && v in m.gen.value.remain && t !in m.table
    ensures Leads(s, e) && e.gen.Some? && e.gen.value.remain == Remain(e, m.gen.value.disk)
    ensures e == AddRecord(m, t, Task(Repair, Inited, v, None, m.gen.value.disk))
                 .(gen := Some(m.gen.value.(remain := m.gen.value.remain - {v})))
  {
    InsertFollowsRemain(m, t, v);
    e := AdvanceWith(s, m, InsertRepair(t, v));
  }

  /** What Load has built after reading the records in seen. */
  ghost predicate ReadSoFar(table: map<TaskId, Task>, seen: set<TaskId>, queue: map<TaskId, Phase>, locks: set<nat>,
                            disk: Option<nat>)
    requires Loadable(table)
  {
    && (forall t :: t in queue <==> t in table && t in seen && !table[t].Done())
    && (forall t | t in queue :: queue[t] == LoadedPhase(table[t]))
    && locks == (set t | t in table && t in seen && table[t].Running() :: table[t].Vid())
    && (forall t | t in table && t in seen && table[t].kind == Repair :: disk == Some(table[t].disk))
    && (disk.Some? ==> exists t :: t in table && t in seen && table[t].kind == Repair)
  }

  /** The next record finds its volume free and its disk the same as before. */
  lemma ReadOne(table: map<TaskId, Task>, seen: set<TaskId>, queue: map<TaskId, Phase>, locks: set<nat>,
                disk: Option<nat>, t: TaskId)
    requires LoadSucceeds(table) && Loadable(table) && t in table && t !in seen
    requires ReadSoFar(table, seen, queue, locks, disk)
    ensures table[t].Running() ==> table[t].Vid() !in locks
    ensures table[t].kind == Repair && disk.Some? ==> disk.value == table[t].disk
    ensures ReadSoFar(table, seen + {t}, if table[t].Done() then queue else queue[t := LoadedPhase(table[t])],
                      if table[t].Running() then locks + {table[t].Vid()} else locks,
                      if table[t].kind == Repair then Some(table[t].disk) else disk)
  {
    hide LoadedPhase;
    var more := if table[t].Running() then locks + {table[t].Vid()} else locks;
    assert more == (set r | r in table && r in seen + {t} && table[r].Running() :: table[r].Vid());
    if table[t].kind == Repair {
      assert t in seen + {t};
    }
  }

  lemma ReadAll(table: map<TaskId, Task>, queue: map<TaskId, Phase>, locks: set<nat>, disk: Option<nat>)
    requires LoadSucceeds(table) && Loadable(table) && ReadSoFar(table, table.Keys, queue, locks, disk)
    ensures queue == LoadedPhases(table) && locks == LoadedLocks(table) && disk == LoadedDisk(table)
  {
    assert locks == LoadedLocks(table);
    if disk.Some? {
      var t :| t in table && table[t].kind == Repair;
      LoadedDiskIs(table, t);
    }
  }

  lemma HasPlace(table: map<TaskId, Task>, t: TaskId)
    requires Loadable(table) && t in table
    ensures table[t].Running() ==> table[t].dest.Some?
  {
  }

  lemma LoadedDiskIs(table: map<TaskId, Task>, t: TaskId)
    requires LoadSucceeds(table) && t in table && table[t].kind == Repair
    ensures LoadedDisk(table) == Some(table[t].disk)
  {
    assert HasRepairRecord(table);
  }

  /** The volume lock shared by all managers. */
  class VolTaskLocker {
    var taskMap: set<nat>

    constructor ()
      ensures taskMap == {}
    {
      taskMap := {};
    }

    method TryLock(vid: nat) returns (ok: bool)
      modifies this
      ensures ok <==> vid !in old(taskMap)
      ensures taskMap == old(taskMap) + {vid}
    {
      if vid in taskMap {
        return false;
      }
      taskMap := taskMap + {vid};
      return true;
    }

    method Unlock(vid: nat)
      modifies this
      ensures taskMap == old(taskMap) - {vid}
    {
      taskMap := taskMap - {vid};
    }

    /** A new process starts with no volume locked. */
    method Reset()
      modifies this
      ensures taskMap == {}
    {
      taskMap := {};
    }
  }

  /** How an allocation call ends: an answer, an error, or an error after the epoch was taken. */
  datatype AllocFate = Given | Denied | TakenButLost

  datatype LockReply = VolumeLocked | LockNotAllow | LockFailed

  datatype PrepareEnv = PrepareEnv(readOk: bool, unlockOk: bool, lock: LockReply, alloc: AllocFate)

  /** overtaken: another destination is handed out between the checks of the update and its application. */
  datatype FinishEnv = FinishEnv(disk: nat, check: CheckFate, overtaken: bool, fate: ApplyFate, alloc: AllocFate,
                                 releaseOk: bool)

  // ---- what a whole handler makes of its task, whatever steps it takes ----

  function GivenUp(task: Task, u: Unit): Local { Kept(task, Queued, u) }

  function EndedEarly(task: Task, u: Unit): Local { Local(task.(state := FinishedInAdvance), None, u, false) }

  /** Sent to the workers with a new destination, or left as it was when none was given. */
  function WithNewDest(task: Task, otherwise: Phase, u: Unit, alloc: AllocFate): Local {
    match alloc
    case Given => Kept(SavedAs(task, Prepared, NextDest(task, u)), Working(NextDest(task, u)), Bump(u))
    case Denied => Kept(task, otherwise, u)
    case TakenButLost => Kept(task, otherwise, Bump(u))
  }

  /** A task whose chunk has been moved is ended, and so is one whose volume may not be locked,
      unless it drains a disk; a repair neither locks the volume nor unlocks it. */
  function PrepareOutcome(task: Task, u: Unit, env: PrepareEnv): Local {
    var locks := task.kind != Repair;
    if u.epoch != task.source.epoch then
      if locks && !env.unlockOk then GivenUp(task, u) else EndedEarly(task, u)
    else if locks && env.lock == LockNotAllow && task.kind != DiskDrop then EndedEarly(task, u)
    else if locks && env.lock != VolumeLocked then GivenUp(task, u)
    else WithNewDest(task, Queued, u, env.alloc)
  }

  /** Whether an update passes the checks and is proposed. */
  predicate IsProposed(task: Task, dest: Vuid, u: Unit, env: FinishEnv) {
    env.check == ChunkAnswers && CheckUpdate(u, dest, task.source).Proposable?
  }

  /** What the cluster manager answers to the update. */
  function UpdateCode(task: Task, dest: Vuid, u: Unit, env: FinishEnv): Code {
    if env.check == CheckLost then OtherError
    else
      match CheckUpdate(u, dest, task.source)
      case Refused(code) => code
      case Repeated => Success
      case Proposable =>
        if env.check == ChunkFails then StatChunkFailed
        else if env.fate.applied && !env.fate.replyLost then Success
        else OtherError
  }

  /** And what becomes of the unit. */
  function UpdatedUnit(task: Task, dest: Vuid, u: Unit, env: FinishEnv): Unit {
    if IsProposed(task, dest, u, env) then
      AppliedUnit(if env.overtaken then Bump(u) else u, dest, env.disk, env.fate)
    else
      u
  }

  function FinishOutcome(task: Task, dest: Vuid, u: Unit, env: FinishEnv): Local {
    var saved := SavedAs(task, WorkCompleted, dest);
    var code, unit := UpdateCode(task, dest, u, env), UpdatedUnit(task, dest, u, env);
    if code == Success && (task.kind == Repair || env.releaseOk) then
      Local(saved.(state := Finished), None, unit, false)
    else if ShouldAllocAndRedo(code) then WithNewDest(saved, Finishing(dest), unit, env.alloc)
    else Kept(saved, Finishing(dest), unit)
  }

  /** Where a handler has got after the answer to its update. */
  function PlaceAfter(code: Code, dest: Vuid): Phase {
    if code == Success then Mapped(dest) else if ShouldAllocAndRedo(code) then Redoing(dest) else Finishing(dest)
  }

  lemma CheckOutcome(task: Task, dest: Vuid, u: Unit, env: FinishEnv)
    requires IsCompleted(u, task, dest)
    ensures UpdateCode(task, dest, u, env) != OldVuidNotMatch
    ensures PlaceAfter(UpdateCode(task, dest, u, env), dest).HoldsLock()
    ensures AfterCheck(task, dest, u, env.check) ==
      if IsProposed(task, dest, u, env) then Kept(task, Proposed(dest), u)
      else Kept(task, PlaceAfter(UpdateCode(task, dest, u, env), dest), u)
    ensures IsProposed(task, dest, u, env) ==> AtSource(u, task)
  {
  }

  lemma ApplyOutcome(task: Task, dest: Vuid, u: Unit, env: FinishEnv)
    requires IsProposed(task, dest, u, env)
    ensures AfterApply(task, dest, if env.overtaken then Bump(u) else u, env.disk, env.fate) ==
      Kept(task, PlaceAfter(UpdateCode(task, dest, u, env), dest), UpdatedUnit(task, dest, u, env))
  {
  }

  /** What finishing comes to once the work is saved as completed, by the answer to the update. */
  lemma FinishCases(task: Task, dest: Vuid, u: Unit, env: FinishEnv)
    requires IsCompleted(u, task, dest)
    ensures var code, unit := UpdateCode(task, dest, u, env), UpdatedUnit(task, dest, u, env);
      && FinishOutcome(task, dest, u, env) ==
           (if code == Success && (task.kind == Repair || env.releaseOk) then
              Local(task.(state := Finished), None, unit, false)
            else if ShouldAllocAndRedo(code) then WithNewDest(task, Finishing(dest), unit, env.alloc)
            else Kept(task, Finishing(dest), unit))
      && (code == Success ==> IsCompleted(unit, task, dest))
      && (code == Success ==>
            unit.epoch == if env.overtaken && AtSource(u, task) then task.source.epoch else dest.epoch)
      && (ShouldAllocAndRedo(code) ==> unit.epoch == task.source.epoch)
  {
  }

  /** Updating the unit first makes no difference to what is installed. */
  lemma SameUnits(s: State, mid: State, t: TaskId, u: Unit, l: Local)
    requires At(s, t) && mid == s.(units := s.units[s.table[t].source.prefix := u])
    ensures Install(mid, t, l) == Install(s, t, l)
  {
    assert Install(mid, t, l).units == Install(s, t, l).units;
  }

  /** The steps of the update, with the allocation that may come between the checks and the application. */
  lemma AdvanceUpdate(s: State, m: State, t: TaskId, env: FinishEnv) returns (e: State)
    requires Reachable(s) && Leads(s, m) && !m.panicked && At(m, t) && m.phase[t].Saved? && m.table[t].Vid() in m.locks
    requires IsCompleted(UnitOf(m, t), m.table[t], m.phase[t].dest)
    ensures UpdateCode(m.table[t], m.phase[t].dest, UnitOf(m, t), env) != OldVuidNotMatch
    ensures Leads(s, e)
    ensures var dest := m.phase[t].dest;
      e == m.(units := m.units[m.table[t].source.prefix := UpdatedUnit(m.table[t], dest, UnitOf(m, t), env)],
              phase := m.phase[t := PlaceAfter(UpdateCode(m.table[t], dest, UnitOf(m, t), env), dest)])
  {
    hide Leads, Reachable, UpdateCode, PlaceAfter, AppliedUnit, AfterCheck, AfterApply, IsCompleted;
    var task, dest, u, id := m.table[t], m.phase[t].dest, UnitOf(m, t), m.table[t].source.prefix;
    CheckOutcome(task, dest, u, env);
    e := Advance(s, m, t, CheckVolume(env.check));
    if IsProposed(task, dest, u, env) {
      ApplyOutcome(task, dest, u, env);
      if env.overtaken {
        LeadsStaysReachable(s, e);
        SourceIsSafe(e, t);
        e := AdvanceWith(s, e, StrayAlloc(id));
      }
      e := Advance(s, e, t, ApplyVolume(env.disk, env.fate));
    }
    var unit, place := UpdatedUnit(task, dest, u, env), PlaceAfter(UpdateCode(task, dest, u, env), dest);
    assert e.units == m.units[id := unit] && e.phase == m.phase[t := place];
    assert e.table == m.table && e.locks == m.locks;
  }

  class Scheduler {
    var table: map<TaskId, Task>
    var units: Mapping
    var disks: map<nat, DiskStatus>
    const locker: VolTaskLocker

    /** The queue that has a task, with the destination in its in-memory copy: Queued is the
        prepare queue, Working the work queue, Finishing the finish queue. */
    var queue: map<TaskId, Phase>

    var repairingDisk: Option<nat>
    var brokenDisk: Option<nat>
    var hasRevised: bool

    ghost function Abs(): State
      reads this, locker
    {
      State(table, units, disks, queue, locker.taskMap, repairingDisk, brokenDisk, hasRevised, None, false, false)
    }

    ghost predicate Valid()
      reads this, locker
    {
      Reachable(Abs())
    }

    predicate In(t: TaskId, p: Phase)
      reads this
    {
      t in queue && queue[t] == p
    }

    ghost function UnitNow(t: TaskId): Unit
      requires t in table && table[t].source.prefix in units
      reads this
    {
      units[table[t].source.prefix]
    }

    constructor (units: Mapping, disks: map<nat, DiskStatus>)
      requires forall id | id in units :: units[id].epoch <= units[id].nextEpoch
      ensures Valid() && Init(Abs()) && Abs().units == units && Abs().disks == disks && fresh(locker)
    {
      table, this.units, this.disks := map[], units, disks;
      locker := new VolTaskLocker();
      queue := map[];
      repairingDisk, brokenDisk, hasRevised := None, None, false;
      new;
      assert IsSafeRun(Abs(), []) && IsRun(Abs(), []) && Exec(Abs(), []) == Abs();
    }

    /** An allocation on t's unit, as the cluster manager performs it. */
    method AllocVunit(t: TaskId, fate: AllocFate) returns (dest: Option<Vuid>)
      requires t in table && table[t].source.prefix in units
      modifies this`units
      ensures fate.Denied? ==> units == old(units)
      ensures !fate.Denied? ==>
                units == old(units)[table[t].source.prefix := Bump(old(units)[table[t].source.prefix])]
      ensures dest == if fate.Given? then Some(NextDest(table[t], old(units)[table[t].source.prefix])) else None
    {
      var id := table[t].source.prefix;
      dest := None;
      if fate.Given? {
        dest := Some(Vuid(id, units[id].nextEpoch + 1));
      }
      if !fate.Denied? {
        units := units[id := units[id].(nextEpoch := units[id].nextEpoch + 1)];
      }
    }

    /** Where a handler that has popped t stands: as in memory, but for the place of t. */
    ghost predicate Midway(s: State, g: State, t: TaskId, p: Phase)
      reads this, locker
    {
      && Reachable(s) && Leads(s, g) && t in queue && t in table && table[t].source.prefix in units
      && g == Abs().(phase := queue[t := p]) && table[t].Vid() in locker.taskMap
    }

    /** Pops a task of the prepare queue and prepares it. */
    method PrepareTask(t: TaskId, env: PrepareEnv) returns (ok: bool)
      requires Valid() && In(t, Queued) && t in table && table[t].source.prefix in units
      modifies this, locker
      ensures Valid() && Leads(old(Abs()), Abs())
      ensures Abs() == if old(table[t].Vid() in locker.taskMap) || !env.readOk then old(Abs()) else
                         Install(old(Abs()), t, PrepareOutcome(old(table[t]), old(UnitNow(t)), env))
      ensures !ok <==> In(t, Queued)
    {
      hide Leads, Reachable, PrepareOutcome;
      ghost var s := Abs();
      LeadsNowhere(s);
      var locked := locker.TryLock(table[t].Vid());
      if !locked {
        assert Abs() == s;
        return false;
      }
      ghost var g := Advance(s, s, t, LockTask);
      assert Midway(s, g, t, Locked);
      if !env.readOk {
        GiveUp(t, s, g, Locked);
        assert Abs().locks == s.locks;
        return false;
      }
      ghost var mid := Abs();
      ok := PrepareLocked(t, env, s, g);
      SameInstall(s, mid, t, PrepareOutcome(s.table[t], UnitOf(s, t), env));
    }

    /** The volume has been read: the task is finished in advance, given up or given a chunk. */
    method PrepareLocked(t: TaskId, env: PrepareEnv, ghost s: State, ghost before: State) returns (ok: bool)
      requires Midway(s, before, t, Locked) && queue[t] == Queued
      modifies this, locker
      ensures Valid() && Leads(s, Abs())
      ensures Abs() == Install(old(Abs()), t, PrepareOutcome(old(table[t]), old(UnitNow(t)), env))
      ensures !ok <==> In(t, Queued)
    {
      hide Leads, Reachable;
      ghost var g := Advance(s, before, t, ReadVolume);
      var current := table[t].source.epoch == units[table[t].source.prefix].epoch;
      if !current {
        if table[t].kind != Repair && !env.unlockOk {
          GiveUp(t, s, g, Moved);
          return false;
        }
        FinishTaskInAdvance(t, s, g);
        return true;
      }
      if table[t].kind != Repair && !env.lock.VolumeLocked? {
        if env.lock.LockFailed? || table[t].kind == DiskDrop {
          GiveUp(t, s, g, Current);
          return false;
        }
        g := Advance(s, g, t, LockRefused);
        FinishTaskInAdvance(t, s, g);
        return true;
      }
      ok := AllocAndSave(t, env.alloc, s, g);
    }

    /** Frees the volume; the task stays in the prepare queue for a later try. */
    method GiveUp(t: TaskId, ghost s: State, ghost before: State, ghost p: Phase)
      requires Midway(s, before, t, p) && queue[t] == Queued
      requires p.Locked? || p.Current? || (p.Moved? && table[t].kind != Repair)
      modifies this, locker
      ensures Valid() && Leads(s, Abs()) && In(t, Queued)
      ensures Abs() == Install(old(Abs()), t, GivenUp(old(table[t]), old(UnitNow(t))))
      ensures Abs() == old(Abs()).(locks := old(locker.taskMap) - {old(table[t].Vid())})
    {
      locker.Unlock(table[t].Vid());
      ghost var g := Advance(s, before, t, PrepareFailed(false));
      Arrive(s, g);
    }

    method FinishTaskInAdvance(t: TaskId, ghost s: State, ghost before: State)
      requires Midway(s, before, t, Moved) && queue[t] == Queued
      modifies this, locker
      ensures Valid() && Leads(s, Abs()) && t !in queue
      ensures Abs() == Install(old(Abs()), t, EndedEarly(old(table[t]), old(UnitNow(t))))
    {
      table := table[t := table[t].(state := FinishedInAdvance)];
      queue := queue - {t};
      locker.Unlock(table[t].Vid());
      ghost var g := Advance(s, before, t, FinishInAdvance);
      Arrive(s, g);
    }

    method AllocAndSave(t: TaskId, alloc: AllocFate, ghost s: State, ghost before: State) returns (ok: bool)
      requires Midway(s, before, t, Current) && queue[t] == Queued
      modifies this, locker
      ensures Valid() && Leads(s, Abs())
      ensures Abs() == Install(old(Abs()), t, WithNewDest(old(table[t]), Queued, old(UnitNow(t)), alloc))
      ensures !ok <==> In(t, Queued)
    {
      hide Leads, Reachable;
      ghost var g := AdvanceAlloc(s, before, t, alloc);
      AnyPlace(Abs(), t, Current, WithNewDest(table[t], Queued, UnitNow(t), alloc));
      var dest := AllocVunit(t, alloc);
      if dest.None? {
        locker.Unlock(table[t].Vid());
      } else {
        table := table[t := table[t].(state := Prepared, dest := dest)];
        queue := queue[t := Working(dest.value)];
      }
      Arrive(s, g);
      return dest.Some?;
    }

    lemma Arrive(s: State, g: State)
      requires Reachable(s) && Leads(s, g) && Abs() == g
      ensures Valid() && Leads(s, Abs())
    {
      LeadsStaysReachable(s, g);
    }

    /** A worker reports that the work on t is done; result says how the table write went. */
    method CompleteTask(t: TaskId, dest: Vuid, result: CompleteResult) returns (ok: bool)
      requires Valid()
      requires t in table && table[t].kind == Repair ==> result == Completed
      modifies this
      ensures Valid() && Leads(old(Abs()), Abs())
      ensures old(In(t, Working(dest))) ==> old(At(Abs(), t))
      ensures Abs() == if !old(In(t, Working(dest))) then old(Abs()) else
                         Install(old(Abs()), t, AfterComplete(old(table[t]), dest, old(UnitNow(t)), result))
      ensures ok <==> old(In(t, Working(dest))) && result == Completed
    {
      hide Leads, Reachable;
      ghost var s, g := Abs(), Abs();
      LeadsNowhere(s);
      if !In(t, Working(dest)) {
        return false;
      }
      KnownTask(s, t);
      if table[t].kind != Repair && result != SaveFailed {
        table := table[t := table[t].(state := WorkCompleted, dest := Some(dest))];
      }
      queue := queue[t := if result == Completed then Finishing(dest) else Stranded(dest)];
      g := Advance(s, g, t, Complete(result));
      Arrive(s, g);
      return result == Completed;
    }

    /** A worker asks for another destination.  The allocation is made before the queue is looked
        at; on a unit with an applied task that ends the guarantees (see StrayAllocationIsExact). */
    method ReclaimTask(t: TaskId, oldDest: Vuid, alloc: AllocFate, saved: bool) returns (ok: bool)
      requires Valid() && oldDest.prefix in units
      modifies this
      ensures ok <==> alloc.Given? && old(In(t, Working(oldDest)))
      ensures units == if alloc.Denied? then old(units) else ClusterMapping.Allocated(old(units), oldDest.prefix)
      ensures !ok ==> Abs() == old(Abs()).(units := units)
      ensures ok ==> var dest := Vuid(oldDest.prefix, units[oldDest.prefix].nextEpoch);
                     && t in old(table)
                     && Abs() == old(Abs()).(units := units, phase := old(queue)[t := Working(dest)],
                          table := if saved then old(table)[t := old(table[t]).(dest := Some(dest))] else old(table))
      ensures ok || alloc.Denied? || !old(AppliedAt(Abs(), oldDest.prefix)) ==> Valid() && Leads(old(Abs()), Abs())
    {
      hide Leads, Reachable, AppliedAt;
      ghost var s, g := Abs(), Abs();
      LeadsNowhere(s);
      if alloc.Denied? {
        return false;
      }
      var id := oldDest.prefix;
      var newDest := Vuid(id, units[id].nextEpoch + 1);
      units := units[id := units[id].(nextEpoch := units[id].nextEpoch + 1)];
      if alloc.TakenButLost? || !In(t, Working(oldDest)) {
        if !AppliedAt(s, id) {
          LeadsOn(s, g, StrayAlloc(id));
          Arrive(s, Apply(s, StrayAlloc(id)));
        }
        return false;
      }
      KnownTask(s, t);
      queue := queue[t := Working(newDest)];
      if saved {
        table := table[t := table[t].(dest := Some(newDest))];
      }
      g := Advance(s, g, t, Reclaim(saved));
      Arrive(s, g);
      return true;
    }

    /** Pops a completed task and finishes it, or sends it back to the workers. */
    method FinishTask(t: TaskId, env: FinishEnv) returns (ok: bool)
      requires Valid() && t in queue && queue[t].Finishing?
      modifies this, locker
      ensures Valid() && Leads(old(Abs()), Abs())
      ensures old(At(Abs(), t))
      ensures Abs() == Install(old(Abs()), t, FinishOutcome(old(table[t]), old(queue[t].dest), old(UnitNow(t)), env))
      ensures !ok <==> In(t, old(queue[t]))
      ensures ok && t !in queue ==>
                if env.overtaken && old(InUse(Abs(), table[t].source)) then InUse(Abs(), old(table[t].source))
                else InUse(Abs(), old(queue[t].dest))
      ensures ok && t in queue ==> InUse(Abs(), old(table[t].source))
    {
      hide Leads, Reachable, FinishOutcome;
      ghost var s := Abs();
      LeadsNowhere(s);
      KnownTask(s, t);
      var dest := queue[t].dest;
      // saved before the mapping changes: a restart must not hand this destination out again
      table := table[t := table[t].(state := WorkCompleted, dest := Some(dest))];
      ghost var g := Advance(s, s, t, SaveCompleted);
      assert Midway(s, g, t, Saved(dest));
      SameFinish(s, Abs(), t, dest, env);
      ok := UpdateMapping(t, env, s, g);
    }

    /** The call to the cluster manager; after it the handler has got where the code says. */
    method UpdateVolume(t: TaskId, env: FinishEnv, ghost s: State, ghost before: State)
      returns (code: Code, ghost after: State)
      requires t in queue && queue[t].Finishing? && Midway(s, before, t, Saved(queue[t].dest))
      requires IsCompleted(units[table[t].source.prefix], table[t], queue[t].dest)
      modifies this`units
      ensures code == UpdateCode(table[t], queue[t].dest, old(UnitNow(t)), env) && code != OldVuidNotMatch
      ensures units == old(units)[table[t].source.prefix := UpdatedUnit(table[t], queue[t].dest, old(UnitNow(t)), env)]
      ensures Midway(s, after, t, PlaceAfter(code, queue[t].dest))
    {
      hide Leads, Reachable, Perform, UpdateCode, PlaceAfter;
      var id, dest := table[t].source.prefix, queue[t].dest;
      code := UpdateCode(table[t], dest, units[id], env);
      after := AdvanceUpdate(s, before, t, env);
      if IsProposed(table[t], dest, units[id], env) {
        if env.overtaken {
          units := units[id := Bump(units[id])];
        }
        units := units[id := AppliedUnit(units[id], dest, env.disk, env.fate)];
      }
    }

    method UpdateMapping(t: TaskId, env: FinishEnv, ghost s: State, ghost before: State) returns (ok: bool)
      requires t in queue && queue[t].Finishing? && Midway(s, before, t, Saved(queue[t].dest))
      requires IsCompleted(units[table[t].source.prefix], table[t], queue[t].dest)
      modifies this, locker
      ensures Valid() && Leads(s, Abs())
      ensures Abs() == Install(old(Abs()), t, FinishOutcome(old(table[t]), old(queue[t].dest), old(UnitNow(t)), env))
      ensures !ok <==> In(t, old(queue[t]))
      ensures ok && t !in queue ==>
                if env.overtaken && old(InUse(Abs(), table[t].source)) then InUse(Abs(), old(table[t].source))
                else InUse(Abs(), old(queue[t].dest))
      ensures ok && t in queue ==> InUse(Abs(), old(table[t].source))
    {
      hide Leads, Reachable, FinishOutcome, UpdateCode, UpdatedUnit;
      ghost var was, task, dest := Abs(), table[t], queue[t].dest;
      FinishCases(task, dest, UnitNow(t), env);
      var code; ghost var g;
      code, g := UpdateVolume(t, env, s, before);
      SameUnits(was, Abs(), t, UnitNow(t), FinishOutcome(task, dest, UnitOf(was, t), env));
      if code == Success {
        ok := CloseTask(t, env.releaseOk, s, g);
      } else if ShouldAllocAndRedo(code) {
        ok := RedoTask(t, env.alloc, s, g);
      } else {
        Arrive(s, g);
        ok := false;
      }
    }

    method CloseTask(t: TaskId, releaseOk: bool, ghost s: State, ghost before: State) returns (ok: bool)
      requires t in queue && queue[t].Finishing? && Midway(s, before, t, Mapped(queue[t].dest))
      requires IsCompleted(units[table[t].source.prefix], table[t], queue[t].dest)
      modifies this, locker
      ensures Valid() && Leads(s, Abs()) && (ok <==> old(table[t]).kind == Repair || releaseOk)
      ensures !ok ==> Abs() == old(Abs())
      ensures ok ==>
        Abs() == Install(old(Abs()), t, Local(old(table[t]).(state := Finished), None, old(UnitNow(t)), false))
    {
      hide Leads, Reachable;
      if table[t].kind != Repair && !releaseOk {
        ghost var g := Advance(s, before, t, ReleaseFailed);
        Arrive(s, g);
        return false;
      }
      table := table[t := table[t].(state := Finished)];
      queue := queue - {t};
      locker.Unlock(table[t].Vid());
      ghost var g := Advance(s, before, t, SaveFinished);
      Arrive(s, g);
      return true;
    }

    method RedoTask(t: TaskId, alloc: AllocFate, ghost s: State, ghost before: State) returns (ok: bool)
      requires t in queue && queue[t].Finishing? && Midway(s, before, t, Redoing(queue[t].dest))
      requires table[t].state == WorkCompleted && InUse(before, table[t].source)
      modifies this
      ensures Valid() && Leads(s, Abs()) && (ok <==> alloc.Given?)
      ensures Abs() == Install(old(Abs()), t, WithNewDest(old(table[t]), old(queue[t]), old(UnitNow(t)), alloc))
    {
      hide Leads, Reachable;
      ghost var g := AdvanceRedo(s, before, t, alloc);
      AnyPlace(Abs(), t, Redoing(queue[t].dest), WithNewDest(table[t], queue[t], UnitNow(t), alloc));
      var redo := AllocVunit(t, alloc);
      if redo.Some? {
        table := table[t := table[t].(state := Prepared, dest := redo)];
        queue := queue[t := Working(redo.value)];
      }
      Arrive(s, g);
      return redo.Some?;
    }

    /** A balance, drop or manual manager adds a task. */
    method AddTask(t: TaskId, kind: Kind, source: Vuid, disk: nat)
      requires Valid() && t !in table && kind != Repair
      modifies this
      ensures Valid() && Leads(old(Abs()), Abs())
      ensures Abs() == AddRecord(old(Abs()), t, Task(kind, Inited, source, None, disk))
    {
      hide Leads, Reachable;
      ghost var s := Abs();
      LeadsNowhere(s);
      table := table[t := Task(kind, Inited, source, None, disk)];
      queue := queue[t := Queued];
      ghost var g := AdvanceWith(s, s, Step.AddTask(t, kind, source, disk));
      Arrive(s, g);
    }

    /** Rebuilds the queues, the volume locks and the repairing disk from the tables; neither the
        volume conflict nor a second repairing disk comes up. */
    method ReadTables()
      requires LoadSucceeds(table) && Loadable(table)
      modifies this`queue, this`repairingDisk, locker
      ensures queue == LoadedPhases(table) && locker.taskMap == LoadedLocks(table)
      ensures repairingDisk == LoadedDisk(table)
    {
      queue, repairingDisk := map[], None;
      locker.Reset();
      var todo := table.Keys;
      ghost var seen: set<TaskId> := {};
      assert ReadSoFar(table, seen, queue, locker.taskMap, repairingDisk);
      hide ReadSoFar, LoadSucceeds, Loadable;
      while todo != {}
        invariant todo !! seen && todo + seen == table.Keys
        invariant ReadSoFar(table, seen, queue, locker.taskMap, repairingDisk)
      {
        var t :| t in todo;
        var task := table[t];
        ReadOne(table, seen, queue, locker.taskMap, repairingDisk, t);
        if task.kind == Repair {
          assert repairingDisk.Some? ==> repairingDisk.value == task.disk;
          repairingDisk := Some(task.disk);
        }
        if task.Running() {
          var ok := locker.TryLock(task.Vid());
          assert ok;
        }
        if !task.Done() {
          HasPlace(table, t);
          queue := queue[t := LoadedPhase(task)];
        }
        todo := todo - {t};
        seen := seen + {t};
      }
      assert seen == table.Keys;
      ReadAll(table, queue, locker.taskMap, repairingDisk);
    }

    /** A new process takes over the tables. */
    method Load()
      requires Valid()
      modifies this, locker
      ensures Valid() && Leads(old(Abs()), Abs())
      ensures table == old(table) && units == old(units) && disks == old(disks)
      ensures queue == LoadedPhases(table) && locker.taskMap == LoadedLocks(table)
      ensures repairingDisk == LoadedDisk(table) && brokenDisk.None? && !hasRevised
    {
      hide Leads, Reachable;
      ghost var s := Abs();
      OneRunningTaskPerVolume(s);
      forall t | t in table
        ensures table[t].Running() ==> table[t].dest.Some?
      {
        KnownTask(s, t);
      }
      LeadsNowhere(s);
      brokenDisk, hasRevised := None, false;
      ReadTables();
      ghost var g := AdvanceWith(s, s, Restart);
      Arrive(s, g);
    }

    /** Inserts a record for every chunk of the disk that has none. */
    method GenDiskRepairTasks(disk: nat, genTaskId: set<TaskId> -> TaskId, ghost s: State, ghost before: State)
      returns (ghost after: State)
      requires forall ids :: genTaskId(ids) !in ids
      requires Leads(s, before) && before == Abs() && RepairDisk(before) == Some(disk)
      requires Enabled(before, StartGeneration)
      modifies this`table, this`queue
      ensures Leads(s, after) && after == Abs().(gen := Some(Generation(disk, {}, repairingDisk.Some?)))
      ensures Remain(Abs(), disk) == {}
      ensures forall t | t in old(table) :: t in table && table[t] == old(table)[t]
      ensures forall t | t in table && t !in old(table) :: In(t, Queued) && IsNewRepair(table[t], disk, before)
    {
      hide Leads, Remain, OnDisk, RecordedOn, Enabled, Apply;
      var remain := OnDiskNow(disk) - RecordedNow(disk);
      after := AdvanceStart(s, before, disk);
      RemainIs(before, disk, remain);
      while remain != {}
        invariant Abs() == before.(table := table, phase := queue)
        invariant Leads(s, after) && after == Abs().(gen := Some(Generation(disk, remain, repairingDisk.Some?)))
        invariant remain == Remain(after, disk)
        invariant forall t | t in old(table) :: t in table && table[t] == old(table)[t]
        invariant forall t | t in table && t !in old(table) :: In(t, Queued) && IsNewRepair(table[t], disk, before)
      {
        var v :| v in remain;
        var t := genTaskId(table.Keys);
        table := table[t := Task(Repair, Inited, v, None, disk)];
        queue := queue[t := Queued];
        remain := remain - {v};
        after := AdvanceInsert(s, after, t, v);
      }
      SameRemain(after, Abs(), disk);
    }

    function OnDiskNow(disk: nat): (r: set<Vuid>)
      reads this, locker
      ensures r == OnDisk(Abs(), disk)
    {
      set id | id in units && units[id].disk == disk :: Vuid(id, units[id].epoch)
    }

    function RecordedNow(disk: nat): (r: set<Vuid>)
      reads this, locker
      ensures r == RecordedOn(Abs(), disk)
    {
      set t | t in table && table[t].kind == Repair && table[t].disk == disk :: table[t].source
    }

    /** Every chunk of the disk has a record, old records are kept, and the disk is marked. */
    ghost predicate Generated(before: State, disk: nat)
      reads this, locker
    {
      && Remain(Abs(), disk) == {} && disks == before.disks[disk := Repairing]
      && (forall t | t in before.table :: t in table && table[t] == before.table[t])
      && forall t | t in table && t !in before.table :: IsNewRepair(table[t], disk, before)
    }

    /** One round of the repair manager's collect loop.  genOk says whether the two listings that
        generation compares could be had. */
    method CollectTask(infoOk: bool, listed: Option<nat>, genOk: bool, genTaskId: set<TaskId> -> TaskId)
      requires Valid() && forall ids :: genTaskId(ids) !in ids
      requires repairingDisk.Some? ==> repairingDisk.value in disks
      requires listed.Some? ==> listed.value in disks && disks[listed.value] == Broken
      modifies this
      ensures Valid() && Leads(old(Abs()), Abs()) && units == old(units)
      ensures old(repairingDisk).Some? ==>
                && repairingDisk == old(repairingDisk) && brokenDisk == old(brokenDisk)
                && var marked := old(disks)[repairingDisk.value] != Broken;
                && hasRevised == (old(hasRevised) || (infoOk && (marked || genOk)))
                && if hasRevised && !old(hasRevised) && !marked then Generated(old(Abs()), repairingDisk.value)
                   else table == old(table) && disks == old(disks)
      ensures old(repairingDisk).None? ==>
                var disk := if old(brokenDisk).Some? then old(brokenDisk) else listed;
                && hasRevised == old(hasRevised)
                && if disk.Some? && genOk then
                     repairingDisk == disk && brokenDisk.None? && Generated(old(Abs()), disk.value)
                   else
                     repairingDisk.None? && brokenDisk == disk && table == old(table) && disks == old(disks)
    {
      hide Leads, Reachable, Generated;
      LeadsNowhere(Abs());
      if repairingDisk.Some? {
        if !hasRevised && infoOk {
          ReviseRepairTask(genOk, genTaskId);
        }
      } else if brokenDisk.Some? || listed.Some? {
        TakeUpDisk(listed, genOk, genTaskId);
      }
    }

    method ReviseRepairTask(genOk: bool, genTaskId: set<TaskId> -> TaskId)
      requires Valid() && forall ids :: genTaskId(ids) !in ids
      requires repairingDisk.Some? && repairingDisk.value in disks && !hasRevised
      modifies this
      ensures Valid() && Leads(old(Abs()), Abs())
      ensures repairingDisk == old(repairingDisk) && brokenDisk == old(brokenDisk) && units == old(units)
      ensures hasRevised <==> genOk || old(disks)[repairingDisk.value] != Broken
      ensures if hasRevised && old(disks)[repairingDisk.value] == Broken then Generated(old(Abs()), repairingDisk.value)
              else table == old(table) && disks == old(disks)
    {
      hide Leads, Reachable, Remain;
      ghost var s, g := Abs(), Abs();
      LeadsNowhere(s);
      var disk := repairingDisk.value;
      if disks[disk] != Broken {
        hasRevised := true;
        g := AdvanceWith(s, s, SkipRevise);
        Arrive(s, g);
      } else if genOk {
        g := GenDiskRepairTasks(disk, genTaskId, s, s);
        ghost var generated := Abs();
        disks, hasRevised := disks[disk := Repairing], true;
        SameRemain(generated, Abs(), disk);
        g := AdvanceWith(s, g, EndGeneration);
        Arrive(s, g);
      }
    }

    method TakeUpDisk(listed: Option<nat>, genOk: bool, genTaskId: set<TaskId> -> TaskId)
      requires Valid() && forall ids :: genTaskId(ids) !in ids
      requires repairingDisk.None? && (brokenDisk.Some? || listed.Some?)
      requires listed.Some? ==> listed.value in disks && disks[listed.value] == Broken
      modifies this
      ensures Valid() && Leads(old(Abs()), Abs()) && hasRevised == old(hasRevised) && units == old(units)
      ensures var disk := if old(brokenDisk).Some? then old(brokenDisk) else listed;
              disk.Some? && if genOk then
                repairingDisk == disk && brokenDisk.None? && Generated(old(Abs()), disk.value)
              else
                repairingDisk.None? && brokenDisk == disk && table == old(table) && disks == old(disks)
    {
      hide Leads, Reachable, Remain;
      ghost var s, g := Abs(), Abs();
      LeadsNowhere(s);
      if brokenDisk.None? {
        brokenDisk := listed;
        g := AdvanceWith(s, g, AcquireBroken(listed.value));
      }
      if genOk {
        var disk := brokenDisk.value;
        SameRemain(s, g, disk);
        g := GenDiskRepairTasks(disk, genTaskId, s, g);
        ghost var generated := Abs();
        disks, repairingDisk, brokenDisk := disks[disk := Repairing], Some(disk), None;
        SameRemain(generated, Abs(), disk);
        g := AdvanceWith(s, g, EndGeneration);
      }
      Arrive(s, g);
    }

    /** Clears the records of the repairing disk once all are done and the disk is empty. */
    method CheckRepairedAndClear(setOk: bool) returns (cleared: bool)
      requires Valid() && (repairingDisk.Some? ==> repairingDisk.value in disks)
      requires setOk && repairingDisk.Some? ==> disks[repairingDisk.value] in {Repairing, Repaired}
      modifies this
      ensures Valid() && Leads(old(Abs()), Abs())
      ensures cleared <==>
              && setOk && old(repairingDisk).Some?
              && AllDone(old(Abs()), Repair) && OnDisk(old(Abs()), old(repairingDisk).value) == {}
      ensures !cleared ==> Abs() == old(Abs())
      ensures cleared ==>
              && repairingDisk.None? && disks == old(disks)[old(repairingDisk).value := Repaired]
              && table == Without(old(table), (task: Task) => task.kind == Repair)
    {
      hide Leads, Reachable;
      ghost var s := Abs();
      LeadsNowhere(s);
      if repairingDisk.None? || !RepairsDone() || OnDiskNow(repairingDisk.value) != {} || !setOk {
        return false;
      }
      RepairDiskKnown(s);
      var disk := repairingDisk.value;
      disks := disks[disk := Repaired];
      ghost var g := AdvanceWith(s, s, SetRepaired);
      table := Without(table, (task: Task) => task.kind == Repair && task.disk == disk);
      repairingDisk := None;
      g := AdvanceWith(s, g, ClearRepaired);
      Arrive(s, g);
      return true;
    }

    predicate RepairsDone()
      reads this, locker
      ensures RepairsDone() <==> AllDone(Abs(), Repair)
    {
      forall t | t in table :: table[t].kind == Repair ==> table[t].Done()
    }
  }

  /** A record generated for a chunk that the disk has and no record names. */
  predicate IsNewRepair(task: Task, disk: nat, before: State) {
    task.source in Remain(before, disk) && task == Task(Repair, Inited, task.source, None, disk)
  }

  lemma RepairDiskKnown(e: State)
    requires Reachable(e)
    ensures forall t | t in e.table && e.table[t].kind == Repair :: RepairDisk(e) == Some(e.table[t].disk)
  {
    ReachableHasInv(e);
    forall t | t in e.table && e.table[t].kind == Repair
      ensures RepairDisk(e) == Some(e.table[t].disk)
    {
      assert IsRepair(e, t);
    }
  }
}
