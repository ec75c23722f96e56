/**
 * What holds in every run of the task managers, with restarts at any point, as long as no stray
 * allocation overtakes an applied update; and that this condition is exact.
 */
module SchedulerTheorems {

  import opened Wrappers
  import opened ClusterMapping
  import opened SchedulerModel
  import opened SchedulerInvariant

  ghost predicate IsSafeRun(s: State, steps: seq<Step>)
    decreases |steps|
  {
    steps == []
    || (Enabled(s, steps[0]) && Safe(s, steps[0]) && IsSafeRun(Apply(s, steps[0]), steps[1..]))
  }

  lemma {:induction false} SafeRunIsRun(s: State, steps: seq<Step>)
    requires IsSafeRun(s, steps)
    ensures IsRun(s, steps)
    decreases |steps|
  {
    if steps != [] {
      SafeRunIsRun(Apply(s, steps[0]), steps[1..]);
    }
  }

  lemma {:induction false} RunKeepsInv(s: State, steps: seq<Step>)
    requires Inv(s) && IsSafeRun(s, steps)
    ensures IsRun(s, steps) && Inv(Exec(s, steps))
    decreases |steps|
  {
    if steps != [] {
      StepKeepsInv(s, steps[0]);
      RunKeepsInv(Apply(s, steps[0]), steps[1..]);
    }
  }

  lemma InitHasInv(s: State)
    requires Init(s)
    ensures Inv(s)
  {
  }

  /** The state some safe run from an initial state ends in. */
  ghost predicate Reachable(e: State) {
    exists s, steps :: Init(s) && IsSafeRun(s, steps) && IsRun(s, steps) && Exec(s, steps) == e
  }

  lemma ReachableHasInv(e: State)
    requires Reachable(e)
    ensures Inv(e)
  {
    var s, steps :| Init(s) && IsSafeRun(s, steps) && IsRun(s, steps) && Exec(s, steps) == e;
    InitHasInv(s);
    RunKeepsInv(s, steps);
  }

  /** The chunk in use at a task's unit. */
  predicate InUse(s: State, vuid: Vuid) {
    vuid.prefix in s.units && s.units[vuid.prefix].epoch == vuid.epoch
  }

  // ---- no worker is ever handed a chunk that is in use ----

  /** Once the mapping points at a task's destination, its record says WorkCompleted or Finished;
      so neither the queue nor a restart hands that destination to a worker again. */
  lemma WorkerNeverGetsChunkInUse(e: State, t: TaskId)
    requires Reachable(e) && t in e.table
    ensures e.table[t].dest.Some? && InUse(e, e.table[t].dest.value) ==>
              e.table[t].state == WorkCompleted || e.table[t].state == Finished
    ensures t in e.phase && e.phase[t].Working? ==> !InUse(e, e.phase[t].dest)
    ensures LoadSucceeds(e.table)
    ensures t in LoadedPhases(e.table) && LoadedPhases(e.table)[t].Working? ==>
              !InUse(e, LoadedPhases(e.table)[t].dest)
  {
    ReachableHasInv(e);
    assert TaskOk(e, t);
    LoadNeverPanics(e);
  }

  // ---- one running task per volume ----

  /** Running records are on different volumes and their volumes are locked; every locked volume
      belongs to one task; and a restart at this point finds no conflict. */
  lemma OneRunningTaskPerVolume(e: State)
    requires Reachable(e)
    ensures forall t | t in e.table && e.table[t].Running() :: e.table[t].Vid() in e.locks
    ensures forall t, r | t in e.table && r in e.table && t != r && e.table[t].Running() && e.table[r].Running() ::
              e.table[t].Vid() != e.table[r].Vid()
    ensures forall v | v in e.locks ::
              exists t :: t in e.phase && t in e.table && e.table[t].Vid() == v && !e.phase[t].Queued?
    ensures Enabled(e, Restart)
  {
    ReachableHasInv(e);
    forall t | t in e.table && e.table[t].Running()
      ensures Holds(e, t)
    {
      assert TaskOk(e, t);
    }
    forall v | v in e.locks
      ensures exists t :: t in e.phase && t in e.table && e.table[t].Vid() == v && !e.phase[t].Queued?
    {
      var t :| t in e.table && Holds(e, t) && e.table[t].Vid() == v;
    }
    LoadNeverPanics(e);
  }

  // ---- the old-chunk mismatch is unreachable ----

  /** While a task runs, its unit is mapped to its source or to its own destination; no answer of
      the cluster manager makes the handler panic, and none has. */
  lemma MappingIsSourceOrDestination(e: State, t: TaskId)
    requires Reachable(e) && t in e.table && e.table[t].Running()
    ensures InUse(e, e.table[t].source) || (e.table[t].dest.Some? && InUse(e, e.table[t].dest.value))
    ensures !e.panicked
    ensures forall op :: Enabled(e, OnTask(t, op)) ==> !Apply(e, OnTask(t, op)).panicked
  {
    ReachableHasInv(e);
    assert TaskOk(e, t);
    forall op | Enabled(e, OnTask(t, op))
      ensures !Apply(e, OnTask(t, op)).panicked
    {
      StepKeepsInv(e, OnTask(t, op));
    }
  }

  /** A redo code always means that the mapping still points at the source. */
  lemma RedoMeansNotApplied(e: State, t: TaskId)
    requires Reachable(e) && t in e.phase && e.phase[t].Redoing?
    ensures t in e.table && InUse(e, e.table[t].source)
  {
    ReachableHasInv(e);
    assert TaskOk(e, t);
  }

  // ---- conditional table updates ----

  /** The states a migrate record may be in for the handler's table update to find it. */
  function UpdateFilter(op: Op): set<TaskState> {
    match op
    case SavePrepared => {Inited, Prepared}
    case FinishInAdvance => {Inited, FinishedInAdvance}
    case Reclaim(_) => {Prepared}
    case Complete(_) => {Prepared, WorkCompleted}
    case SaveCompleted => {Prepared, WorkCompleted}
    case SaveRedo => {WorkCompleted, Prepared}
    case SaveFinished => {WorkCompleted, Finished}
    case _ => {Inited, Prepared, WorkCompleted, Finished, FinishedInAdvance}
  }

  /** An update that is retried until it succeeds is never retried for want of a matching record. */
  lemma UpdatesFindTheirRecord(e: State, t: TaskId, op: Op)
    requires Reachable(e) && Enabled(e, OnTask(t, op))
    ensures e.table[t].state in UpdateFilter(op)
  {
    ReachableHasInv(e);
    assert TaskOk(e, t);
  }

  // ---- the repair records ----

  lemma RepairRecordsNameOneDisk(e: State)
    requires Reachable(e)
    ensures forall t, r | t in e.table && r in e.table && e.table[t].kind == Repair && e.table[r].kind == Repair ::
              e.table[t].disk == e.table[r].disk && (t != r ==> e.table[t].source != e.table[r].source)
  {
    ReachableHasInv(e);
    forall t, r | t in e.table && r in e.table && e.table[t].kind == Repair && e.table[r].kind == Repair
      ensures e.table[t].disk == e.table[r].disk && (t != r ==> e.table[t].source != e.table[r].source)
    {
      assert IsRepair(e, t) && IsRepair(e, r);
    }
  }

  /** An inserted record takes its chunk, and only that, out of what is missing. */
  lemma InsertFollowsRemain(s: State, t: TaskId, source: Vuid)
    requires Enabled(s, InsertRepair(t, source))
    ensures var s', disk := Apply(s, InsertRepair(t, source)), s.gen.value.disk;
            && Remain(s', disk) == Remain(s, disk) - {source}
            && OnDisk(s', disk) == OnDisk(s, disk) && RecordedOn(s', disk) == RecordedOn(s, disk) + {source}
            && s'.gen == Some(s.gen.value.(remain := s.gen.value.remain - {source}))
  {
    var s' := Apply(s, InsertRepair(t, source));
    var disk := s.gen.value.disk;
    forall v | v in RecordedOn(s', disk)
      ensures v == source || v in RecordedOn(s, disk)
    {
    }
    forall v | v in RecordedOn(s, disk)
      ensures v in RecordedOn(s', disk)
    {
      var r :| r in s.table && s.table[r].kind == Repair && s.table[r].disk == disk && s.table[r].source == v;
      assert r in s'.table && s'.table[r] == s.table[r];
    }
    assert t in s'.table && s'.table[t].source == source;
    assert RecordedOn(s', disk) == RecordedOn(s, disk) + {source};
    assert OnDisk(s', disk) == OnDisk(s, disk);
  }

  lemma StartTracks(s: State)
    requires Enabled(s, StartGeneration)
    ensures RepairDisk(s).Some? && Safe(s, StartGeneration)
    ensures var s1 := Apply(s, StartGeneration);
      Tracks(s1, {}) && s1.gen.Some? && s1.gen.value.disk == RepairDisk(s).value
  {
    var s1, disk := Apply(s, StartGeneration), RepairDisk(s).value;
    assert OnDisk(s1, disk) == OnDisk(s, disk);
    assert RecordedOn(s1, disk) == RecordedOn(s, disk);
  }

  /** While generation is under way it is ended only by its last step or by a restart. */
  predicate LeavesOpen(step: Step) { !step.EndGeneration? && !step.Restart? }

  /** The chunks that a step brings onto the disk. */
  ghost function Came(s: State, step: Step, disk: nat): set<Vuid>
    requires Enabled(s, step)
  {
    OnDisk(Apply(s, step), disk) - OnDisk(s, disk)
  }

  ghost function AllCame(s: State, steps: seq<Step>, disk: nat): set<Vuid>
    requires IsRun(s, steps)
    decreases |steps|
  {
    if steps == [] then {} else Came(s, steps[0], disk) + AllCame(Apply(s, steps[0]), steps[1..], disk)
  }

  // ---- epochs only grow, and no record is ahead of its unit ----

  ghost predicate UnitsGrow(s: State, s': State) {
    && s'.units.Keys == s.units.Keys
    && forall id | id in s.units ::
         || (s'.units[id].epoch == s.units[id].epoch && s'.units[id].disk == s.units[id].disk)
         || s'.units[id].epoch > s.units[id].epoch
  }

  lemma PerformGrows(task: Task, p: Phase, u: Unit, op: Op)
    requires OpEnabled(task, p, op) && u.epoch <= u.nextEpoch
    ensures var u' := Perform(task, p, u, op).unit; (u'.epoch == u.epoch && u'.disk == u.disk) || u'.epoch > u.epoch
  {
  }

  lemma InstallGrows(s: State, t: TaskId, l: Local)
    requires At(s, t)
    requires || (l.unit.epoch == UnitOf(s, t).epoch && l.unit.disk == UnitOf(s, t).disk)
             || l.unit.epoch > UnitOf(s, t).epoch
    ensures UnitsGrow(s, Install(s, t, l))
  {
  }

  lemma StepGrows(s: State, step: Step)
    requires Inv(s) && Enabled(s, step)
    ensures UnitsGrow(s, Apply(s, step))
  {
    if step.OnTask? {
      hide Perform, Install, UnitsGrow, RepairInv, LocksOk, TasksOk;
      PerformGrows(s.table[step.t], s.phase[step.t], UnitOf(s, step.t), step.op);
      InstallGrows(s, step.t, Perform(s.table[step.t], s.phase[step.t], UnitOf(s, step.t), step.op));
    }
  }

  predicate NotAhead(s: State, v: Vuid) {
    v.prefix in s.units && v.epoch <= s.units[v.prefix].epoch
  }

  /** No repair record, and no chunk that is to get one, is ahead of what is in use. */
  ghost predicate SourcesKnown(s: State) {
    && (forall t | IsRepair(s, t) :: NotAhead(s, s.table[t].source))
    && (s.gen.Some? ==> forall v | v in s.gen.value.remain :: NotAhead(s, v))
  }

  /** A repair record of the next state was there before, or its chunk was to get one. */
  lemma RecordComesFrom(s: State, step: Step, t: TaskId)
    requires Enabled(s, step) && IsRepair(Apply(s, step), t)
    ensures var source := Apply(s, step).table[t].source;
      || (IsRepair(s, t) && s.table[t].source == source)
      || (s.gen.Some? && source in s.gen.value.remain)
  {
    if step.OnTask? {
      hide Perform;
      PerformKeepsIdentity(s.table[step.t], s.phase[step.t], UnitOf(s, step.t), step.op);
    }
  }

  lemma RemainComesFrom(s: State, step: Step)
    requires Enabled(s, step) && Apply(s, step).gen.Some?
    ensures var remain := Apply(s, step).gen.value.remain;
      || (s.gen.Some? && remain <= s.gen.value.remain)
      || (step.StartGeneration? && RepairDisk(s).Some? && remain <= OnDisk(s, RepairDisk(s).value))
  {
    hide Perform;
  }

  lemma StepKeepsKnown(s: State, step: Step)
    requires Inv(s) && Enabled(s, step) && SourcesKnown(s)
    ensures SourcesKnown(Apply(s, step))
  {
    hide Inv, Enabled, Apply;
    var s' := Apply(s, step);
    StepGrows(s, step);
    forall t | IsRepair(s', t)
      ensures NotAhead(s', s'.table[t].source)
    {
      RecordComesFrom(s, step, t);
    }
    if s'.gen.Some? {
      RemainComesFrom(s, step);
    }
  }

  lemma {:induction false} RunKeepsKnown(s: State, steps: seq<Step>)
    requires Inv(s) && SourcesKnown(s) && IsSafeRun(s, steps)
    ensures IsRun(s, steps) && SourcesKnown(Exec(s, steps))
    decreases |steps|
  {
    hide Apply, Enabled, Safe, Inv, SourcesKnown;
    SafeRunIsRun(s, steps);
    if steps != [] {
      StepKeepsInv(s, steps[0]);
      StepKeepsKnown(s, steps[0]);
      RunKeepsKnown(Apply(s, steps[0]), steps[1..]);
    }
  }

  lemma ReachableIsKnown(e: State)
    requires Reachable(e)
    ensures SourcesKnown(e)
  {
    var s, steps :| Init(s) && IsSafeRun(s, steps) && IsRun(s, steps) && Exec(s, steps) == e;
    InitHasInv(s);
    RunKeepsKnown(s, steps);
  }

  // ---- what is missing, along every run ----

  /** The records of a disk change by an insert only while generation is under way. */
  lemma RecordsFollow(s: State, step: Step, disk: nat)
    requires Inv(s) && Enabled(s, step) && s.gen.Some? && LeavesOpen(step) && !step.InsertRepair?
    ensures RecordedOn(Apply(s, step), disk) == RecordedOn(s, disk) && Apply(s, step).gen == s.gen
  {
    if step.OnTask? {
      hide Perform, Inv;
      PerformKeepsIdentity(s.table[step.t], s.phase[step.t], UnitOf(s, step.t), step.op);
      InstallKeepsRecords(s, step.t, Perform(s.table[step.t], s.phase[step.t], UnitOf(s, step.t), step.op), disk);
    } else {
      OtherKeepsRecords(s, step, disk);
    }
  }

  lemma InstallKeepsRecords(s: State, t: TaskId, l: Local, disk: nat)
    requires At(s, t) && l.task.source == s.table[t].source && l.task.disk == s.table[t].disk
    requires l.task.kind == s.table[t].kind
    ensures RecordedOn(Install(s, t, l), disk) == RecordedOn(s, disk)
  {
    SameRecords(s, Install(s, t, l), disk);
  }

  lemma OtherKeepsRecords(s: State, step: Step, disk: nat)
    requires Inv(s) && Enabled(s, step) && s.gen.Some? && LeavesOpen(step) && !step.OnTask? && !step.InsertRepair?
    ensures RecordedOn(Apply(s, step), disk) == RecordedOn(s, disk) && Apply(s, step).gen == s.gen
  {
    hide RecordedOn;
    assert !step.ClearRepaired?;
    SameRecords(s, Apply(s, step), disk);
  }

  lemma SameRecords(s: State, s': State, disk: nat)
    requires forall t :: IsRepair(s', t) <==> IsRepair(s, t)
    requires forall t | IsRepair(s, t) && IsRepair(s', t) ::
               s'.table[t].source == s.table[t].source && s'.table[t].disk == s.table[t].disk
    ensures RecordedOn(s', disk) == RecordedOn(s, disk)
  {
    forall v | v in RecordedOn(s, disk)
      ensures v in RecordedOn(s', disk)
    {
      var t :| t in s.table && s.table[t].kind == Repair && s.table[t].disk == disk && s.table[t].source == v;
      assert IsRepair(s, t) && IsRepair(s', t);
    }
    forall v | v in RecordedOn(s', disk)
      ensures v in RecordedOn(s, disk)
    {
      var t :| t in s'.table && s'.table[t].kind == Repair && s'.table[t].disk == disk && s'.table[t].source == v;
      assert IsRepair(s', t) && IsRepair(s, t);
    }
  }

  /** A chunk that comes onto a disk is ahead of what was in use before. */
  lemma CameIsNew(s: State, step: Step, disk: nat, v: Vuid)
    requires Inv(s) && Enabled(s, step) && v in Came(s, step, disk)
    ensures !NotAhead(s, v)
  {
    hide Inv, Enabled, Apply;
    StepGrows(s, step);
  }

  /** While generation is under way, on its disk exactly those chunks lack a record that it has
      still to do and those that came. */
  ghost predicate Tracks(s: State, came: set<Vuid>) {
    s.gen.Some? &&
    var disk, remain := s.gen.value.disk, s.gen.value.remain;
    Remain(s, disk) <= remain + came && RecordedOn(s, disk) !! remain + came && remain !! came
  }

  lemma TracksExactly(s: State, came: set<Vuid>)
    requires Tracks(s, came)
    ensures Remain(s, s.gen.value.disk) == OnDisk(s, s.gen.value.disk) * (s.gen.value.remain + came)
  {
    hide OnDisk, RecordedOn;
  }

  lemma StepTracks(s: State, step: Step, came: set<Vuid>)
    requires Inv(s) && SourcesKnown(s) && Enabled(s, step) && LeavesOpen(step) && s.gen.Some? && Tracks(s, came)
    ensures var s', disk := Apply(s, step), s.gen.value.disk;
            Tracks(s', came + Came(s, step, disk)) && s'.gen.Some? && s'.gen.value.disk == disk
  {
    hide Inv, Enabled, Apply, OnDisk, RecordedOn;
    var s', disk := Apply(s, step), s.gen.value.disk;
    forall v | v in Came(s, step, disk)
      ensures v !in RecordedOn(s, disk) && v !in s.gen.value.remain
    {
      CameIsNew(s, step, disk, v);
      RecordedIsKnown(s, disk, v);
    }
    if step.InsertRepair? {
      InsertFollowsRemain(s, step.t, step.source);
      InsertedWasMissing(s, step.t, step.source);
    } else {
      RecordsFollow(s, step, disk);
    }
  }

  lemma InsertedWasMissing(s: State, t: TaskId, source: Vuid)
    requires Enabled(s, InsertRepair(t, source))
    ensures s.gen.Some? && source in s.gen.value.remain
  {
  }

  lemma RecordedIsKnown(s: State, disk: nat, v: Vuid)
    requires SourcesKnown(s)
    ensures v in RecordedOn(s, disk) ==> NotAhead(s, v)
  {
    if v in RecordedOn(s, disk) {
      var t :| t in s.table && s.table[t].kind == Repair && s.table[t].disk == disk && s.table[t].source == v;
      assert IsRepair(s, t);
    }
  }

  lemma {:induction false} RunTracks(s: State, steps: seq<Step>, came: set<Vuid>)
    requires Inv(s) && SourcesKnown(s) && s.gen.Some? && Tracks(s, came)
    requires IsSafeRun(s, steps) && forall i | 0 <= i < |steps| :: LeavesOpen(steps[i])
    ensures IsRun(s, steps)
    ensures var e, disk := Exec(s, steps), s.gen.value.disk;
            Tracks(e, came + AllCame(s, steps, disk)) && e.gen.Some? && e.gen.value.disk == disk
    decreases |steps|
  {
    hide Apply, Enabled, Safe, Inv, SourcesKnown, Tracks, Came;
    SafeRunIsRun(s, steps);
    if steps == [] {
      assert came + {} == came;
    } else {
      var disk := s.gen.value.disk;
      StepTracks(s, steps[0], came);
      StepKeepsInv(s, steps[0]);
      StepKeepsKnown(s, steps[0]);
      RunTracks(Apply(s, steps[0]), steps[1..], came + Came(s, steps[0], disk));
      assert came + Came(s, steps[0], disk) + AllCame(Apply(s, steps[0]), steps[1..], disk)
          == came + AllCame(s, steps, disk);
    }
  }

  /**
   * When generation has inserted all it found missing, generating again would insert exactly the
   * chunks that came onto the disk meanwhile and are still there, whatever any handlers did.
   */
  lemma GenerationIsIdempotent(s: State, steps: seq<Step>)
    requires Reachable(s) && Enabled(s, StartGeneration)
    requires IsSafeRun(Apply(s, StartGeneration), steps) && forall i | 0 <= i < |steps| :: LeavesOpen(steps[i])
    ensures IsRun(Apply(s, StartGeneration), steps)
    ensures var s1, disk := Apply(s, StartGeneration), RepairDisk(s).value;
            var e := Exec(s1, steps);
            Enabled(e, EndGeneration) ==>
              && Remain(e, disk) == OnDisk(e, disk) * AllCame(s1, steps, disk)
              && (Remain(e, disk) == {} <==> OnDisk(e, disk) !! AllCame(s1, steps, disk))
  {
    hide Apply, Enabled, Safe, Inv, Remain, Reachable, AllCame, SourcesKnown, OnDisk, RecordedOn;
    var s1 := Apply(s, StartGeneration);
    StartTracks(s);
    ReachableHasInv(s);
    ReachableIsKnown(s);
    StepKeepsInv(s, StartGeneration);
    StepKeepsKnown(s, StartGeneration);
    RunTracks(s1, steps, {});
    TracksExactly(Exec(s1, steps), {} + AllCame(s1, steps, RepairDisk(s).value));
    EndMeansNoneRemain();
  }

  lemma EndMeansNoneRemain()
    ensures forall e | Enabled(e, EndGeneration) :: e.gen.Some? && e.gen.value.remain == {}
  {
  }

  // ---- the stray allocation ----

  lemma ConsRun(s: State, step: Step, rest: seq<Step>)
    requires Enabled(s, step) && Safe(s, step) && IsSafeRun(Apply(s, step), rest)
    ensures IsSafeRun(s, [step] + rest) && IsRun(s, [step] + rest) && IsRun(Apply(s, step), rest)
    ensures Exec(s, [step] + rest) == Exec(Apply(s, step), rest)
  {
    hide Apply, Enabled, Safe;
    SafeRunIsRun(Apply(s, step), rest);
    assert ([step] + rest)[1..] == rest;
  }

  /** The mapping has left the task's source for a chunk other than its destination. */
  predicate Lost(s: State, t: TaskId, dest: Vuid) {
    && At(s, t) && !s.panicked && UnitOf(s, t).epoch <= UnitOf(s, t).nextEpoch
    && UnitOf(s, t).epoch != s.table[t].source.epoch && UnitOf(s, t).epoch != dest.epoch
  }

  lemma PanicFromSaved(s: State, t: TaskId) returns (steps: seq<Step>)
    requires At(s, t) && s.phase[t].Saved? && Lost(s, t, s.phase[t].dest)
    ensures IsSafeRun(s, steps) && IsRun(s, steps) && Exec(s, steps).panicked
  {
    steps := [OnTask(t, CheckVolume(ChunkAnswers))];
    ConsRun(s, steps[0], []);
  }

  lemma PanicFromFinishing(s: State, t: TaskId) returns (steps: seq<Step>)
    requires At(s, t) && s.phase[t].Finishing? && Lost(s, t, s.phase[t].dest)
    ensures IsSafeRun(s, steps) && IsRun(s, steps) && Exec(s, steps).panicked
  {
    var step := OnTask(t, SaveCompleted);
    var rest := PanicFromSaved(Apply(s, step), t);
    ConsRun(s, step, rest);
    steps := [step] + rest;
  }

  lemma PanicFromWorking(s: State, t: TaskId) returns (steps: seq<Step>)
    requires At(s, t) && s.phase[t].Working? && Lost(s, t, s.phase[t].dest)
    ensures IsSafeRun(s, steps) && IsRun(s, steps) && Exec(s, steps).panicked
  {
    var step := OnTask(t, Complete(Completed));
    var rest := PanicFromFinishing(Apply(s, step), t);
    ConsRun(s, step, rest);
    steps := [step] + rest;
  }

  lemma PanicFromReallocated(s: State, t: TaskId) returns (steps: seq<Step>)
    requires At(s, t) && s.phase[t].Reallocated? && Lost(s, t, s.phase[t].redo)
    ensures IsSafeRun(s, steps) && IsRun(s, steps) && Exec(s, steps).panicked
  {
    var step := OnTask(t, SaveRedo);
    var rest := PanicFromWorking(Apply(s, step), t);
    ConsRun(s, step, rest);
    steps := [step] + rest;
  }

  lemma PanicFromRedoing(s: State, t: TaskId) returns (steps: seq<Step>)
    requires At(s, t) && s.phase[t].Redoing? && !s.panicked
    requires UnitOf(s, t).epoch != s.table[t].source.epoch && UnitOf(s, t).epoch <= UnitOf(s, t).nextEpoch
    ensures IsSafeRun(s, steps) && IsRun(s, steps) && Exec(s, steps).panicked
  {
    var step := OnTask(t, RedoAlloc);
    var rest := PanicFromReallocated(Apply(s, step), t);
    ConsRun(s, step, rest);
    steps := [step] + rest;
  }

  /** The update to dest was applied, and a later destination has been handed out since. */
  predicate Overtaken(s: State, t: TaskId, dest: Vuid) {
    && At(s, t) && !s.panicked
    && s.table[t].source.epoch < dest.epoch == UnitOf(s, t).epoch < UnitOf(s, t).nextEpoch
  }

  lemma PanicFromOvertaken(s: State, t: TaskId) returns (steps: seq<Step>)
    requires At(s, t) && s.phase[t].Finishing? && Overtaken(s, t, s.phase[t].dest)
    ensures IsSafeRun(s, steps) && IsRun(s, steps) && Exec(s, steps).panicked
  {
    var save, update := OnTask(t, SaveCompleted), OnTask(t, CheckVolume(ChunkAnswers));
    var s1 := Apply(s, save);
    var s2 := Apply(s1, update);
    var rest := PanicFromRedoing(s2, t);
    ConsRun(s1, update, rest);
    ConsRun(s, save, [update] + rest);
    steps := [save] + ([update] + rest);
  }

  function AfterStray(s: State, id: UnitId): State
    requires id in s.units
  {
    s.(units := ClusterMapping.Allocated(s.units, id))
  }

  /** A restart puts an applied task back into the finish queue with the same destination. */
  lemma RestartResumesFinish(s: State, t: TaskId)
    requires !s.panicked && LoadSucceeds(s.table) && t in s.table
    requires s.table[t].state == WorkCompleted && s.table[t].dest.Some?
    ensures Enabled(s, Restart)
    ensures var s' := Apply(s, Restart);
            s'.table == s.table && s'.units == s.units && !s'.panicked
            && t in s'.phase && s'.phase[t] == Finishing(s.table[t].dest.value)
  {
  }

  predicate OvertakenRecord(s: State, t: TaskId) {
    && t in s.table && s.table[t].state == WorkCompleted && s.table[t].dest.Some?
    && s.table[t].source.prefix in s.units
    && var u := s.units[s.table[t].source.prefix];
       s.table[t].source.epoch < s.table[t].dest.value.epoch == u.epoch < u.nextEpoch
  }

  lemma AppliedIsOvertaken(s: State, id: UnitId) returns (t: TaskId)
    requires Inv(s) && id in s.units && AppliedAt(s, id)
    ensures OvertakenRecord(AfterStray(s, id), t)
  {
    t :| t in s.table && IsAppliedAt(s, t, id);
    assert TaskOk(s, t);
  }

  lemma PanicAfterRestart(s: State, t: TaskId) returns (steps: seq<Step>)
    requires !s.panicked && LoadSucceeds(s.table) && OvertakenRecord(s, t)
    ensures IsSafeRun(s, steps) && IsRun(s, steps) && Exec(s, steps).panicked
  {
    RestartResumesFinish(s, t);
    var rest := PanicFromOvertaken(Apply(s, Restart), t);
    ConsRun(s, Restart, rest);
    steps := [Restart] + rest;
  }

  /** An allocation that overtakes an applied update leads to the panic: the retried update is
      refused with a redo code although it was applied, the task is redone with a new
      destination, and the update of that one no longer finds the source in the mapping. */
  lemma OvertakingAllocationPanics(s: State, id: UnitId) returns (steps: seq<Step>)
    requires Inv(s) && id in s.units && AppliedAt(s, id)
    ensures IsSafeRun(AfterStray(s, id), steps) && IsRun(AfterStray(s, id), steps)
    ensures Exec(AfterStray(s, id), steps).panicked
  {
    var t := AppliedIsOvertaken(s, id);
    LoadNeverPanics(s);
    steps := PanicAfterRestart(AfterStray(s, id), t);
  }

  /** The condition on allocations is exact: an allocation is harmless, whatever happens after,
      if and only if no running task of the unit has been mapped already. */
  lemma StrayAllocationIsExact(e: State, id: UnitId)
    requires Reachable(e) && id in e.units
    ensures !AppliedAt(e, id) <==>
            forall steps :: IsSafeRun(AfterStray(e, id), steps) && IsRun(AfterStray(e, id), steps)
              ==> !Exec(AfterStray(e, id), steps).panicked
  {
    ReachableHasInv(e);
    if AppliedAt(e, id) {
      var steps := OvertakingAllocationPanics(e, id);
    } else {
      StepKeepsInv(e, StrayAlloc(id));
      forall steps | IsSafeRun(AfterStray(e, id), steps) && IsRun(AfterStray(e, id), steps)
        ensures !Exec(AfterStray(e, id), steps).panicked
      {
        RunKeepsInv(AfterStray(e, id), steps);
      }
    }
  }

  /** An allocation on the unit of a task under way that is still mapped to its source is harmless. */
  lemma SourceIsSafe(e: State, t: TaskId)
    requires Reachable(e) && At(e, t) && Holds(e, t) && InUse(e, e.table[t].source)
    ensures Safe(e, StrayAlloc(e.table[t].source.prefix))
  {
    ReachableHasInv(e);
    forall r | r in e.table
      ensures !IsAppliedAt(e, r, e.table[t].source.prefix)
    {
      assert TaskOk(e, r) && TaskOk(e, t);
    }
  }

  /** A reclaim request for a task that is in its work queue meets the condition. */
  lemma ReclaimFromQueueIsSafe(e: State, t: TaskId)
    requires Reachable(e) && t in e.phase && e.phase[t].Working?
    ensures t in e.table && Safe(e, StrayAlloc(e.table[t].source.prefix))
  {
    ReachableHasInv(e);
    assert TaskOk(e, t);
    SourceIsSafe(e, t);
  }
}
