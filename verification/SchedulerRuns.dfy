/**
 * Runs between two states, and runs of the machine that go where one would not expect.
 */
module SchedulerRuns {

  import opened Wrappers
  import opened ClusterMapping
  import opened SchedulerModel
  import opened SchedulerInvariant
  import opened SchedulerTheorems

  // ---- runs between two states ----

  ghost predicate Leads(s: State, e: State) {
    exists steps :: IsSafeRun(s, steps) && IsRun(s, steps) && Exec(s, steps) == e
  }

  lemma LeadsNowhere(s: State)
    ensures Leads(s, s)
  {
    assert IsSafeRun(s, []) && IsRun(s, []) && Exec(s, []) == s;
  }

  lemma {:induction false} SnocRun(s: State, steps: seq<Step>, step: Step)
    requires IsSafeRun(s, steps) && IsRun(s, steps)
    requires Enabled(Exec(s, steps), step) && Safe(Exec(s, steps), step)
    ensures IsSafeRun(s, steps + [step]) && IsRun(s, steps + [step])
    ensures Exec(s, steps + [step]) == Apply(Exec(s, steps), step)
    decreases |steps|
  {
    hide Apply, Enabled, Safe;
    if steps == [] {
      ConsRun(s, step, []);
      assert steps + [step] == [step] + [];
    } else {
      var s1 := Apply(s, steps[0]);
      SnocRun(s1, steps[1..], step);
      ConsRun(s, steps[0], steps[1..] + [step]);
      assert steps + [step] == [steps[0]] + (steps[1..] + [step]);
    }
  }

  lemma LeadsOn(s: State, m: State, step: Step)
    requires Leads(s, m) && Enabled(m, step) && Safe(m, step)
    ensures Leads(s, Apply(m, step))
  {
    var steps :| IsSafeRun(s, steps) && IsRun(s, steps) && Exec(s, steps) == m;
    SnocRun(s, steps, step);
  }

  /** One more operation on t, seen from where the handler started. */
  lemma Advance(s: State, m: State, t: TaskId, op: Op) returns (e: State)
    requires Leads(s, m) && !m.panicked && At(m, t) && OpEnabled(m.table[t], m.phase[t], op)
    requires op.LockTask? ==> m.table[t].Vid() !in m.locks
    ensures Leads(s, e) && e == Install(m, t, Perform(m.table[t], m.phase[t], UnitOf(m, t), op))
  {
    e := Apply(m, OnTask(t, op));
    LeadsOn(s, m, OnTask(t, op));
  }

  lemma AdvanceWith(s: State, m: State, step: Step) returns (e: State)
    requires Leads(s, m) && Enabled(m, step) && Safe(m, step)
    ensures Leads(s, e) && e == Apply(m, step)
  {
    e := Apply(m, step);
    LeadsOn(s, m, step);
  }

  lemma LeadsStaysReachable(s: State, e: State)
    requires Reachable(s) && Leads(s, e)
    ensures Reachable(e)
  {
    var i, before :| Init(i) && IsSafeRun(i, before) && IsRun(i, before) && Exec(i, before) == s;
    var after :| IsSafeRun(s, after) && IsRun(s, after) && Exec(s, after) == e;
    AppendRun(i, before, after);
  }

  lemma {:induction false} AppendRun(s: State, before: seq<Step>, after: seq<Step>)
    requires IsSafeRun(s, before) && IsRun(s, before)
    requires IsSafeRun(Exec(s, before), after) && IsRun(Exec(s, before), after)
    ensures IsSafeRun(s, before + after) && IsRun(s, before + after)
    ensures Exec(s, before + after) == Exec(Exec(s, before), after)
    decreases |before|
  {
    hide Apply, Enabled, Safe;
    if before == [] {
      assert before + after == after;
    } else {
      AppendRun(Apply(s, before[0]), before[1..], after);
      ConsRun(s, before[0], before[1..] + after);
      assert before + after == [before[0]] + (before[1..] + after);
    }
  }

  /** What is known of one task in a reachable state. */
  lemma KnownTask(e: State, t: TaskId)
    requires Reachable(e)
    ensures t in e.phase ==> t in e.table
    ensures t in e.table ==> TaskOk(e, t) && (Holds(e, t) ==> e.table[t].Vid() in e.locks)
  {
    ReachableHasInv(e);
    if t in e.table {
      assert TaskOk(e, t);
    }
  }

  // ---- when an acknowledged update is in force ----

  /** An update that passed the checks takes hold when it is applied exactly if no other destination
      has been handed out since; the caller is told of success in either case. */
  lemma AppliesExactly(e: State, t: TaskId, disk: nat)
    requires Reachable(e) && t in e.phase && e.phase[t].Proposed?
    ensures Enabled(e, OnTask(t, ApplyVolume(disk, ApplyFate(true, false))))
    ensures var e', dest := Apply(e, OnTask(t, ApplyVolume(disk, ApplyFate(true, false)))), e.phase[t].dest;
            && t in e'.phase && e'.phase[t] == Mapped(dest)
            && (InUse(e', dest) <==> UnitOf(e, t).nextEpoch == dest.epoch)
  {
    ReachableHasInv(e);
    assert TaskOk(e, t);
  }

  /** No destination has been handed out since the update of t passed the checks. */
  predicate InForce(s: State, t: TaskId) {
    At(s, t) ==> PlaceInForce(UnitOf(s, t), s.phase[t])
  }

  ghost predicate AllInForce(s: State) {
    forall t | t in s.phase :: InForce(s, t)
  }

  predicate IsProposedAt(s: State, t: TaskId, id: UnitId) {
    t in s.phase && t in s.table && s.phase[t].Proposed? && s.table[t].source.prefix == id
  }

  /** The step hands out no destination for a unit whose update has passed the checks. */
  ghost predicate Waits(s: State, step: Step) {
    step.StrayAlloc? ==> forall t :: !IsProposedAt(s, t, step.id)
  }

  predicate PlaceInForce(u: Unit, p: Phase) {
    (p.Proposed? ==> u.nextEpoch == p.dest.epoch) && (p.Mapped? ==> AppliedTo(u, p.dest))
  }

  lemma PerformInForce(task: Task, p: Phase, u: Unit, op: Op)
    requires LocalOk(Kept(task, p, u)) && OpEnabled(task, p, op) && PlaceInForce(u, p)
    ensures var l := Perform(task, p, u, op); l.phase.Some? ==> PlaceInForce(l.unit, l.phase.value)
  {
  }

  lemma OwnStepInForce(s: State, t: TaskId, op: Op)
    requires Inv(s) && AllInForce(s) && Enabled(s, OnTask(t, op))
    ensures InForce(Apply(s, OnTask(t, op)), t)
  {
    hide Perform, LocalOk, CoreInv, RepairInv, PlaceInForce;
    var l := Perform(s.table[t], s.phase[t], UnitOf(s, t), op);
    LocalOf(s, t);
    assert InForce(s, t);
    PerformKeepsIdentity(s.table[t], s.phase[t], UnitOf(s, t), op);
    PerformInForce(s.table[t], s.phase[t], UnitOf(s, t), op);
    assert Apply(s, OnTask(t, op)) == Install(s, t, l);
  }

  /** A task under way is alone on its volume, so steps of other tasks leave its unit alone. */
  lemma OtherStepInForce(s: State, t: TaskId, op: Op, r: TaskId)
    requires Inv(s) && AllInForce(s) && Enabled(s, OnTask(t, op)) && r in s.phase && r != t
    ensures InForce(Apply(s, OnTask(t, op)), r)
  {
    hide Perform, PhaseOk, LocksHeld, LocksUsed, RepairInv;
    var l := Perform(s.table[t], s.phase[t], UnitOf(s, t), op);
    assert TaskOk(s, t) && TaskOk(s, r) && InForce(s, r);
    PerformKeepsIdentity(s.table[t], s.phase[t], UnitOf(s, t), op);
    if Holds(s, t) && Holds(s, r) {
      assert s.table[r].Vid() != s.table[t].Vid();
    }
    if s.phase[t].Queued? {
      QueuedKeepsUnit(s.table[t], s.phase[t], UnitOf(s, t), op);
    }
    assert Apply(s, OnTask(t, op)) == Install(s, t, l);
  }

  lemma StrayInForce(s: State, id: UnitId, r: TaskId)
    requires Inv(s) && AllInForce(s) && id in s.units && Safe(s, StrayAlloc(id)) && Waits(s, StrayAlloc(id))
    requires !s.panicked
    requires r in s.phase
    ensures InForce(Apply(s, StrayAlloc(id)), r)
  {
    var s' := Apply(s, StrayAlloc(id));
    assert InForce(s, r) && r in s.table && TaskOk(s, r);
    if At(s', r) && s.table[r].source.prefix == id {
      assert !IsProposedAt(s, r, id) && !IsAppliedAt(s, r, id);
    }
  }

  /** Any other step leaves the places past the checks as they are, and a restart has none. */
  lemma OtherInForce(s: State, step: Step, r: TaskId)
    requires AllInForce(s) && Enabled(s, step) && !step.OnTask? && !step.StrayAlloc? && r in Apply(s, step).phase
    ensures var s' := Apply(s, step);
      || (r in s.phase && s'.phase[r] == s.phase[r] && s'.units == s.units)
      || (!s'.phase[r].Proposed? && !s'.phase[r].Mapped?)
  {
  }

  lemma SamePlace(s: State, s': State, r: TaskId)
    requires InForce(s, r) && r in s.phase && r in s'.phase && s'.phase[r] == s.phase[r] && s'.units == s.units
    requires r in s'.table ==> r in s.table && s'.table[r].source == s.table[r].source
    ensures InForce(s', r)
  {
  }

  lemma SameSource(s: State, step: Step, r: TaskId)
    requires Inv(s) && Enabled(s, step) && !step.OnTask? && !step.StrayAlloc? && r in s.phase
    requires r in Apply(s, step).table
    ensures r in s.table && Apply(s, step).table[r].source == s.table[r].source
  {
  }

  lemma StepInForce(s: State, step: Step)
    requires Inv(s) && AllInForce(s) && Enabled(s, step) && Safe(s, step) && Waits(s, step)
    ensures AllInForce(Apply(s, step))
  {
    hide Inv, Enabled, Apply, Safe, Waits;
    var s' := Apply(s, step);
    forall r | r in s'.phase
      ensures InForce(s', r)
    {
      if step.OnTask? {
        if r == step.t {
          OwnStepInForce(s, r, step.op);
        } else {
          OnlyOwnPlace(s, step.t, step.op, r);
          OtherStepInForce(s, step.t, step.op, r);
        }
      } else if step.StrayAlloc? {
        StraySamePhase(s, step.id);
        StrayInForce(s, step.id, r);
      } else {
        OtherInForce(s, step, r);
        if r in s.phase && s'.phase[r] == s.phase[r] && s'.units == s.units {
          assert InForce(s, r);
          if r in s'.table {
            SameSource(s, step, r);
          }
          SamePlace(s, s', r);
        }
      }
    }
  }

  lemma OnlyOwnPlace(s: State, t: TaskId, op: Op, r: TaskId)
    requires Enabled(s, OnTask(t, op)) && r != t && r in Apply(s, OnTask(t, op)).phase
    ensures r in s.phase
  {
    hide Perform;
  }

  lemma StraySamePhase(s: State, id: UnitId)
    requires Enabled(s, StrayAlloc(id))
    ensures Apply(s, StrayAlloc(id)).phase == s.phase && id in s.units && !s.panicked
  {
  }

  ghost predicate IsWaitingRun(s: State, steps: seq<Step>)
    decreases |steps|
  {
    steps == [] || (Enabled(s, steps[0]) && Waits(s, steps[0]) && IsWaitingRun(Apply(s, steps[0]), steps[1..]))
  }

  lemma {:induction false} RunInForce(s: State, steps: seq<Step>)
    requires Inv(s) && AllInForce(s) && IsSafeRun(s, steps) && IsWaitingRun(s, steps)
    ensures IsRun(s, steps) && AllInForce(Exec(s, steps))
    decreases |steps|
  {
    hide Apply, Enabled, Safe, Waits, Inv, AllInForce;
    if steps != [] {
      StepInForce(s, steps[0]);
      StepKeepsInv(s, steps[0]);
      RunInForce(Apply(s, steps[0]), steps[1..]);
    }
  }

  /** If no destination is handed out while an update of its unit is under way, then in every run a
      task whose update was acknowledged has its destination in use. */
  lemma AcknowledgedIsInUse(s: State, steps: seq<Step>, t: TaskId)
    requires Init(s) && IsSafeRun(s, steps) && IsWaitingRun(s, steps)
    ensures IsRun(s, steps)
    ensures var e := Exec(s, steps); t in e.phase && e.phase[t].Mapped? ==> InUse(e, e.phase[t].dest)
  {
    hide Enabled, Apply;
    InitHasInv(s);
    assert AllInForce(s);
    RunKeepsInv(s, steps);
    RunInForce(s, steps);
    var e := Exec(s, steps);
    if t in e.phase && e.phase[t].Mapped? {
      assert t in e.table && TaskOk(e, t) && InForce(e, t);
    }
  }

  // ---- runs to states that matter ----

  const Unit0 := UnitId(0, 0)

  /** One unit on disk 0, and two disks. */
  function Start(): State {
    State(map[], map[Unit0 := Unit(1, 1, 0)], map[0 := Normal, 1 := Normal], map[], {}, None, None,
          false, None, false, false)
  }

  const Source0 := Vuid(Unit0, 1)
  const Dest0 := Vuid(Unit0, 2)

  /** A migration whose update has passed the checks. */
  function Waiting(): State {
    Start().(table := map[0 := Task(Balance, WorkCompleted, Source0, Some(Dest0), 0)],
             units := map[Unit0 := Unit(1, 2, 0)], phase := map[0 := Proposed(Dest0)], locks := {0})
  }

  lemma PreparedIsReachable() returns (a: State)
    ensures Reachable(a)
    ensures a == Start().(table := map[0 := Task(Balance, Prepared, Source0, Some(Dest0), 0)],
                          units := map[Unit0 := Unit(1, 2, 0)], phase := map[0 := Working(Dest0)], locks := {0})
  {
    hide Leads, Reachable;
    var s := Start();
    LeadsNowhere(s);
    a := AdvanceWith(s, s, Step.AddTask(0, Balance, Source0, 0));
    a := Advance(s, a, 0, LockTask);
    a := Advance(s, a, 0, ReadVolume);
    a := Advance(s, a, 0, AllocDest);
    a := Advance(s, a, 0, SavePrepared);
    StartIsReachable();
    LeadsStaysReachable(s, a);
  }

  lemma WaitingIsReachable()
    ensures Reachable(Waiting())
  {
    hide Leads, Reachable;
    var a := PreparedIsReachable();
    LeadsNowhere(a);
    var b := Advance(a, a, 0, Complete(Completed));
    b := Advance(a, b, 0, SaveCompleted);
    b := Advance(a, b, 0, CheckVolume(ChunkAnswers));
    assert b == Waiting();
    LeadsStaysReachable(a, b);
  }

  lemma StartIsReachable()
    ensures Reachable(Start())
  {
    assert Init(Start()) && IsSafeRun(Start(), []) && IsRun(Start(), []) && Exec(Start(), []) == Start();
  }

  /** A state in which an update was applied and the reply to it lost: an allocation on that unit
      leads to the panic. */
  lemma AppliedIsReachable() returns (e: State, id: UnitId)
    ensures Reachable(e) && id in e.units && AppliedAt(e, id)
    ensures exists t :: t in e.phase && e.phase[t].Finishing?
  {
    WaitingIsReachable();
    var s := Waiting();
    LeadsNowhere(s);
    e := Advance(s, s, 0, ApplyVolume(1, ApplyFate(true, true)));
    id := Unit0;
    LeadsStaysReachable(s, e);
    assert IsAppliedAt(e, 0, Unit0);
    assert e.phase[0].Finishing?;
  }

  /** A destination handed out at the wrong time: the update is acknowledged, and the task goes on to
      release its source, while the source is still the chunk in use. */
  lemma AcknowledgedWithoutEffect() returns (e: State, t: TaskId)
    ensures Reachable(e) && t in e.phase && t in e.table && e.phase[t].Mapped?
    ensures InUse(e, e.table[t].source) && !InUse(e, e.phase[t].dest)
  {
    WaitingIsReachable();
    var s := Waiting();
    LeadsNowhere(s);
    SourceIsSafe(s, 0);
    var a := AdvanceWith(s, s, StrayAlloc(Unit0));
    e := Advance(s, a, 0, ApplyVolume(1, ApplyFate(true, false)));
    t := 0;
    LeadsStaysReachable(s, e);
  }

  /** The disk it is to move to has broken and been taken up for repair. */
  function Broken1(): State {
    Waiting().(disks := map[0 := Normal, 1 := Broken], brokenDisk := Some(1))
  }

  lemma BrokenIsReachable()
    ensures Reachable(Broken1())
  {
    hide Leads, Reachable;
    WaitingIsReachable();
    var w := Waiting();
    LeadsNowhere(w);
    var s := AdvanceWith(w, w, DiskBreaks(1));
    s := AdvanceWith(w, s, AcquireBroken(1));
    assert s == Broken1();
    LeadsStaysReachable(w, s);
  }

  /** A migration onto a disk that breaks before the mapping changes: its chunk arrives after the
      disk was listed, and generation ends without a record for it. */
  lemma ArrivalIsMissed() returns (s: State, steps: seq<Step>)
    ensures Reachable(s) && Enabled(s, StartGeneration) && RepairDisk(s) == Some(1)
    ensures IsSafeRun(Apply(s, StartGeneration), steps) && IsRun(Apply(s, StartGeneration), steps)
    ensures forall i | 0 <= i < |steps| :: LeavesOpen(steps[i])
    ensures var e := Exec(Apply(s, StartGeneration), steps); Enabled(e, EndGeneration) && Remain(e, 1) == {Dest0}
  {
    hide Reachable, Broken1;
    BrokenIsReachable();
    s := Broken1();
    var g := BrokenStarts();
    var step := OnTask(0, ApplyVolume(1, ApplyFate(true, false)));
    steps := [step];
    MovedRemains(g);
    hide Enabled, Apply, Remain;
    ConsRun(g, step, []);
    assert steps == [step] + [];
  }

  lemma BrokenStarts() returns (g: State)
    ensures RepairDisk(Broken1()) == Some(1) && Enabled(Broken1(), StartGeneration)
    ensures g == Apply(Broken1(), StartGeneration) == Broken1().(gen := Some(Generation(1, {}, false)))
  {
    g := Apply(Broken1(), StartGeneration);
    assert OnDisk(Broken1(), 1) == {};
    assert Remain(Broken1(), 1) == {};
  }

  lemma MovedRemains(g: State)
    requires g == Broken1().(gen := Some(Generation(1, {}, false)))
    ensures var step := OnTask(0, ApplyVolume(1, ApplyFate(true, false)));
            Enabled(g, step) && Enabled(Apply(g, step), EndGeneration) && Remain(Apply(g, step), 1) == {Dest0}
  {
    var l := Perform(g.table[0], g.phase[0], UnitOf(g, 0), ApplyVolume(1, ApplyFate(true, false)));
    assert l.unit == Unit(2, 2, 1) && l.task == g.table[0] && l.phase == Some(Mapped(Dest0));
    var e := Apply(g, OnTask(0, ApplyVolume(1, ApplyFate(true, false))));
    assert e.units == map[Unit0 := Unit(2, 2, 1)] && e.table == g.table;
    OneUnitOnDisk(e, Unit(2, 2, 1));
    assert RecordedOn(e, 1) == {};
  }

  lemma OneUnitOnDisk(e: State, u: Unit)
    requires e.units == map[Unit0 := u]
    ensures OnDisk(e, u.disk) == {Vuid(Unit0, u.epoch)}
  {
    assert Unit0 in e.units;
  }
}
