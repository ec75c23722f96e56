/**
 * The part of the cluster manager that the background tasks depend on: for every unit of every
 * volume the epoch in use and the last epoch handed out.  A chunk id (vuid) is a unit together
 * with an epoch.
 */
module ClusterMapping {

  datatype UnitId = UnitId(vid: nat, index: nat)

  datatype Vuid = Vuid(prefix: UnitId, epoch: nat)

  datatype Unit = Unit(epoch: nat, nextEpoch: nat, disk: nat)

  type Mapping = map<UnitId, Unit>

  /** Codes of the cluster manager's answer to an update that matter to a task manager. */
  datatype Code = Success | OldVuidNotMatch | NewVuidNotMatch | StatChunkFailed | OtherError

  /** What the checks made before proposing an update decide. */
  datatype Verdict = Refused(code: Code) | Repeated | Proposable

  function CheckUpdate(u: Unit, newVuid: Vuid, oldVuid: Vuid): Verdict {
    if (u.epoch != oldVuid.epoch && u.epoch != newVuid.epoch) || u.nextEpoch < oldVuid.epoch then
      Refused(OldVuidNotMatch)
    else if u.nextEpoch != newVuid.epoch then
      Refused(NewVuidNotMatch)
    else if u.epoch == newVuid.epoch then
      Repeated
    else
      Proposable
  }

  /** How the checks went on the wire: whether the destination chunk answers, or no reply came. */
  datatype CheckFate = ChunkAnswers | ChunkFails | CheckLost

  /** How the proposal went: applied or not, and the reply back or lost on the way. */
  datatype ApplyFate = ApplyFate(applied: bool, replyLost: bool)

  /** What applying a proposal does.  If another destination has been handed out since the checks,
      it does nothing, and the caller is told of success all the same. */
  function AppliedUnit(u: Unit, newVuid: Vuid, disk: nat, fate: ApplyFate): Unit {
    if fate.applied && u.epoch != newVuid.epoch && u.nextEpoch <= newVuid.epoch then
      u.(epoch := newVuid.epoch, disk := disk)
    else
      u
  }

  /** The codes after which a task manager allocates a new destination and redoes the work. */
  predicate ShouldAllocAndRedo(code: Code) {
    code == NewVuidNotMatch || code == StatChunkFailed
  }

  /** Handing out a destination only moves the unit's next epoch. */
  function Allocated(m: Mapping, id: UnitId): Mapping
    requires id in m
  {
    m[id := m[id].(nextEpoch := m[id].nextEpoch + 1)]
  }
}
