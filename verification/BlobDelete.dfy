/**
 * Two-phase deletion of one blob: every shard is marked, then every shard is deleted, with
 * stages kept in memory and persisted with the message when it goes to the fail queue.
 */
module BlobDelete {

  datatype Stage = InitStage | MarkDel | Del

  type Stages = map<nat, Stage>

  /** Where a shard is: its index in the volume, the epoch of its chunk, and the disk. */
  datatype Loc = Loc(index: nat, epoch: nat, disk: nat)

  /** A version of the volume: the location of each shard, and its status. */
  datatype Vol = Vol(locs: seq<Loc>, status: nat)

  predicate InPlace(v: Vol) {
    forall i | 0 <= i < |v.locs| :: v.locs[i].index == i
  }

  /** Gone: the shard does not exist or is marked already; NeedsUpdate: the location is outdated. */
  datatype Reply = Accepted | Gone | NeedsUpdate | Failed

  predicate Success(r: Reply) {
    r.Accepted? || r.Gone?
  }

  /** The cached version of the volume over time. */
  type History = nat -> Vol

  /**
   * The surroundings, by the number of the step: when is the time of a step; gets and updates
   * tell whether reading and refreshing the cached version work; reply answers a request;
   * arrival is the order in which results come in; cleared says when another consumer wipes the
   * stages, late how many forgotten requests end at a step.
   */
  datatype Env = Env(cached: History, when: nat -> nat, gets: nat -> bool, updates: nat -> bool,
                     reply: (bool, Loc, nat) -> Reply, arrival: (nat, nat) -> seq<nat>, cleared: nat -> bool,
                     late: nat -> nat)
  {
    ghost predicate Valid() {
      && (forall a: nat, b: nat | a <= b :: when(a) <= when(b))
      && (forall t: nat :: InPlace(cached(t)))
      && forall n: nat, now: nat :: IsOrder(arrival(n, now), n)
    }

    function Version(step: nat): Vol { cached(when(step)) }

    /** From now on every shard answers. */
    ghost predicate Healthy(now: nat) {
      forall mark: bool, loc: Loc, k: nat | k >= now :: Success(reply(mark, loc, k))
    }

    /** From now on every shard answers, and the volume can be read and stays as it is. */
    ghost predicate Settled(now: nat) {
      Healthy(now) && forall k: nat | k >= now :: gets(k) && Version(k) == Version(now)
    }
  }

  predicate Below(idxs: seq<nat>, n: nat) {
    forall j | 0 <= j < |idxs| :: idxs[j] < n
  }

  lemma OrderIsBelow(order: seq<nat>, n: nat)
    requires IsOrder(order, n)
    ensures Below(order, n)
  {
    forall j | 0 <= j < |order|
      ensures order[j] < n
    {
      assert order[j] in order;
    }
  }

  ghost predicate IsOrder(order: seq<nat>, n: nat) {
    forall i: nat :: i in order <==> i < n
  }

  datatype Call = Call(loc: Loc, mark: bool)

  // ---- what the manager does, as functions of its state ----

  /**
   * pending are requests whose results nobody waits for any more.  marked are the indexes at
   * which a mark was accepted or the shard gone, gone the locations where a delete was; width is
   * how many indexes the versions had to whose locations deletes were sent.
   */
  datatype Mgr = Mgr(step: nat, stages: Stages, pending: seq<Call>, marked: set<nat>, gone: set<Loc>, width: nat)

  const Fresh := Mgr(0, map[], [], {}, {}, 0)

  datatype Answer = Answer(r: Reply, s: Mgr)

  predicate OnRecord(s: Mgr, loc: Loc) {
    loc.index in s.stages && s.stages[loc.index] == MarkDel
  }

  /** One request for one shard; a mark that is on record is not repeated. */
  function Ask(env: Env, s: Mgr, loc: Loc, mark: bool): Answer {
    if mark && OnRecord(s, loc) then Answer(Accepted, s)
    else
      var r := env.reply(mark, loc, s.step);
      var stage := if !Success(r) then InitStage else if mark then MarkDel else Del;
      Answer(r, s.(stages := s.stages[loc.index := stage],
                   marked := if Success(r) && mark then s.marked + {loc.index} else s.marked,
                   gone := if Success(r) && !mark then s.gone + {loc} else s.gone))
  }

  /** The next k forgotten requests end. */
  function Late(env: Env, s: Mgr, k: nat): Mgr
    decreases k
  {
    if k == 0 || s.pending == [] then s
    else Late(env, Ask(env, s.(pending := s.pending[1..]), s.pending[0].loc, s.pending[0].mark).s, k - 1)
  }

  /** Time passes: stages may be wiped, and forgotten requests may end. */
  function Tick(env: Env, s: Mgr): Mgr {
    var now := s.step + 1;
    Late(env, s.(step := now, stages := if env.cleared(now) then map[] else s.stages), env.late(now))
  }

  function CallsFrom(v: Vol, order: seq<nat>, from: nat, mark: bool): seq<Call>
    requires from <= |order|
    decreases |order| - from
  {
    if from == |order| then []
    else if order[from] < |v.locs| then [Call(v.locs[order[from]], mark)] + CallsFrom(v, order, from + 1, mark)
    else CallsFrom(v, order, from + 1, mark)
  }

  /** retry: the indexes whose location is outdated. */
  datatype Round = Round(ok: bool, retry: seq<nat>, s: Mgr)

  /** The results from the k-th on; the first one that is neither a success nor an outdated
      location ends the round, and the others are forgotten. */
  function AskFrom(env: Env, s: Mgr, v: Vol, mark: bool, order: seq<nat>, k: nat, retry: seq<nat>): Round
    requires k <= |order| && Below(order, |v.locs|)
    decreases |order| - k
  {
    if k == |order| then Round(true, retry, s)
    else
      var a := Ask(env, Tick(env, s), v.locs[order[k]], mark);
      if a.r.NeedsUpdate? then AskFrom(env, a.s, v, mark, order, k + 1, retry + [order[k]])
      else if Success(a.r) then AskFrom(env, a.s, v, mark, order, k + 1, retry)
      else Round(false, retry, a.s.(pending := a.s.pending + CallsFrom(v, order, k + 1, mark)))
  }

  function AskAll(env: Env, s: Mgr, v: Vol, mark: bool): Round
    requires env.Valid()
  {
    OrderIsBelow(env.arrival(|v.locs|, s.step), |v.locs|);
    AskFrom(env, s, v, mark, env.arrival(|v.locs|, s.step), 0, [])
  }

  datatype Again = Again(ok: bool, s: Mgr)

  /** The outdated ones from the k-th on, at their place in the refreshed version. */
  function AskAgain(env: Env, s: Mgr, w: Vol, retry: seq<nat>, mark: bool, k: nat): Again
    requires k <= |retry| && Below(retry, |w.locs|)
    decreases |retry| - k
  {
    if k == |retry| then Again(true, s)
    else
      var a := Ask(env, Tick(env, s), w.locs[retry[k]], mark);
      if Success(a.r) then AskAgain(env, a.s, w, retry, mark, k + 1) else Again(false, a.s)
  }

  /** vol is the version after the phase, which was the cached one at step at. */
  datatype Phase = Phase(ok: bool, vol: Vol, at: nat, s: Mgr)

  function Widened(s: Mgr, v: Vol, mark: bool): Mgr {
    if !mark && s.width < |v.locs| then s.(width := |v.locs|) else s
  }

  predicate CanRefresh(env: Env, step: nat, v: Vol) {
    env.updates(step) && env.Version(step) != v && |env.Version(step).locs| == |v.locs|
  }

  lemma {:induction false} RetryInRange(env: Env, s: Mgr, v: Vol, mark: bool, order: seq<nat>, k: nat, retry: seq<nat>)
    requires k <= |order| && Below(order, |v.locs|) && Below(retry, |v.locs|)
    ensures Below(AskFrom(env, s, v, mark, order, k, retry).retry, |v.locs|)
    decreases |order| - k
  {
    if k < |order| {
      var a := Ask(env, Tick(env, s), v.locs[order[k]], mark);
      RetryInRange(env, a.s, v, mark, order, k + 1, if a.r.NeedsUpdate? then retry + [order[k]] else retry);
    }
  }

  /** One phase: those whose location is outdated are tried once more in the refreshed version. */
  function RunPhase(env: Env, s: Mgr, v: Vol, mark: bool): Phase
    requires env.Valid()
  {
    var asked := Widened(s, v, mark);
    var r := AskAll(env, asked, v, mark);
    if !r.ok || r.retry == [] then Phase(r.ok, v, s.step, r.s)
    else
      var s1 := Tick(env, r.s);
      if !CanRefresh(env, s1.step, v) then Phase(false, v, s1.step, s1)
      else
        var w := env.Version(s1.step);
        OrderIsBelow(env.arrival(|v.locs|, s.step), |v.locs|);
        RetryInRange(env, asked, v, mark, env.arrival(|v.locs|, s.step), 0, []);
        var a := AskAgain(env, s1, w, r.retry, mark, 0);
        Phase(a.ok, w, s1.step, a.s)
  }

  /** Marks every shard, then deletes every shard. */
  datatype Deletion = Deletion(marking: Phase, deleting: Phase)
  {
    predicate Ok() { marking.ok && deleting.ok }
  }

  function Delete(env: Env, s: Mgr, v: Vol): Deletion
    requires env.Valid()
  {
    var m := RunPhase(env, s, v, true);
    Deletion(m, if m.ok then RunPhase(env, m.s, m.vol, false) else m)
  }

  /** One try: the deletion failed or the volume could not be read; the version is still the same
      after it; or it has changed. */
  datatype Try = Broke(s: Mgr) | Held(s: Mgr) | Changed(s: Mgr)

  function TryOnce(env: Env, s: Mgr, v: Vol): Try
    requires env.Valid()
  {
    var d := Delete(env, s, v);
    if !d.Ok() then Broke(d.deleting.s)
    else
      var s1 := Tick(env, d.deleting.s);
      if !env.gets(s1.step) then Broke(s1)
      else if env.Version(s1.step) == v then Held(s1)
      else Changed(s1)
  }

  /** final is the version that was the same before and after. */
  datatype Checked = Checked(ok: bool, final: Vol, s: Mgr)

  /** Runs the deletion until the cached version is the same before and after. */
  function DeleteFrom(env: Env, s: Mgr, v: Vol, tries: nat): Checked
    requires env.Valid()
    decreases tries
  {
    if tries == 0 then Checked(false, v, s)
    else
      match TryOnce(env, s, v)
      case Broke(s1) => Checked(false, v, s1)
      case Held(s1) => Checked(true, v, s1)
      case Changed(s1) => DeleteFrom(env, s1, env.Version(s1.step), tries - 1)
  }

  function DeleteChecked(env: Env, s: Mgr): Checked
    requires env.Valid()
  {
    if env.gets(s.step) then DeleteFrom(env, s, env.Version(s.step), 3) else Checked(false, env.Version(s.step), s)
  }

  // ---- what every step keeps ----

  ghost predicate Truthful(stages: Stages, marked: set<nat>) {
    forall i | i in stages && stages[i] == MarkDel :: i in marked
  }

  ghost predicate AllMarked(marked: set<nat>, n: nat) {
    forall i: nat | i < n :: i in marked
  }

  /** Stages are true, and deletes go only to indexes of versions that were marked as a whole. */
  ghost predicate Ok(env: Env, s: Mgr) {
    && env.Valid() && Truthful(s.stages, s.marked) && AllMarked(s.marked, s.width)
    && (forall c | c in s.pending && !c.mark :: c.loc.index < s.width)
    && (forall l | l in s.gone :: l.index < s.width)
  }

  /** Nothing is taken back. */
  ghost predicate Grows(s: Mgr, s': Mgr) {
    s.step <= s'.step && s.marked <= s'.marked && s.gone <= s'.gone && s.width <= s'.width
  }

  /** Index i of the version is dealt with. */
  ghost predicate Dealt(v: Vol, i: nat, mark: bool, s: Mgr) {
    i < |v.locs| && if mark then i in s.marked else v.locs[i] in s.gone
  }

  lemma AskKeeps(env: Env, s: Mgr, loc: Loc, mark: bool)
    requires Ok(env, s) && (!mark ==> loc.index < s.width)
    ensures var a := Ask(env, s, loc, mark);
      && Ok(env, a.s) && Grows(s, a.s) && a.s.step == s.step && a.s.width == s.width && a.s.pending == s.pending
      && (Success(a.r) ==> if mark then loc.index in a.s.marked else loc in a.s.gone)
  {
  }

  lemma {:induction false} LateKeeps(env: Env, s: Mgr, k: nat)
    requires Ok(env, s)
    ensures Ok(env, Late(env, s, k)) && Grows(s, Late(env, s, k))
    ensures Late(env, s, k).step == s.step && Late(env, s, k).width == s.width
    decreases k
  {
    if k > 0 && s.pending != [] {
      var s1 := s.(pending := s.pending[1..]);
      assert s.pending[0] in s.pending;
      AskKeeps(env, s1, s.pending[0].loc, s.pending[0].mark);
      LateKeeps(env, Ask(env, s1, s.pending[0].loc, s.pending[0].mark).s, k - 1);
    }
  }

  lemma TickKeeps(env: Env, s: Mgr)
    requires Ok(env, s)
    ensures Ok(env, Tick(env, s)) && Grows(s, Tick(env, s))
    ensures Tick(env, s).step == s.step + 1 && Tick(env, s).width == s.width
  {
    var now := s.step + 1;
    LateKeeps(env, s.(step := now, stages := if env.cleared(now) then map[] else s.stages), env.late(now));
  }

  lemma {:induction false} CallsInRange(v: Vol, order: seq<nat>, from: nat, mark: bool)
    requires from <= |order| && InPlace(v)
    ensures forall c | c in CallsFrom(v, order, from, mark) :: c.loc.index < |v.locs| && c.mark == mark
    decreases |order| - from
  {
    if from < |order| {
      CallsInRange(v, order, from + 1, mark);
    }
  }

  /** Each index of the rest of the order is dealt with or outdated, whatever the answers. */
  lemma {:induction false} AskFromKeeps(env: Env, s: Mgr, v: Vol, mark: bool, order: seq<nat>, k: nat, retry: seq<nat>)
    requires Ok(env, s) && InPlace(v) && (!mark ==> |v.locs| <= s.width)
    requires k <= |order| && Below(order, |v.locs|)
    ensures var r := AskFrom(env, s, v, mark, order, k, retry);
      && Ok(env, r.s) && Grows(s, r.s) && (forall i | i in retry :: i in r.retry)
      && (r.ok ==> forall j | k <= j < |order| :: order[j] in r.retry || Dealt(v, order[j], mark, r.s))
    decreases |order| - k
  {
    if k < |order| {
      TickKeeps(env, s);
      AskKeeps(env, Tick(env, s), v.locs[order[k]], mark);
      var a := Ask(env, Tick(env, s), v.locs[order[k]], mark);
      if a.r.NeedsUpdate? {
        assert order[k] in retry + [order[k]];
        AskFromKeeps(env, a.s, v, mark, order, k + 1, retry + [order[k]]);
      } else if Success(a.r) {
        assert Dealt(v, order[k], mark, a.s);
        AskFromKeeps(env, a.s, v, mark, order, k + 1, retry);
      } else {
        CallsInRange(v, order, k + 1, mark);
      }
    }
  }

  lemma {:induction false} AskAgainKeeps(env: Env, s: Mgr, w: Vol, retry: seq<nat>, mark: bool, k: nat)
    requires Ok(env, s) && InPlace(w) && (!mark ==> |w.locs| <= s.width)
    requires k <= |retry| && Below(retry, |w.locs|)
    ensures var a := AskAgain(env, s, w, retry, mark, k);
      && Ok(env, a.s) && Grows(s, a.s)
      && (a.ok ==> forall j | k <= j < |retry| :: Dealt(w, retry[j], mark, a.s))
    decreases |retry| - k
  {
    if k < |retry| {
      TickKeeps(env, s);
      AskKeeps(env, Tick(env, s), w.locs[retry[k]], mark);
      var a := Ask(env, Tick(env, s), w.locs[retry[k]], mark);
      if Success(a.r) {
        assert Dealt(w, retry[k], mark, a.s);
        AskAgainKeeps(env, a.s, w, retry, mark, k + 1);
      }
    }
  }

  /** Each index is dealt with at its place in one of the two versions. */
  ghost predicate PhaseDone(v: Vol, v': Vol, mark: bool, s: Mgr) {
    |v'.locs| == |v.locs| && forall i: nat | i < |v.locs| :: Dealt(v, i, mark, s) || Dealt(v', i, mark, s)
  }

  /** The version after a phase is the one before it, or was the cached one at a step in between. */
  ghost predicate Follows(env: Env, v: Vol, v': Vol, from: nat, at: nat, to: nat) {
    from <= at <= to && InPlace(v') && (v' == v || v' == env.Version(at))
  }

  lemma AskAllKeeps(env: Env, s: Mgr, v: Vol, mark: bool)
    requires Ok(env, s) && InPlace(v) && (!mark ==> |v.locs| <= s.width)
    ensures var r := AskAll(env, s, v, mark);
      && Ok(env, r.s) && Grows(s, r.s) && Below(r.retry, |v.locs|)
      && (r.ok ==> forall i: nat | i < |v.locs| :: i in r.retry || Dealt(v, i, mark, r.s))
  {
    var order := env.arrival(|v.locs|, s.step);
    assert IsOrder(order, |v.locs|);
    OrderIsBelow(order, |v.locs|);
    AskFromKeeps(env, s, v, mark, order, 0, []);
    RetryInRange(env, s, v, mark, order, 0, []);
    var r := AskAll(env, s, v, mark);
    if r.ok {
      forall i: nat | i < |v.locs|
        ensures i in r.retry || Dealt(v, i, mark, r.s)
      {
        assert i in order;
        var j :| 0 <= j < |order| && order[j] == i;
      }
    }
  }

  lemma PhaseKeeps(env: Env, s: Mgr, v: Vol, mark: bool)
    requires Ok(env, s) && InPlace(v) && (!mark ==> AllMarked(s.marked, |v.locs|))
    ensures var p := RunPhase(env, s, v, mark);
      && Ok(env, p.s) && Grows(s, p.s)
      && (p.ok ==> PhaseDone(v, p.vol, mark, p.s) && Follows(env, v, p.vol, s.step, p.at, p.s.step))
  {
    var asked := Widened(s, v, mark);
    AskAllKeeps(env, asked, v, mark);
    var r := AskAll(env, asked, v, mark);
    if r.ok && r.retry != [] {
      hide AskAll, Ok;
      TickKeeps(env, r.s);
      var s1 := Tick(env, r.s);
      if CanRefresh(env, s1.step, v) {
        var w := env.Version(s1.step);
        VersionInPlace(env, s1.step, s);
        AskAgainKeeps(env, s1, w, r.retry, mark, 0);
        var a := AskAgain(env, s1, w, r.retry, mark, 0);
        forall i: nat | a.ok && i < |v.locs|
          ensures Dealt(v, i, mark, a.s) || Dealt(w, i, mark, a.s)
        {
          if i !in r.retry {
            assert Dealt(v, i, mark, r.s);
          }
        }
      }
    }
  }

  lemma VersionInPlace(env: Env, step: nat, s: Mgr)
    requires Ok(env, s)
    ensures InPlace(env.Version(step))
  {
  }

  /** After the marking phase every index is marked. */
  lemma PhaseMarks(v: Vol, v': Vol, s: Mgr)
    requires PhaseDone(v, v', true, s)
    ensures AllMarked(s.marked, |v'.locs|)
  {
    forall i: nat | i < |v'.locs|
      ensures i in s.marked
    {
      assert Dealt(v, i, true, s) || Dealt(v', i, true, s);
    }
  }

  /** A successful deletion has marked every index, and then deleted each of them at its place in
      the version after marking or in the one after deleting. */
  lemma DeleteKeeps(env: Env, s: Mgr, v: Vol)
    requires Ok(env, s) && InPlace(v)
    ensures var d := Delete(env, s, v);
      && Ok(env, d.deleting.s) && Grows(s, d.deleting.s)
      && (d.Ok() ==>
            && Follows(env, v, d.marking.vol, s.step, d.marking.at, d.marking.s.step)
            && |d.marking.vol.locs| == |v.locs|
            && Follows(env, d.marking.vol, d.deleting.vol, d.marking.s.step, d.deleting.at, d.deleting.s.step)
            && AllMarked(d.deleting.s.marked, |v.locs|)
            && PhaseDone(d.marking.vol, d.deleting.vol, false, d.deleting.s))
  {
    OkIsValid(env, s);
    hide RunPhase, Ok;
    PhaseKeeps(env, s, v, true);
    var m := RunPhase(env, s, v, true);
    if m.ok {
      PhaseMarks(v, m.vol, m.s);
      PhaseKeeps(env, m.s, m.vol, false);
    }
  }

  // ---- when a successful deletion has reached every location ----

  /** No other set of locations, of as many indexes, is seen between two sights of a version. */
  ghost predicate NoReturn(h: History) {
    forall a: nat, b: nat, c: nat | a <= b <= c && h(a) == h(c) && |h(b).locs| == |h(a).locs| :: h(b).locs == h(a).locs
  }

  /** Epochs only grow, and a chunk of one epoch does not move. */
  ghost predicate EpochsGrow(h: History) {
    forall a: nat, b: nat, i: nat | a <= b && i < |h(a).locs| && i < |h(b).locs| ::
      && h(a).locs[i].epoch <= h(b).locs[i].epoch
      && (h(a).locs[i].epoch == h(b).locs[i].epoch ==> h(a).locs[i] == h(b).locs[i])
  }

  /** As the cluster manager hands out epochs, locations do not return; the status may. */
  lemma GrowingEpochsDoNotReturn(h: History)
    requires EpochsGrow(h)
    ensures NoReturn(h)
  {
    forall a: nat, b: nat, c: nat | a <= b <= c && h(a) == h(c) && |h(b).locs| == |h(a).locs|
      ensures h(b).locs == h(a).locs
    {
      forall i: nat | i < |h(a).locs|
        ensures h(b).locs[i] == h(a).locs[i]
      {
        assert h(a).locs[i].epoch <= h(b).locs[i].epoch <= h(c).locs[i].epoch;
      }
    }
  }

  /** If the version before and after is the same and none returns, no other locations were used. */
  lemma Unchanged(env: Env, s: Mgr, v: Vol, d: Deletion, end: nat)
    requires env.Valid() && NoReturn(env.cached) && v == env.Version(s.step) == env.Version(end)
    requires Follows(env, v, d.marking.vol, s.step, d.marking.at, d.marking.s.step) && |d.marking.vol.locs| == |v.locs|
    requires Follows(env, d.marking.vol, d.deleting.vol, d.marking.s.step, d.deleting.at, d.deleting.s.step)
    requires d.deleting.s.step <= end && PhaseDone(d.marking.vol, d.deleting.vol, false, d.deleting.s)
    ensures forall l | l in v.locs :: l in d.deleting.s.gone
  {
    assert d.marking.vol.locs == v.locs;
    assert d.deleting.vol.locs == v.locs;
    forall l | l in v.locs
      ensures l in d.deleting.s.gone
    {
      var i: nat :| i < |v.locs| && v.locs[i] == l;
      assert Dealt(d.marking.vol, i, false, d.deleting.s) || Dealt(d.deleting.vol, i, false, d.deleting.s);
    }
  }

  ghost predicate Deleted(v: Vol, s: Mgr) {
    AllMarked(s.marked, |v.locs|) && forall l | l in v.locs :: l in s.gone
  }

  lemma TryKeeps(env: Env, s: Mgr, v: Vol)
    requires Ok(env, s) && v == env.Version(s.step)
    ensures env.Valid() && Ok(env, TryOnce(env, s, v).s) && Grows(s, TryOnce(env, s, v).s)
    ensures TryOnce(env, s, v).Held? ==>
      && v == env.Version(TryOnce(env, s, v).s.step)
      && (NoReturn(env.cached) ==> Deleted(v, TryOnce(env, s, v).s))
  {
    OkIsValid(env, s);
    hide Ok, Delete, Tick, Follows, PhaseDone, NoReturn, Env.Valid;
    VersionInPlace(env, s.step, s);
    DeleteKeeps(env, s, v);
    var d := Delete(env, s, v);
    TickKeeps(env, d.deleting.s);
    if TryOnce(env, s, v).Held? && NoReturn(env.cached) {
      Unchanged(env, s, v, d, Tick(env, d.deleting.s).step);
    }
  }

  /** What a checked deletion keeps and, when it succeeds, has done. */
  ghost predicate IsRight(env: Env, s: Mgr, c: Checked) {
    && Ok(env, c.s) && Grows(s, c.s) && (c.ok ==> c.final == env.Version(c.s.step))
    && (c.ok && NoReturn(env.cached) ==> Deleted(c.final, c.s))
  }

  lemma RightFurther(env: Env, s: Mgr, m: Mgr, c: Checked)
    requires Grows(s, m) && IsRight(env, m, c)
    ensures IsRight(env, s, c)
  {
  }

  lemma {:induction false} DeleteFromKeeps(env: Env, s: Mgr, v: Vol, tries: nat)
    requires Ok(env, s) && v == env.Version(s.step)
    ensures env.Valid() && IsRight(env, s, DeleteFrom(env, s, v, tries))
    decreases tries
  {
    OkIsValid(env, s);
    hide Ok, TryOnce, NoReturn, Deleted, Env.Valid;
    if tries > 0 {
      TryKeeps(env, s, v);
      var t := TryOnce(env, s, v);
      if t.Changed? {
        hide IsRight;
        DeleteFromKeeps(env, t.s, env.Version(t.s.step), tries - 1);
        RightFurther(env, s, t.s, DeleteFrom(env, t.s, env.Version(t.s.step), tries - 1));
      }
    }
  }

  lemma OkIsValid(env: Env, s: Mgr)
    requires Ok(env, s)
    ensures env.Valid()
  {
  }

  lemma DeleteFromOnce(env: Env, s: Mgr, v: Vol, tries: nat)
    requires env.Valid() && tries > 0
    ensures DeleteFrom(env, s, v, tries) ==
      match TryOnce(env, s, v)
      case Broke(s1) => Checked(false, v, s1)
      case Held(s1) => Checked(true, v, s1)
      case Changed(s1) => DeleteFrom(env, s1, env.Version(s1.step), tries - 1)
  {
  }

  lemma NoTriesLeft(env: Env, s: Mgr, v: Vol)
    requires env.Valid()
    ensures DeleteFrom(env, s, v, 0) == Checked(false, v, s)
  {
  }

  lemma CheckedOutcome(env: Env, s: Mgr)
    requires Ok(env, s)
    ensures env.Valid() && DeleteChecked(env, s) ==
      if env.gets(s.step) then DeleteFrom(env, s, env.Version(s.step), 3) else Checked(false, env.Version(s.step), s)
    ensures var c := DeleteChecked(env, s);
      && Ok(env, c.s) && Grows(s, c.s) && (c.ok ==> c.final == env.Version(c.s.step))
      && (c.ok && NoReturn(env.cached) ==> Deleted(c.final, c.s))
  {
    CheckedKeeps(env, s);
  }

  lemma CheckedKeeps(env: Env, s: Mgr)
    requires Ok(env, s)
    ensures env.Valid() && IsRight(env, s, DeleteChecked(env, s))
  {
    OkIsValid(env, s);
    DeleteFromKeeps(env, s, env.Version(s.step), 3);
  }

  // ---- when nothing is in the way ----

  lemma {:induction false} HealthyRound(env: Env, s: Mgr, v: Vol, mark: bool, order: seq<nat>, k: nat)
    requires Ok(env, s) && InPlace(v) && (!mark ==> |v.locs| <= s.width) && env.Healthy(s.step)
    requires k <= |order| && Below(order, |v.locs|)
    ensures var r := AskFrom(env, s, v, mark, order, k, []); r.ok && r.retry == []
    decreases |order| - k
  {
    if k < |order| {
      TickKeeps(env, s);
      AskKeeps(env, Tick(env, s), v.locs[order[k]], mark);
      HealthyRound(env, Ask(env, Tick(env, s), v.locs[order[k]], mark).s, v, mark, order, k + 1);
    }
  }

  lemma HealthyPhase(env: Env, s: Mgr, v: Vol, mark: bool)
    requires Ok(env, s) && InPlace(v) && (!mark ==> AllMarked(s.marked, |v.locs|)) && env.Healthy(s.step)
    ensures var p := RunPhase(env, s, v, mark); p.ok && p.vol == v && env.Healthy(p.s.step)
  {
    PhaseKeeps(env, s, v, mark);
    OrderIsBelow(env.arrival(|v.locs|, s.step), |v.locs|);
    HealthyRound(env, Widened(s, v, mark), v, mark, env.arrival(|v.locs|, s.step), 0);
  }

  lemma SettledSucceeds(env: Env, s: Mgr)
    requires Ok(env, s) && env.Settled(s.step)
    ensures DeleteChecked(env, s).ok
  {
    var v := env.Version(s.step);
    HealthyPhase(env, s, v, true);
    PhaseKeeps(env, s, v, true);
    var m := RunPhase(env, s, v, true);
    PhaseMarks(v, m.vol, m.s);
    HealthyPhase(env, m.s, v, false);
    PhaseKeeps(env, m.s, v, false);
    TickKeeps(env, RunPhase(env, m.s, v, false).s);
  }

  lemma StaysSettled(env: Env, now: nat, later: nat)
    requires env.Settled(now) && now <= later
    ensures env.Settled(later)
  {
  }

  // ---- the class ----

  class DeleteMgr {
    const env: Env
    var step: nat
    var stages: Stages
    var pending: seq<Call>
    ghost var marked: set<nat>
    ghost var gone: set<Loc>
    ghost var width: nat

    ghost function Abs(): Mgr
      reads this
    {
      Mgr(step, stages, pending, marked, gone, width)
    }

    constructor (env: Env)
      requires env.Valid()
      ensures this.env == env && Abs() == Fresh && Ok(env, Abs())
    {
      this.env := env;
      step, stages, pending := 0, map[], [];
      marked, gone, width := {}, {}, 0;
    }

    method DeleteShard(loc: Loc, mark: bool) returns (r: Reply)
      modifies this`stages, this`marked, this`gone
      ensures Answer(r, Abs()) == Ask(env, old(Abs()), loc, mark)
    {
      if mark && loc.index in stages && stages[loc.index] == MarkDel {
        return Accepted;
      }
      r := env.reply(mark, loc, step);
      if r.Accepted? || r.Gone? {
        if mark {
          marked := marked + {loc.index};
        } else {
          gone := gone + {loc};
        }
        stages := stages[loc.index := if mark then MarkDel else Del];
      } else {
        stages := stages[loc.index := InitStage];
      }
    }

    method Pass()
      modifies this`step, this`stages, this`pending, this`marked, this`gone
      ensures Abs() == Tick(env, old(Abs()))
    {
      step := step + 1;
      if env.cleared(step) {
        stages := map[];
      }
      var k := env.late(step);
      ghost var s := Abs();
      while k > 0 && pending != []
        invariant Late(env, Abs(), k) == Late(env, s, env.late(step)) && step == s.step && width == s.width
        decreases k
      {
        var c := pending[0];
        pending := pending[1..];
        var r := DeleteShard(c.loc, c.mark);
        k := k - 1;
      }
    }

    /** The requests to all shards of a version, and the indexes whose location is outdated. */
    method AskShards(v: Vol, mark: bool) returns (ok: bool, retry: seq<nat>)
      requires env.Valid()
      modifies this`step, this`stages, this`pending, this`marked, this`gone
      ensures Round(ok, retry, Abs()) == AskAll(env, old(Abs()), v, mark)
    {
      var order := env.arrival(|v.locs|, step);
      OrderIsBelow(order, |v.locs|);
      retry := [];
      for k := 0 to |order|
        invariant width == old(width)
        invariant AskFrom(env, Abs(), v, mark, order, k, retry) == AskAll(env, old(Abs()), v, mark)
      {
        Pass();
        var r := DeleteShard(v.locs[order[k]], mark);
        if r.NeedsUpdate? {
          retry := retry + [order[k]];
        } else if !Success(r) {
          pending := pending + CallsFrom(v, order, k + 1, mark);
          return false, retry;
        }
      }
      return true, retry;
    }

    /** The shards with an outdated location, at their new ones. */
    method RetryShards(w: Vol, retry: seq<nat>, mark: bool) returns (ok: bool)
      requires Below(retry, |w.locs|)
      modifies this`step, this`stages, this`pending, this`marked, this`gone
      ensures Again(ok, Abs()) == AskAgain(env, old(Abs()), w, retry, mark, 0)
    {
      for k := 0 to |retry|
        invariant width == old(width)
        invariant AskAgain(env, Abs(), w, retry, mark, k) == AskAgain(env, old(Abs()), w, retry, mark, 0)
      {
        Pass();
        var r := DeleteShard(w.locs[retry[k]], mark);
        if !Success(r) {
          return false;
        }
      }
      return true;
    }

    /** One phase over all shards of a version. */
    method DeleteShards(v: Vol, mark: bool) returns (ok: bool, v': Vol, ghost at: nat)
      requires Ok(env, Abs()) && InPlace(v) && (!mark ==> AllMarked(marked, |v.locs|))
      modifies this
      ensures Phase(ok, v', at, Abs()) == RunPhase(env, old(Abs()), v, mark)
      ensures Ok(env, Abs()) && Grows(old(Abs()), Abs())
      ensures ok ==> PhaseDone(v, v', mark, Abs()) && Follows(env, v, v', old(step), at, step)
    {
      PhaseKeeps(env, Abs(), v, mark);
      at := step;
      if !mark {
        width := if width < |v.locs| then |v.locs| else width;
      }
      OrderIsBelow(env.arrival(|v.locs|, step), |v.locs|);
      RetryInRange(env, Abs(), v, mark, env.arrival(|v.locs|, step), 0, []);
      var retry;
      ok, retry := AskShards(v, mark);
      if !ok || retry == [] {
        return ok, v, at;
      }
      Pass();
      at := step;
      if !env.updates(step) || env.Version(step) == v || |env.Version(step).locs| != |v.locs| {
        return false, v, at;
      }
      v' := env.Version(step);
      ok := RetryShards(v', retry, mark);
    }

    /** Marks every shard, then deletes every shard. */
    method DeleteBlob(v: Vol) returns (ok: bool, ghost d: Deletion)
      requires Ok(env, Abs()) && InPlace(v)
      modifies this
      ensures d == Delete(env, old(Abs()), v) && ok == d.Ok() && Abs() == d.deleting.s
      ensures Ok(env, Abs()) && Grows(old(Abs()), Abs())
    {
      var w; ghost var a;
      ok, w, a := DeleteShards(v, true);
      ghost var m := Phase(ok, w, a, Abs());
      d := Deletion(m, m);
      if !ok {
        return;
      }
      PhaseMarks(v, w, Abs());
      ok, w, a := DeleteShards(w, false);
      d := Deletion(m, Phase(ok, w, a, Abs()));
    }

    /** One try, and whether the version is still the same after it. */
    method TryDelete(v: Vol) returns (ok: bool, same: bool)
      requires Ok(env, Abs()) && v == env.Version(step)
      modifies this
      ensures Ok(env, Abs())
      ensures TryOnce(env, old(Abs()), v) == if !ok then Broke(Abs()) else if same then Held(Abs()) else Changed(Abs())
    {
      TryKeeps(env, Abs(), v);
      VersionInPlace(env, step, Abs());
      hide Ok, Delete, Tick, Grows, Deleted, NoReturn;
      ghost var d;
      ok, d := DeleteBlob(v);
      if !ok {
        return false, false;
      }
      Pass();
      return env.gets(step), env.Version(step) == v;
    }

    /** Deletes until the cached version is the same before and after, three times at most. */
    method DoWithCheckVolConsistency() returns (ok: bool, ghost final: Vol)
      requires Ok(env, Abs())
      modifies this
      ensures Checked(ok, final, Abs()) == DeleteChecked(env, old(Abs()))
      ensures Ok(env, Abs()) && Grows(old(Abs()), Abs()) && (ok ==> final == env.Version(step))
      ensures ok && NoReturn(env.cached) ==> Deleted(final, Abs())
      ensures env.Settled(old(step)) ==> ok
    {
      hide Ok, Grows, Deleted, NoReturn, Env.Valid, Env.Settled, TryOnce, DeleteFrom, DeleteChecked, IsRight;
      ghost var s := Abs();
      if env.Settled(step) {
        SettledSucceeds(env, s);
      }
      CheckedOutcome(env, s);
      final := env.Version(step);
      if !env.gets(step) {
        return false, final;
      }
      var v := env.Version(step);
      for try := 0 to 3
        invariant Ok(env, Abs()) && v == env.Version(step)
        invariant DeleteFrom(env, Abs(), v, 3 - try) == DeleteChecked(env, s)
      {
        final := v;
        DeleteFromOnce(env, Abs(), v, 3 - try);
        var same;
        ok, same := TryDelete(v);
        if !ok || same {
          return ok, final;
        }
        v := env.Version(step);
      }
      NoTriesLeft(env, Abs(), v);
      return false, v;
    }

    /** One attempt at a message; on failure the stages reached go into the message. */
    method HandleMsg(msg: Stages) returns (ok: bool, msg': Stages, ghost final: Vol)
      requires Ok(env, Abs()) && Truthful(msg, marked)
      modifies this
      ensures Ok(env, Abs()) && Grows(old(Abs()), Abs())
      ensures Checked(ok, final, Abs()) == DeleteChecked(env, old(Abs()).(stages := msg))
      ensures Truthful(msg', marked) && msg' == if ok then msg else msg + stages
      ensures ok ==> final == env.Version(step)
      ensures ok && NoReturn(env.cached) ==> Deleted(final, Abs())
      ensures env.Settled(old(step)) ==> ok
    {
      stages := msg;
      ok, final := DoWithCheckVolConsistency();
      msg' := if ok then msg else msg + stages;
    }

    /** A message through the fail queue until it succeeds or the attempts end; it succeeds if the
        volume settles while attempts are left. */
    method RunMessage(msg: Stages, attempts: nat) returns (ok: bool, msg': Stages, ghost final: Vol)
      requires Ok(env, Abs()) && Truthful(msg, marked)
      modifies this
      ensures Ok(env, Abs()) && Truthful(msg', marked)
      ensures ok ==> final == env.Version(step)
      ensures ok && NoReturn(env.cached) ==> Deleted(final, Abs())
      ensures forall now: nat | env.Settled(now) && now < attempts :: ok
    {
      ok, msg', final := false, msg, env.Version(step);
      for k := 0 to attempts
        invariant Ok(env, Abs()) && Truthful(msg', marked) && !ok
        invariant k <= step && forall now: nat | now < k :: !env.Settled(now)
      {
        if env.Settled(k) {
          StaysSettled(env, k, step);
        }
        ok, msg', final := HandleMsg(msg');
        if ok {
          return;
        }
        TickKeeps(env, Abs());
        Pass();
      }
    }
  }

  // ---- the condition is exact ----

  function Upto(n: nat): seq<nat> { seq(n, i => i) }

  /** Locations return: the mark of index i finds its location outdated, the refreshed version is
      used for the rest, and the version is back when it is checked. */
  function ReturnEnv(h: History, a: nat, b: nat, c: nat, i: nat): Env {
    var n := |h(a).locs|;
    Env(h, k => if k <= n then a else if k <= 2 * n + 2 then b else c, k => true, k => true,
        (mark, loc, k) => if mark && k == i + 1 then NeedsUpdate else Accepted,
        (m, now) => Upto(m), k => false, k => 0)
  }

  ghost predicate Returns(h: History, a: nat, b: nat, c: nat, i: nat) {
    && (forall t: nat :: InPlace(h(t))) && a <= b <= c && h(a) == h(c)
    && i < |h(a).locs| == |h(b).locs| && h(a).locs[i] != h(b).locs[i]
  }

  lemma ReturnEnvIsOk(h: History, a: nat, b: nat, c: nat, i: nat)
    requires Returns(h, a, b, c, i)
    ensures Ok(ReturnEnv(h, a, b, c, i), Fresh)
  {
    var env := ReturnEnv(h, a, b, c, i);
    forall n: nat, now: nat
      ensures IsOrder(env.arrival(n, now), n)
    {
      assert env.arrival(n, now) == Upto(n);
      forall k: nat | k < n
        ensures k in Upto(n)
      {
        assert Upto(n)[k] == k;
      }
    }
  }

  /** Before result k of the marking round. */
  ghost predicate Marking(s: Mgr, k: nat, i: nat) {
    && s.step == k && s.pending == [] && s.gone == {} && (forall j | j in s.stages :: j < k)
    && (i < k ==> i in s.stages && s.stages[i] == InitStage)
  }

  lemma MarkStep(h: History, a: nat, b: nat, c: nat, i: nat, s: Mgr, k: nat)
    requires Returns(h, a, b, c, i) && k < |h(a).locs| && Marking(s, k, i)
    ensures var env := ReturnEnv(h, a, b, c, i); var x := Ask(env, Tick(env, s), h(a).locs[k], true);
            Marking(x.s, k + 1, i) && x.r == if k == i then NeedsUpdate else Accepted
  {
    var env := ReturnEnv(h, a, b, c, i);
    assert Tick(env, s) == s.(step := k + 1);
    assert h(a).locs[k].index == k;
    assert !OnRecord(s, h(a).locs[k]);
  }

  lemma {:induction false} MarkRound(h: History, a: nat, b: nat, c: nat, i: nat, s: Mgr, k: nat, retry: seq<nat>)
    requires Returns(h, a, b, c, i) && k <= |h(a).locs| && Marking(s, k, i)
    requires retry == if i < k then [i] else []
    ensures var n := |h(a).locs|; var r := AskFrom(ReturnEnv(h, a, b, c, i), s, h(a), true, Upto(n), k, retry);
            r.ok && r.retry == [i] && Marking(r.s, n, i)
    decreases |h(a).locs| - k
  {
    hide Returns, Marking, ReturnEnv, Ask, Tick;
    var env, n := ReturnEnv(h, a, b, c, i), |h(a).locs|;
    if k < n {
      MarkStep(h, a, b, c, i, s, k);
      assert Upto(n)[k] == k;
      var x := Ask(env, Tick(env, s), h(a).locs[k], true);
      MarkRound(h, a, b, c, i, x.s, k + 1, if k == i then retry + [k] else retry);
    } else {
      IndexBelow(h, a, b, c, i);
    }
  }

  lemma IndexBelow(h: History, a: nat, b: nat, c: nat, i: nat)
    requires Returns(h, a, b, c, i)
    ensures i < |h(a).locs|
  {
  }

  /** Nothing but locations of v is deleted. */
  ghost predicate OnlyIn(s: Mgr, v: Vol) {
    s.pending == [] && forall l | l in s.gone :: l in v.locs
  }

  lemma {:induction false} DeleteRound(h: History, a: nat, b: nat, c: nat, i: nat, s: Mgr, k: nat)
    requires Returns(h, a, b, c, i) && k <= |h(a).locs| && OnlyIn(s, h(b)) && s.step >= |h(a).locs|
    ensures var n := |h(a).locs|; var r := AskFrom(ReturnEnv(h, a, b, c, i), s, h(b), false, Upto(n), k, []);
            r.ok && r.retry == [] && OnlyIn(r.s, h(b)) && r.s.step == s.step + n - k
    decreases |h(a).locs| - k
  {
    var env, n := ReturnEnv(h, a, b, c, i), |h(a).locs|;
    if k < n {
      var s1 := Tick(env, s);
      assert s1 == s.(step := s.step + 1);
      var x := Ask(env, s1, h(b).locs[Upto(n)[k]], false);
      DeleteRound(h, a, b, c, i, x.s, k + 1);
    }
  }

  /** The marking phase ends with the other version. */
  lemma MarkPhase(h: History, a: nat, b: nat, c: nat, i: nat)
    requires Returns(h, a, b, c, i)
    ensures var env := ReturnEnv(h, a, b, c, i);
      && env.Valid()
      && var m := RunPhase(env, Fresh, h(a), true);
         m.ok && m.vol == h(b) && m.s.step == |h(a).locs| + 2 && m.s.gone == {} && m.s.pending == []
  {
    var env, n := ReturnEnv(h, a, b, c, i), |h(a).locs|;
    ReturnEnvIsOk(h, a, b, c, i);
    MarkRound(h, a, b, c, i, Fresh, 0, []);
    hide AskFrom;
    var r := AskAll(env, Fresh, h(a), true);
    var s1 := Tick(env, r.s);
    assert s1 == r.s.(step := n + 1);
    assert env.Version(s1.step) == h(b);
    var s2 := Tick(env, s1);
    assert s2 == r.s.(step := n + 2);
    assert h(b).locs[i].index == i;
    var x := Ask(env, s2, h(b).locs[i], true);
    assert x.r == Accepted;
    assert AskAgain(env, s1, h(b), [i], true, 1) == Again(true, s1);
    assert AskAgain(env, s1, h(b), [i], true, 0) == AskAgain(env, x.s, h(b), [i], true, 1) == Again(true, x.s);
  }

  /** A version that returns passes the check although one of its locations was never deleted. */
  lemma ReturnMisses(h: History, a: nat, b: nat, c: nat, i: nat)
    requires Returns(h, a, b, c, i)
    ensures var env := ReturnEnv(h, a, b, c, i);
      && Ok(env, Fresh)
      && var r := DeleteChecked(env, Fresh);
         r.ok && r.final == h(a) && h(a).locs[i] !in r.s.gone
  {
    var env, n := ReturnEnv(h, a, b, c, i), |h(a).locs|;
    ReturnEnvIsOk(h, a, b, c, i);
    MarkPhase(h, a, b, c, i);
    var m := RunPhase(env, Fresh, h(a), true);
    var s := Widened(m.s, h(b), false);
    DeleteRound(h, a, b, c, i, s, 0);
    var d := RunPhase(env, m.s, h(b), false);
    hide AskFrom;
    assert d.ok && d.s.step == 2 * n + 2 && OnlyIn(d.s, h(b));
    hide RunPhase;
    var s1 := Tick(env, d.s);
    assert s1 == d.s.(step := 2 * n + 3);
    assert env.Version(s1.step) == h(a);
    assert Delete(env, Fresh, h(a)) == Deletion(m, d);
    assert DeleteFrom(env, Fresh, h(a), 3) == Checked(true, h(a), s1);
    forall l | l in s1.gone
      ensures l != h(a).locs[i]
    {
      var j :| 0 <= j < |h(b).locs| && h(b).locs[j] == l;
      assert l.index == j && h(a).locs[i].index == i;
    }
  }

  /** For every history of the volume: all successful deletions, whatever the answers and their
      timing, have reached every location of the version they checked, if and only if no version
      is seen again after one with other locations. */
  lemma CheckIsExact(h: History)
    requires forall t: nat :: InPlace(h(t))
    ensures NoReturn(h) <==>
      forall env: Env, s: Mgr | env.cached == h && Ok(env, s) && DeleteChecked(env, s).ok ::
        Deleted(DeleteChecked(env, s).final, DeleteChecked(env, s).s)
  {
    if NoReturn(h) {
      forall env: Env, s: Mgr | env.cached == h && Ok(env, s) && DeleteChecked(env, s).ok
        ensures Deleted(DeleteChecked(env, s).final, DeleteChecked(env, s).s)
      {
        CheckedKeeps(env, s);
      }
    } else {
      var a: nat, b: nat, c: nat :|
        a <= b <= c && h(a) == h(c) && |h(b).locs| == |h(a).locs| && h(b).locs != h(a).locs;
      var i: nat :| i < |h(a).locs| && h(a).locs[i] != h(b).locs[i];
      ReturnMisses(h, a, b, c, i);
      var env := ReturnEnv(h, a, b, c, i);
      assert env.cached == h && !Deleted(DeleteChecked(env, Fresh).final, DeleteChecked(env, Fresh).s);
    }
  }
}
