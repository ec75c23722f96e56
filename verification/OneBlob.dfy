/**
 * Recovery of any shards of one blob, on the set of shards at hand: what each stage adds is
 * determined by what can be had, whatever the order of downloads.
 */
module OneBlob {

  import opened CodeMode
  import opened Counting
  import opened RecoveryModel

  // ---- one stripe ----

  /** No more are bad than the stripe can do without, and enough of it can be had. */
  ghost predicate Fills(st: Stripe, bad: set<nat>, p: set<nat>) {
    CountIn(st.replicas, bad) <= st.m && CountIn(st.replicas, p) >= st.n
  }

  /** What was downloaded is at hand, bad shards cannot be downloaded, and if they are all at hand
      already so is enough of the stripe. */
  ghost predicate CanStep(st: Stripe, bad: seq<nat>, avail: set<nat>, before: set<nat>, known: set<nat>) {
    && CaughtUp(before, known, avail) && Members(bad) !! avail
    && (AllOk(before, bad) ==> CountIn(st.replicas, before) >= st.n)
  }

  /** Repairing the stripe adds all of it to what can be had exactly if it can be filled; then all of
      it is at hand, and otherwise what is available of it. */
  ghost predicate ExactStep(st: Stripe, bad: set<nat>, avail: set<nat>, before: set<nat>, after: set<nat>,
                            known: set<nat>) {
    && before <= after && CaughtUp(after, known, avail)
    && after + avail == before + avail + (if Fills(st, bad, before + avail) then Members(st.replicas) else {})
    && (Fills(st, bad, before + avail) ==> Members(st.replicas) <= after)
    && (CountIn(st.replicas, bad) <= st.m ==> Members(st.replicas) * avail <= after)
  }

  lemma AloneFirst(st: Stripe, bad: seq<nat>, avail: set<nat>, before: set<nat>, asked: set<nat>)
    requires CanStep(st, bad, avail, before, asked)
    ensures Ongoing(st, avail, before, {}, before, asked, false)
  {
  }

  lemma AloneRound(st: Stripe, bad: seq<nat>, avail: set<nat>, before: set<nat>, asked: set<nat>, covered: set<nat>,
                   now: set<nat>, known: set<nat>, started: bool, plan: set<nat>, after: set<nat>, known': set<nat>)
    requires CanStep(st, bad, avail, before, asked)
    requires Ongoing(st, avail, before, covered, now, known, started)
    requires PlanRun(st, plan - known, avail, now, after) && known <= known' <= known + plan
    requires covered + plan <= Well(st, bad) && Tolerable(st, bad) && forall i | i in bad :: i in st.replicas
    ensures if AllOk(after, bad) then ExactStep(st, Members(bad), avail, before, after, known')
            else Ongoing(st, avail, before, covered + plan, after, known', true)
  {
    var have :| Gains(now, have, plan - known, avail) && Repaired(st, have, after);
    assert have == before + (covered + plan) * avail;
    if CountIn(st.replicas, have) >= st.n {
      CountMonotone(st.replicas, have, before + avail);
    } else {
      assert after == have;
      CountMonotone(st.replicas, before, have);
      assert AllOk(after, bad) ==> AllOk(before, bad) by {
        assert forall i | i in bad :: i in Members(bad);
      }
    }
  }

  /** How the one blob stands after some plans. */
  ghost predicate AloneSoFar(bids: seq<Bid>, st: Stripe, bad: seq<nat>, avail: set<nat>, start: Shards, asked: set<nat>,
                             covered: set<nat>, shards: Shards, known: set<nat>, started: bool) {
    && |bids| == 1 && bids[0] in start && bids[0] in shards && CanStep(st, bad, avail, start[bids[0]].Keys, asked)
    && Ongoing(st, avail, start[bids[0]].Keys, covered, shards[bids[0]].Keys, known, started)
  }

  lemma AlonePlan(bids: seq<Bid>, st: Stripe, bad: seq<nat>, avail: set<nat>, start: Shards, asked: set<nat>,
                  covered: set<nat>, now: Shards, known: set<nat>, started: bool, plan: set<nat>,
                  after: Shards, known': set<nat>, fail: seq<Bid>)
    requires AloneSoFar(bids, st, bad, avail, start, asked, covered, now, known, started) && bids[0] in after
    requires PlanRun(st, plan - known, avail, now[bids[0]].Keys, after[bids[0]].Keys) && known <= known' <= known + plan
    requires covered + plan <= Well(st, bad) && Tolerable(st, bad) && forall i | i in bad :: i in st.replicas
    requires bids[0] in fail <==> !AllOk(after[bids[0]].Keys, bad)
    ensures bids[0] in fail ==> AloneSoFar(bids, st, bad, avail, start, asked, covered + plan, after, known', true)
    ensures bids[0] !in fail ==> ExactStep(st, Members(bad), avail, start[bids[0]].Keys, after[bids[0]].Keys, known')
  {
    AloneRound(st, bad, avail, start[bids[0]].Keys, asked, covered, now[bids[0]].Keys, known, started, plan,
               after[bids[0]].Keys, known');
  }

  lemma AloneEnd(bids: seq<Bid>, st: Stripe, bad: seq<nat>, avail: set<nat>, start: Shards, asked: set<nat>,
                 covered: set<nat>, now: Shards, known: set<nat>)
    requires AloneSoFar(bids, st, bad, avail, start, asked, covered, now, known, Tolerable(st, bad))
    requires covered == if Tolerable(st, bad) then Well(st, bad) else {}
    ensures ExactStep(st, Members(bad), avail, start[bids[0]].Keys, now[bids[0]].Keys, known)
  {
    AloneLast(st, bad, avail, start[bids[0]].Keys, asked, now[bids[0]].Keys, known);
  }

  lemma AloneStart(bids: seq<Bid>, st: Stripe, bad: seq<nat>, avail: set<nat>, start: Shards, asked: set<nat>)
    requires |bids| == 1 && bids[0] in start && CanStep(st, bad, avail, start[bids[0]].Keys, asked)
    ensures AloneSoFar(bids, st, bad, avail, start, asked, {}, start, asked, false)
  {
    AloneFirst(st, bad, avail, start[bids[0]].Keys, asked);
  }

  lemma AloneLast(st: Stripe, bad: seq<nat>, avail: set<nat>, before: set<nat>, asked: set<nat>, now: set<nat>,
                  known: set<nat>)
    requires CanStep(st, bad, avail, before, asked)
    requires Ongoing(st, avail, before, if Tolerable(st, bad) then Well(st, bad) else {}, now, known,
                     Tolerable(st, bad))
    ensures ExactStep(st, Members(bad), avail, before, now, known)
  {
    if Tolerable(st, bad) {
      assert Well(st, bad) * avail == Members(st.replicas) * avail;
      CountSame(st.replicas, now, before + avail);
    }
  }

  // ---- the local stripes ----

  ghost predicate HasIdx(env: Env, ids: set<nat>, az: nat)
    requires env.t.AZCount > 0
  {
    exists i :: i in ids && env.t.ZoneOf(i) == az
  }

  /** A zone with one of the indexes whose local stripe can be filled. */
  ghost predicate ZoneFills(env: Env, ids: set<nat>, az: nat, p: set<nat>)
    requires env.t.AZCount > 0
  {
    HasIdx(env, ids, az) && Fills(env.Local(az), ids, p)
  }

  /** What can be had after the local stripes of some zones. */
  ghost function AfterZones(env: Env, ids: set<nat>, p: set<nat>, zones: set<nat>): set<nat>
    requires env.t.AZCount > 0
  {
    p + set i: nat | i < env.t.Total() && env.t.ZoneOf(i) in zones && ZoneFills(env, ids, env.t.ZoneOf(i), p)
  }

  /** What can be had after the local stripes; without local parity nothing is added. */
  ghost function AfterLocals(env: Env, ids: set<nat>, p: set<nat>): set<nat>
    requires env.t.AZCount > 0
  {
    if env.t.L == 0 then p else p + set i: nat | i < env.t.Total() && ZoneFills(env, ids, env.t.ZoneOf(i), p)
  }

  /** A shard that must not be downloaded is at hand only together with enough of its local stripe. */
  ghost predicate Backed(env: Env, forbidden: set<nat>, have: set<nat>)
    requires env.t.AZCount > 0
  {
    env.t.L > 0 ==> forall i | i in forbidden && i in have && i < env.t.Total() ::
      CountIn(env.HomeStripe(i).replicas, have) >= env.HomeStripe(i).n
  }

  ghost predicate Poised(env: Env, forbidden: set<nat>, avail: set<nat>, have: set<nat>, known: set<nat>)
    requires env.t.AZCount > 0
  {
    CaughtUp(have, known, avail) && Backed(env, forbidden, have) && forbidden !! avail
  }

  /** What is available in the zones of the indexes is at hand, if not too many are bad there. */
  ghost predicate Gained(env: Env, ids: set<nat>, avail: set<nat>, have: set<nat>, zones: set<nat>)
    requires env.t.AZCount > 0
  {
    forall i | i in avail && i < env.t.Total() && env.t.ZoneOf(i) in zones && HasIdx(env, ids, env.t.ZoneOf(i)) &&
               CountIn(env.HomeStripe(i).replicas, ids) <= env.HomeStripe(i).m :: i in have
  }

  /** Where the blob stands after the local stripes of some zones. */
  ghost predicate ZonesDone(env: Env, forbidden: set<nat>, ids: set<nat>, avail: set<nat>, before: set<nat>,
                            zones: set<nat>, after: set<nat>, known: set<nat>)
    requires env.t.AZCount > 0
  {
    && Poised(env, forbidden, avail, after, known) && before <= after
    && after + avail == AfterZones(env, ids, before + avail, zones)
    && Gained(env, ids, avail, after, zones)
  }

  lemma NoZones(env: Env, forbidden: set<nat>, ids: set<nat>, avail: set<nat>, have: set<nat>, known: set<nat>)
    requires env.t.AZCount > 0 && Poised(env, forbidden, avail, have, known)
    ensures ZonesDone(env, forbidden, ids, avail, have, {}, have, known)
  {
    assert AfterZones(env, ids, have + avail, {}) == have + avail;
  }

  /** A zone without an index is left alone. */
  lemma SkipZone(env: Env, forbidden: set<nat>, ids: set<nat>, avail: set<nat>, before: set<nat>, zones: set<nat>,
                 have: set<nat>, known: set<nat>, az: nat)
    requires env.t.AZCount > 0 && ZonesDone(env, forbidden, ids, avail, before, zones, have, known)
    requires !HasIdx(env, ids, az)
    ensures ZonesDone(env, forbidden, ids, avail, before, zones + {az}, have, known)
  {
    hide Fills, Poised;
    assert AfterZones(env, ids, before + avail, zones + {az}) == AfterZones(env, ids, before + avail, zones);
  }

  lemma ZoneCanStep(env: Env, forbidden: set<nat>, avail: set<nat>, have: set<nat>, known: set<nat>, az: nat,
                    bad: seq<nat>)
    requires env.Valid() && env.t.L > 0 && az < env.t.AZCount && Poised(env, forbidden, avail, have, known)
    requires bad != [] && forall i | i in bad :: i in forbidden && i < env.t.Total() && env.t.ZoneOf(i) == az
    ensures CanStep(env.Local(az), bad, avail, have, known)
  {
    assert bad[0] in bad;
    assert env.HomeStripe(bad[0]) == env.Local(az);
  }

  /** In a zone, the bad shards are those of the indexes that lie there. */
  lemma BadOfZone(env: Env, az: nat, ids: set<nat>, bad: seq<nat>)
    requires env.Valid() && az < env.t.AZCount
    requires forall i :: i in bad <==> i in ids && env.t.ZoneOf(i) == az
    ensures CountIn(env.Local(az).replicas, Members(bad)) == CountIn(env.Local(az).replicas, ids)
  {
    ZoneIsSimple(env.t, az);
    forall i | i in env.Local(az).replicas
      ensures i in Members(bad) <==> i in ids
    {
      ZonesPartition(env.t, az, i);
    }
    CountSame(env.Local(az).replicas, Members(bad), ids);
  }

  lemma ZoneMembers(env: Env, az: nat, i: nat)
    requires env.Valid() && az < env.t.AZCount
    ensures i in Members(env.Local(az).replicas) <==> i < env.t.Total() && env.t.ZoneOf(i) == az
  {
    if i < env.t.Total() {
      ZonesPartition(env.t, az, i);
    } else {
      ZoneIsSimple(env.t, az);
    }
  }

  lemma BackedByZone(env: Env, forbidden: set<nat>, avail: set<nat>, before: set<nat>, az: nat, bad: set<nat>,
                     after: set<nat>, known: set<nat>)
    requires env.Valid() && env.t.L > 0 && az < env.t.AZCount && forbidden !! avail && Backed(env, forbidden, before)
    requires ExactStep(env.Local(az), bad, avail, before, after, known)
    ensures Backed(env, forbidden, after)
  {
    forall i | i in forbidden && i in after && i < env.t.Total()
      ensures CountIn(env.HomeStripe(i).replicas, after) >= env.HomeStripe(i).n
    {
      if i in before {
        CountMonotone(env.HomeStripe(i).replicas, before, after);
      } else {
        assert i in Members(env.Local(az).replicas);
        ZoneMembers(env, az, i);
        FilledZone(env, az, after);
      }
    }
  }

  lemma FilledZone(env: Env, az: nat, have: set<nat>)
    requires env.Valid() && env.t.L > 0 && az < env.t.AZCount && Members(env.Local(az).replicas) <= have
    ensures CountIn(env.Local(az).replicas, have) >= env.Local(az).n
  {
    EnvFacts(env);
    assert forall i | i in env.Local(az).replicas :: i in Members(env.Local(az).replicas);
    CountAll(env.Local(az).replicas, have);
  }

  /** Other zones do not matter to what can be had in a zone. */
  lemma SameInZone(env: Env, ids: set<nat>, p: set<nat>, zones: set<nat>, az: nat)
    requires env.Valid() && az < env.t.AZCount && az !in zones
    ensures CountIn(env.Local(az).replicas, AfterZones(env, ids, p, zones)) == CountIn(env.Local(az).replicas, p)
  {
    forall i | i in env.Local(az).replicas
      ensures i in AfterZones(env, ids, p, zones) <==> i in p
    {
      assert i in Members(env.Local(az).replicas);
      ZoneMembers(env, az, i);
    }
    CountSame(env.Local(az).replicas, AfterZones(env, ids, p, zones), p);
  }

  lemma NextZones(env: Env, ids: set<nat>, p: set<nat>, zones: set<nat>, az: nat)
    requires env.Valid() && az < env.t.AZCount
    ensures AfterZones(env, ids, p, zones + {az}) ==
      AfterZones(env, ids, p, zones) + if ZoneFills(env, ids, az, p) then Members(env.Local(az).replicas) else {}
  {
    hide ZoneFills;
    forall i
      ensures i in AfterZones(env, ids, p, zones + {az}) <==>
        i in AfterZones(env, ids, p, zones) + if ZoneFills(env, ids, az, p) then Members(env.Local(az).replicas) else {}
    {
      if i >= 0 {
        ZoneMembers(env, az, i);
      }
    }
  }

  /** The local stripe of one more zone. */
  lemma NextZone(env: Env, forbidden: set<nat>, ids: set<nat>, avail: set<nat>, start: set<nat>, zones: set<nat>,
                 before: set<nat>, known: set<nat>, az: nat, bad: seq<nat>, after: set<nat>, known': set<nat>)
    requires env.Valid() && env.t.L > 0 && az < env.t.AZCount && az !in zones && HasIdx(env, ids, az)
    requires ZonesDone(env, forbidden, ids, avail, start, zones, before, known)
    requires forall i :: i in bad <==> i in ids && env.t.ZoneOf(i) == az
    requires ExactStep(env.Local(az), Members(bad), avail, before, after, known')
    ensures ZonesDone(env, forbidden, ids, avail, start, zones + {az}, after, known')
  {
    BadOfZone(env, az, ids, bad);
    BackedByZone(env, forbidden, avail, before, az, Members(bad), after, known');
    SameInZone(env, ids, start + avail, zones, az);
    NextZones(env, ids, start + avail, zones, az);
    GainedNext(env, ids, avail, before, zones, az, after);
    hide AfterZones, Gained, Backed, Env.Valid, CaughtUp;
  }

  lemma GainedNext(env: Env, ids: set<nat>, avail: set<nat>, before: set<nat>, zones: set<nat>, az: nat,
                   after: set<nat>)
    requires env.Valid() && az < env.t.AZCount && Gained(env, ids, avail, before, zones) && before <= after
    requires CountIn(env.Local(az).replicas, ids) <= env.Local(az).m ==>
      Members(env.Local(az).replicas) * avail <= after
    ensures Gained(env, ids, avail, after, zones + {az})
  {
    forall i | i in avail && i < env.t.Total() && env.t.ZoneOf(i) in zones + {az} &&
               HasIdx(env, ids, env.t.ZoneOf(i)) && CountIn(env.HomeStripe(i).replicas, ids) <= env.HomeStripe(i).m
      ensures i in after
    {
      if env.t.ZoneOf(i) == az {
        ZoneMembers(env, az, i);
      }
    }
  }

  // ---- the global stripe ----

  lemma GlobalMembers(env: Env, i: nat)
    ensures i in Members(env.Global().replicas) <==> i < env.t.N + env.t.M
  {
    InSpan(0, env.t.N + env.t.M, i);
  }

  lemma BackedByGlobal(env: Env, forbidden: set<nat>, avail: set<nat>, before: set<nat>, known: set<nat>, bad: set<nat>,
                       after: set<nat>, known': set<nat>)
    requires env.Valid() && Poised(env, forbidden, avail, before, known)
    requires ExactStep(env.Global(), bad, avail, before, after, known')
    ensures Backed(env, forbidden, after)
  {
    if env.t.L > 0 {
      forall i | i in forbidden && i in after && i < env.t.Total()
        ensures CountIn(env.HomeStripe(i).replicas, after) >= env.HomeStripe(i).n
      {
        if i in before {
          CountMonotone(env.HomeStripe(i).replicas, before, after);
        } else {
          assert Members(env.Global().replicas) <= after;
          AllGlobalsSuffice(env, i, after);
        }
      }
    }
  }

  /** With all data and parity shards there is enough in each local stripe. */
  lemma AllGlobalsSuffice(env: Env, idx: nat, have: set<nat>)
    requires env.Valid() && env.t.L > 0 && idx < env.t.Total() && Members(env.Global().replicas) <= have
    ensures CountIn(env.HomeStripe(idx).replicas, have) >= env.HomeStripe(idx).n
  {
    ZoneGlobalsAreFew(env, idx, []);
    forall i | i in ZoneGlobals(env, idx)
      ensures i in have
    {
      GlobalMembers(env, i);
    }
    ZoneGlobalsSuffice(env, idx, have);
  }

  // ---- what decides ----

  /** Whether data and parity shards come back: by their local stripes, or else by the global one. */
  ghost predicate GlobalsRecover(env: Env, ids: set<nat>, p: set<nat>)
    requires env.t.AZCount > 0
  {
    var q := AfterLocals(env, ids, p);
    ids <= q || Fills(env.Global(), ids, q)
  }

  ghost function AfterGlobals(env: Env, ids: set<nat>, p: set<nat>): set<nat>
    requires env.t.AZCount > 0
  {
    var q := AfterLocals(env, ids, p);
    if ids <= q then q else q + Members(env.Global().replicas)
  }

  /** The data and parity shards that cannot be had in the zones of some indexes. */
  ghost function Lacking(env: Env, ids: set<nat>, p: set<nat>): set<nat>
    requires env.t.AZCount > 0
  {
    set g: nat | g < env.t.N + env.t.M && HasIdx(env, ids, env.t.ZoneOf(g)) && g !in p
  }

  /** Whether local parity comes back: by the local stripes, or after the global stripe has brought
      what their zones lack. */
  ghost predicate LocalsRecover(env: Env, ids: set<nat>, p: set<nat>)
    requires env.t.AZCount > 0
  {
    var q := AfterLocals(env, ids, p);
    ids <= q || Fills(env.Global(), Lacking(env, ids, q), q)
  }

  ghost function GlobalIds(env: Env, ids: set<nat>): set<nat> { set i | i in ids && i < env.t.N + env.t.M }

  ghost function LocalIds(env: Env, ids: set<nat>): set<nat> { set i | i in ids && i >= env.t.N + env.t.M }

  /** Whether all the given shards of a blob come back by decoding, of which avail can be downloaded. */
  ghost predicate CodeRecovers(env: Env, ids: set<nat>, avail: set<nat>)
    requires env.t.AZCount > 0
  {
    var g, l := GlobalIds(env, ids), LocalIds(env, ids);
    && (g != {} ==> GlobalsRecover(env, g, avail))
    && (l != {} ==> LocalsRecover(env, l, if g == {} then avail else AfterGlobals(env, g, avail)))
  }

  // ---- the stages, for the one blob that is recovered ----

  /** One blob that has bytes, with all that was downloaded at hand. */
  ghost predicate Solo(env: Env, bids: seq<Bid>, forbidden: set<nat>, shards: Shards, known: set<nat>)
    requires env.t.AZCount > 0
  {
    && |bids| == 1 && Sized(env, bids[0]) && bids[0] in shards
    && Poised(env, forbidden, env.Avail(bids[0], forbidden), shards[bids[0]].Keys, known)
  }

  /** What can be had of the blob. */
  ghost function Within(env: Env, bids: seq<Bid>, forbidden: set<nat>, shards: Shards): set<nat>
    requires |bids| == 1 && bids[0] in shards
  {
    shards[bids[0]].Keys + env.Avail(bids[0], forbidden)
  }

  ghost predicate Holds(bids: seq<Bid>, shards: Shards, ids: set<nat>)
    requires |bids| == 1 && bids[0] in shards
  {
    ids <= shards[bids[0]].Keys
  }

  /** After the local stripes. */
  ghost predicate LocalsDone(env: Env, bids: seq<Bid>, forbidden: set<nat>, ids: set<nat>, before: Shards,
                             after: Shards, known: set<nat>)
    requires env.t.AZCount > 0
  {
    && Solo(env, bids, forbidden, after, known) && bids[0] in before && before[bids[0]].Keys <= after[bids[0]].Keys
    && Within(env, bids, forbidden, after) == AfterLocals(env, ids, Within(env, bids, forbidden, before))
    && (env.t.L > 0 ==> forall az: nat | az < env.t.AZCount ::
          Gained(env, ids, env.Avail(bids[0], forbidden), after[bids[0]].Keys, {az}))
  }

  lemma SameLocals(env: Env, bids: seq<Bid>, forbidden: set<nat>, ids: set<nat>, shards: Shards, known: set<nat>)
    requires env.t.AZCount > 0 && env.t.L == 0 && Solo(env, bids, forbidden, shards, known)
    ensures LocalsDone(env, bids, forbidden, ids, shards, shards, known)
  {
  }

  lemma AllZonesDone(env: Env, bids: seq<Bid>, forbidden: set<nat>, ids: set<nat>, before: Shards, after: Shards,
                     zones: set<nat>, known: set<nat>)
    requires env.Valid() && env.t.AZCount > 0 && env.t.L > 0
    requires |bids| == 1 && Sized(env, bids[0]) && bids[0] in before && bids[0] in after
    requires forall az: nat | az < env.t.AZCount :: az in zones
    requires ZonesDone(env, forbidden, ids, env.Avail(bids[0], forbidden), before[bids[0]].Keys, zones,
                       after[bids[0]].Keys, known)
    ensures LocalsDone(env, bids, forbidden, ids, before, after, known)
  {
    var p := Within(env, bids, forbidden, before);
    forall i: nat | i < env.t.Total()
      ensures env.t.ZoneOf(i) in zones
    {
      ZonesPartition(env.t, 0, i);
    }
    hide ZoneFills, Poised, Env.Valid;
    assert AfterZones(env, ids, p, zones) == AfterLocals(env, ids, p);
  }

  /** A shard that must not be downloaded is at hand exactly if it can be had. */
  lemma HeldIsWithin(env: Env, bids: seq<Bid>, forbidden: set<nat>, ids: set<nat>, shards: Shards, known: set<nat>)
    requires env.t.AZCount > 0 && Solo(env, bids, forbidden, shards, known) && ids <= forbidden
    ensures Holds(bids, shards, ids) <==> ids <= Within(env, bids, forbidden, shards)
  {
  }

  /** After the global stripe. */
  ghost predicate GlobalDone(env: Env, bids: seq<Bid>, forbidden: set<nat>, bad: set<nat>, before: Shards,
                             after: Shards, known: set<nat>)
    requires env.t.AZCount > 0
  {
    && Solo(env, bids, forbidden, after, known) && bids[0] in before
    && var p := Within(env, bids, forbidden, before);
       && Within(env, bids, forbidden, after) ==
            p + (if Fills(env.Global(), bad, p) then Members(env.Global().replicas) else {})
       && (Fills(env.Global(), bad, p) ==> Members(env.Global().replicas) <= after[bids[0]].Keys)
  }

  lemma GlobalIsDone(env: Env, bids: seq<Bid>, forbidden: set<nat>, bad: set<nat>, before: Shards, known: set<nat>,
                     after: Shards, known': set<nat>)
    requires env.Valid() && env.t.AZCount > 0 && Solo(env, bids, forbidden, before, known) && bids[0] in after
    requires ExactStep(env.Global(), bad, env.Avail(bids[0], forbidden), before[bids[0]].Keys, after[bids[0]].Keys,
                       known')
    ensures GlobalDone(env, bids, forbidden, bad, before, after, known')
  {
    BackedByGlobal(env, forbidden, env.Avail(bids[0], forbidden), before[bids[0]].Keys, known, bad,
                   after[bids[0]].Keys, known');
    hide Fills, Backed, Env.Valid, Env.Global;
  }

  /** What the stages for data and parity shards come to. */
  ghost predicate GlobalsOutcome(env: Env, bids: seq<Bid>, forbidden: set<nat>, ids: set<nat>, before: Shards, ok: bool,
                                 after: Shards, known: set<nat>)
    requires env.t.AZCount > 0
  {
    && |bids| == 1 && bids[0] in before && bids[0] in after
    && var p := Within(env, bids, forbidden, before);
       && (ok <==> GlobalsRecover(env, ids, p))
       && (ok ==>
             Solo(env, bids, forbidden, after, known) &&
             Within(env, bids, forbidden, after) == AfterGlobals(env, ids, p))
  }

  lemma DoneByLocals(env: Env, bids: seq<Bid>, forbidden: set<nat>, ids: set<nat>, before: Shards, mid: Shards,
                     known: set<nat>)
    requires env.t.AZCount > 0 && LocalsDone(env, bids, forbidden, ids, before, mid, known) && ids <= forbidden
    requires Holds(bids, mid, ids)
    ensures GlobalsOutcome(env, bids, forbidden, ids, before, true, mid, known)
    ensures LocalsRecover(env, ids, Within(env, bids, forbidden, before))
  {
    HeldIsWithin(env, bids, forbidden, ids, mid, known);
    hide AfterLocals, Poised;
  }

  lemma DoneByGlobal(env: Env, bids: seq<Bid>, forbidden: set<nat>, ids: set<nat>, before: Shards, mid: Shards,
                     known: set<nat>, after: Shards, known': set<nat>)
    requires env.t.AZCount > 0 && LocalsDone(env, bids, forbidden, ids, before, mid, known) && ids <= forbidden
    requires !Holds(bids, mid, ids) && (forall i | i in ids :: i < env.t.N + env.t.M)
    requires GlobalDone(env, bids, forbidden, ids, mid, after, known')
    ensures GlobalsOutcome(env, bids, forbidden, ids, before, Holds(bids, after, ids), after, known')
  {
    HeldIsWithin(env, bids, forbidden, ids, mid, known);
    HeldIsWithin(env, bids, forbidden, ids, after, known');
    forall i | i in ids
      ensures i in Members(env.Global().replicas)
    {
      GlobalMembers(env, i);
    }
    hide AfterLocals, Poised, Env.Global;
  }

  // ---- local parity through the global stripe ----

  lemma LocalsAreTolerable(env: Env, ids: set<nat>, az: nat)
    requires env.Valid() && env.t.L > 0 && az < env.t.AZCount && forall i | i in ids :: i >= env.t.N + env.t.M
    ensures CountIn(env.Local(az).replicas, ids) <= env.Local(az).m
  {
    var st := env.Local(az);
    ZoneIsSimple(env.t, az);
    CountConcat(st.replicas[..st.n], st.replicas[st.n..], ids);
    assert st.replicas == st.replicas[..st.n] + st.replicas[st.n..];
    CountNone(st.replicas[..st.n], ids);
    CountAll(st.replicas[st.n..], ids);
  }

  /** What the zones lack cannot be downloaded, and some of it is lacking. */
  lemma LackingIsBad(env: Env, bids: seq<Bid>, forbidden: set<nat>, ids: set<nat>, before: Shards, mid: Shards,
                     known: set<nat>, g: nat)
    requires env.Valid() && env.t.AZCount > 0 && env.t.L > 0
    requires LocalsDone(env, bids, forbidden, ids, before, mid, known)
    requires g < env.t.N + env.t.M && HasIdx(env, ids, env.t.ZoneOf(g)) && forall i | i in ids :: i >= env.t.N + env.t.M
    ensures g in mid[bids[0]].Keys <==> g in Within(env, bids, forbidden, mid)
  {
    ZonesPartition(env.t, 0, g);
    LocalsAreTolerable(env, ids, env.t.ZoneOf(g));
    assert Gained(env, ids, env.Avail(bids[0], forbidden), mid[bids[0]].Keys, {env.t.ZoneOf(g)});
  }

  /** If a zone lacked no data or parity shard its local stripe would have been filled. */
  lemma LackingFills(env: Env, ids: set<nat>, p: set<nat>, i: nat)
    requires env.Valid() && env.t.AZCount > 0 && env.t.L > 0 && i in ids && i < env.t.Total()
    requires forall j | j in ids :: j >= env.t.N + env.t.M
    requires forall g: nat | g < env.t.N + env.t.M && env.t.ZoneOf(g) == env.t.ZoneOf(i) :: g in p
    ensures ZoneFills(env, ids, env.t.ZoneOf(i), p)
  {
    ZonesPartition(env.t, 0, i);
    var az := env.t.ZoneOf(i);
    LocalsAreTolerable(env, ids, az);
    ZoneGlobalsAreFew(env, i, []);
    forall g | g in ZoneGlobals(env, i)
      ensures g in p
    {
      assert g in Members(env.Local(az).replicas);
      ZoneMembers(env, az, g);
    }
    ZoneGlobalsSuffice(env, i, p);
  }

  /** Filling local stripes again fills no other. */
  lemma LocalsTwice(env: Env, ids: set<nat>, p: set<nat>)
    requires env.Valid() && env.t.AZCount > 0 && env.t.L > 0
    ensures AfterLocals(env, ids, AfterLocals(env, ids, p)) == AfterLocals(env, ids, p)
  {
    var q := AfterLocals(env, ids, p);
    forall i: nat | i < env.t.Total() && ZoneFills(env, ids, env.t.ZoneOf(i), q)
      ensures i in q
    {
      ZonesPartition(env.t, 0, i);
      var az := env.t.ZoneOf(i);
      if !ZoneFills(env, ids, az, p) {
        forall j | j in env.Local(az).replicas
          ensures j in q <==> j in p
        {
          assert j in Members(env.Local(az).replicas);
          ZoneMembers(env, az, j);
        }
        CountSame(env.Local(az).replicas, q, p);
      }
    }
  }

  lemma AllGlobalsGiveLocals(env: Env, ids: set<nat>, r: set<nat>)
    requires env.Valid() && env.t.AZCount > 0 && env.t.L > 0 && Members(env.Global().replicas) <= r
    requires forall i | i in ids :: env.t.N + env.t.M <= i < env.t.Total()
    ensures ids <= AfterLocals(env, ids, r)
  {
    forall i | i in ids
      ensures i in AfterLocals(env, ids, r)
    {
      forall g: nat | g < env.t.N + env.t.M && env.t.ZoneOf(g) == env.t.ZoneOf(i)
        ensures g in r
      {
        GlobalMembers(env, g);
      }
      LackingFills(env, ids, r, i);
    }
  }

  /** What the stages for local parity come to. */
  lemma LocalsOutcome(env: Env, bids: seq<Bid>, forbidden: set<nat>, ids: set<nat>, before: Shards, mid: Shards,
                      known: set<nat>, next: Shards, known': set<nat>, after: Shards, known'': set<nat>)
    requires env.Valid() && env.t.AZCount > 0 && env.t.L > 0 && ids <= forbidden
    requires forall i | i in ids :: env.t.N + env.t.M <= i < env.t.Total()
    requires LocalsDone(env, bids, forbidden, ids, before, mid, known) && !Holds(bids, mid, ids)
    requires GlobalDone(env, bids, forbidden, Lacking(env, ids, Within(env, bids, forbidden, mid)), mid, next, known')
    requires LocalsDone(env, bids, forbidden, ids, next, after, known'')
    ensures Holds(bids, after, ids) <==> LocalsRecover(env, ids, Within(env, bids, forbidden, before))
  {
    hide AfterLocals, Poised, Fills, Lacking, Env.Valid, Env.Global, Gained, Within, Holds, Env.Avail, Members;
    HeldIsWithin(env, bids, forbidden, ids, mid, known);
    HeldIsWithin(env, bids, forbidden, ids, after, known'');
    var q, r := Within(env, bids, forbidden, mid), Within(env, bids, forbidden, next);
    if Fills(env.Global(), Lacking(env, ids, q), q) {
      AllGlobalsGiveLocals(env, ids, r);
    } else {
      assert r == q;
      LocalsTwice(env, ids, Within(env, bids, forbidden, before));
    }
  }

  lemma InZoneGlobals(env: Env, i: nat, g: nat)
    requires env.Valid() && env.t.AZCount > 0 && env.t.L > 0 && i < env.t.Total()
    ensures g in ZoneGlobals(env, i) <==> g < env.t.N + env.t.M && env.t.ZoneOf(g) == env.t.ZoneOf(i)
  {
    ZonesPartition(env.t, 0, i);
    var az := env.t.ZoneOf(i);
    ZoneGlobalsAreFew(env, i, []);
    ZoneIsSimple(env.t, az);
    ZoneMembers(env, az, g);
    var st := env.Local(az);
    if g < env.t.N + env.t.M && env.t.ZoneOf(g) == az {
      assert g in st.replicas;
      var k :| 0 <= k < |st.replicas| && st.replicas[k] == g;
      assert st.replicas[..st.n][k] == g;
    }
  }

  /** What is gathered to be repaired by the global stripe is what the zones lack. */
  lemma GatheredIsLacking(env: Env, bids: seq<Bid>, forbidden: set<nat>, idxs: seq<nat>, before: Shards, mid: Shards,
                          known: set<nat>, globals: seq<nat>, bad: seq<nat>)
    requires env.Valid() && env.t.AZCount > 0 && env.t.L > 0
    requires LocalsDone(env, bids, forbidden, Members(idxs), before, mid, known)
    requires forall i | i in idxs :: env.t.N + env.t.M <= i < env.t.Total()
    requires forall g :: g in globals <==> exists i :: i in idxs && g in ZoneGlobals(env, i)
    requires forall g :: g in bad <==> g in globals && exists b :: b in bids && b in mid && g !in mid[b]
    ensures Members(bad) == Lacking(env, Members(idxs), Within(env, bids, forbidden, mid))
    ensures Members(bad) !! env.Avail(bids[0], forbidden) && forall g | g in bad :: g !in mid[bids[0]].Keys
  {
    var ids, q := Members(idxs), Within(env, bids, forbidden, mid);
    assert bids[0] in bids && bids == [bids[0]];
    forall g: nat
      ensures g in bad <==> g in Lacking(env, ids, q)
      ensures g in bad ==> g !in env.Avail(bids[0], forbidden)
    {
      if g in bad {
        var i :| i in idxs && g in ZoneGlobals(env, i);
        InZoneGlobals(env, i, g);
        assert i in ids;
        LackingIsBad(env, bids, forbidden, ids, before, mid, known, g);
      }
      if g in Lacking(env, ids, q) {
        var i :| i in ids && env.t.ZoneOf(i) == env.t.ZoneOf(g);
        InZoneGlobals(env, i, g);
        LackingIsBad(env, bids, forbidden, ids, before, mid, known, g);
      }
    }
  }

  /** If an index is still missing, so is a data or parity shard of its zone. */
  lemma SomethingLacks(env: Env, bids: seq<Bid>, forbidden: set<nat>, ids: set<nat>, before: Shards, mid: Shards,
                       known: set<nat>)
    requires env.Valid() && env.t.AZCount > 0 && env.t.L > 0 && ids <= forbidden
    requires LocalsDone(env, bids, forbidden, ids, before, mid, known) && !Holds(bids, mid, ids)
    requires forall i | i in ids :: env.t.N + env.t.M <= i < env.t.Total()
    ensures Lacking(env, ids, Within(env, bids, forbidden, mid)) != {}
  {
    var q := Within(env, bids, forbidden, mid);
    HeldIsWithin(env, bids, forbidden, ids, mid, known);
    var i :| i in ids && i !in q;
    LocalsTwice(env, ids, Within(env, bids, forbidden, before));
    if forall g: nat | g < env.t.N + env.t.M && env.t.ZoneOf(g) == env.t.ZoneOf(i) :: g in q {
      LackingFills(env, ids, q, i);
    } else {
      var g: nat :| g < env.t.N + env.t.M && env.t.ZoneOf(g) == env.t.ZoneOf(i) && g !in q;
      assert HasIdx(env, ids, env.t.ZoneOf(g));
      assert g in Lacking(env, ids, q);
    }
  }

  lemma SoloCanStep(env: Env, bids: seq<Bid>, forbidden: set<nat>, shards: Shards, known: set<nat>, st: Stripe,
                    bad: seq<nat>)
    requires env.t.AZCount > 0 && Solo(env, bids, forbidden, shards, known)
    requires Members(bad) !! env.Avail(bids[0], forbidden) && !AllOk(shards[bids[0]].Keys, bad)
    ensures CanStep(st, bad, env.Avail(bids[0], forbidden), shards[bids[0]].Keys, known)
  {
  }

  lemma GrownKeys(before: Shards, after: Shards)
    requires Grown(before, after)
    ensures before.Keys == after.Keys
  {
  }

  lemma StartsSolo(env: Env, bids: seq<Bid>, forbidden: set<nat>, shards: Shards)
    requires env.t.AZCount > 0 && |bids| == 1 && Sized(env, bids[0]) && bids[0] in shards && shards[bids[0]] == map[]
    ensures Solo(env, bids, forbidden, shards, {})
    ensures Within(env, bids, forbidden, shards) == env.Avail(bids[0], forbidden)
  {
  }

  // ---- the same, in the terms of the recovery's loops ----

  /** Some zones are done for the one blob. */
  ghost predicate ZonesAt(env: Env, bids: seq<Bid>, forbidden: set<nat>, idxs: seq<nat>, start: Shards, zones: set<nat>,
                          shards: Shards, known: set<nat>) {
    && env.t.AZCount > 0 && |bids| == 1 && Sized(env, bids[0]) && bids[0] in start && bids[0] in shards
    && Members(idxs) <= forbidden
    && ZonesDone(env, forbidden, Members(idxs), env.Avail(bids[0], forbidden), start[bids[0]].Keys, zones,
                 shards[bids[0]].Keys, known)
  }

  lemma ZonesStart(env: Env, bids: seq<Bid>, forbidden: set<nat>, idxs: seq<nat>, shards: Shards, known: set<nat>)
    requires env.t.AZCount > 0 && Solo(env, bids, forbidden, shards, known) && Members(idxs) <= forbidden
    ensures ZonesAt(env, bids, forbidden, idxs, shards, {}, shards, known)
  {
    NoZones(env, forbidden, Members(idxs), env.Avail(bids[0], forbidden), shards[bids[0]].Keys, known);
  }

  lemma ZonesCanStep(env: Env, bids: seq<Bid>, forbidden: set<nat>, idxs: seq<nat>, start: Shards, zones: set<nat>,
                     shards: Shards, known: set<nat>, az: nat, bad: seq<nat>)
    requires env.Valid() && env.t.L > 0 && az < env.t.AZCount && (forall i | i in idxs :: i < env.t.Total())
    requires ZonesAt(env, bids, forbidden, idxs, start, zones, shards, known)
    requires bad != [] && forall i :: i in bad <==> i in idxs && env.t.ZoneOf(i) == az
    ensures |bids| == 1 && Sized(env, bids[0]) && bids[0] in shards
    ensures CanStep(env.Local(az), bad, env.Avail(bids[0], forbidden), shards[bids[0]].Keys, known)
  {
    forall i | i in bad
      ensures i in forbidden
    {
      assert i in Members(idxs);
    }
    ZoneCanStep(env, forbidden, env.Avail(bids[0], forbidden), shards[bids[0]].Keys, known, az, bad);
  }

  lemma ZonesNext(env: Env, bids: seq<Bid>, forbidden: set<nat>, idxs: seq<nat>, start: Shards, zones: set<nat>,
                  before: Shards, known: set<nat>, az: nat, bad: seq<nat>, after: Shards, known': set<nat>)
    requires env.Valid() && env.t.L > 0 && az < env.t.AZCount && az !in zones
    requires ZonesAt(env, bids, forbidden, idxs, start, zones, before, known) && bids[0] in after
    requires bad != [] && forall i :: i in bad <==> i in idxs && env.t.ZoneOf(i) == az
    requires ExactStep(env.Local(az), Members(bad), env.Avail(bids[0], forbidden), before[bids[0]].Keys,
                       after[bids[0]].Keys, known')
    ensures ZonesAt(env, bids, forbidden, idxs, start, zones + {az}, after, known')
  {
    assert bad[0] in bad && bad[0] in Members(idxs);
    NextZone(env, forbidden, Members(idxs), env.Avail(bids[0], forbidden), start[bids[0]].Keys, zones,
             before[bids[0]].Keys, known, az, bad, after[bids[0]].Keys, known');
  }

  lemma ZonesSkip(env: Env, bids: seq<Bid>, forbidden: set<nat>, idxs: seq<nat>, start: Shards, zones: set<nat>,
                  shards: Shards, known: set<nat>, az: nat)
    requires ZonesAt(env, bids, forbidden, idxs, start, zones, shards, known)
    requires forall i | i in idxs :: env.t.ZoneOf(i) != az
    ensures ZonesAt(env, bids, forbidden, idxs, start, zones + {az}, shards, known)
  {
    SkipZone(env, forbidden, Members(idxs), env.Avail(bids[0], forbidden), start[bids[0]].Keys, zones,
             shards[bids[0]].Keys, known, az);
  }

  lemma ZonesEnd(env: Env, bids: seq<Bid>, forbidden: set<nat>, idxs: seq<nat>, start: Shards, zones: set<nat>,
                 shards: Shards, known: set<nat>)
    requires env.Valid() && env.t.AZCount > 0 && env.t.L > 0
    requires ZonesAt(env, bids, forbidden, idxs, start, zones, shards, known)
    requires forall az: nat | az < env.t.AZCount :: az in zones
    ensures LocalsDone(env, bids, forbidden, Members(idxs), start, shards, known)
  {
    AllZonesDone(env, bids, forbidden, Members(idxs), start, shards, zones, known);
  }

  /** The blob fails, and is the only one, exactly if it misses an index. */
  ghost predicate FailsAlone(bids: seq<Bid>, idxs: seq<nat>, shards: Shards, fail: seq<Bid>)
    requires |bids| == 1 && bids[0] in shards
  {
    fail == if Holds(bids, shards, Members(idxs)) then [] else bids
  }

  lemma FailIs(bids: seq<Bid>, idxs: seq<nat>, shards: Shards, fail: seq<Bid>)
    requires |bids| == 1 && bids[0] in shards && |fail| <= |bids|
    requires forall b :: b in fail <==> b in bids && b in shards && !AllOk(shards[b].Keys, idxs)
    ensures FailsAlone(bids, idxs, shards, fail)
  {
    assert AllOk(shards[bids[0]].Keys, idxs) <==> Holds(bids, shards, Members(idxs)) by {
      assert forall i | i in idxs :: i in Members(idxs);
    }
    if fail != [] {
      assert fail[0] in fail;
      assert fail == [fail[0]];
      assert bids == [bids[0]];
    } else {
      assert bids[0] !in fail;
    }
  }

  ghost predicate LocalsAfter(env: Env, bids: seq<Bid>, forbidden: set<nat>, idxs: seq<nat>, before: Shards,
                              after: Shards, known: set<nat>, fail: seq<Bid>)
    requires env.t.AZCount > 0
  {
    LocalsDone(env, bids, forbidden, Members(idxs), before, after, known) && FailsAlone(bids, idxs, after, fail)
  }

  lemma LocalsFail(env: Env, bids: seq<Bid>, forbidden: set<nat>, idxs: seq<nat>, before: Shards, after: Shards,
                   known: set<nat>, fail: seq<Bid>)
    requires env.t.AZCount > 0 && LocalsDone(env, bids, forbidden, Members(idxs), before, after, known)
    requires |fail| <= |bids|
    requires forall b :: b in fail <==> b in bids && b in after && !AllOk(after[b].Keys, idxs)
    ensures LocalsAfter(env, bids, forbidden, idxs, before, after, known, fail)
  {
    FailIs(bids, idxs, after, fail);
  }

  /** The local stripes did not bring all of the indexes. */
  ghost predicate LocalsFailed(env: Env, bids: seq<Bid>, forbidden: set<nat>, idxs: seq<nat>, before: Shards,
                               mid: Shards, known: set<nat>)
    requires env.t.AZCount > 0
  {
    && LocalsDone(env, bids, forbidden, Members(idxs), before, mid, known) && Members(idxs) <= forbidden
    && !Holds(bids, mid, Members(idxs))
  }

  lemma AfterFail(env: Env, bids: seq<Bid>, forbidden: set<nat>, idxs: seq<nat>, before: Shards, mid: Shards,
                  known: set<nat>, fail: seq<Bid>)
    requires env.t.AZCount > 0 && LocalsAfter(env, bids, forbidden, idxs, before, mid, known, fail)
    requires Members(idxs) <= forbidden && fail != []
    ensures fail == bids && LocalsFailed(env, bids, forbidden, idxs, before, mid, known)
  {
  }

  lemma AfterNoFail(env: Env, bids: seq<Bid>, forbidden: set<nat>, idxs: seq<nat>, before: Shards, mid: Shards,
                    known: set<nat>, fail: seq<Bid>)
    requires env.t.AZCount > 0 && LocalsAfter(env, bids, forbidden, idxs, before, mid, known, fail)
    requires Members(idxs) <= forbidden && fail == []
    ensures GlobalsOutcome(env, bids, forbidden, Members(idxs), before, true, mid, known)
    ensures |bids| == 1 && bids[0] in before && LocalsRecover(env, Members(idxs), Within(env, bids, forbidden, before))
  {
    assert bids != [];
    DoneByLocals(env, bids, forbidden, Members(idxs), before, mid, known);
  }

  lemma FailedFacts(env: Env, bids: seq<Bid>, forbidden: set<nat>, idxs: seq<nat>, before: Shards, mid: Shards,
                    known: set<nat>)
    requires env.t.AZCount > 0 && LocalsFailed(env, bids, forbidden, idxs, before, mid, known)
    ensures Solo(env, bids, forbidden, mid, known) && |bids| == 1 && bids[0] in mid
    ensures Members(idxs) !! env.Avail(bids[0], forbidden) && !AllOk(mid[bids[0]].Keys, idxs)
  {
    assert forall i | i in Members(idxs) :: i in idxs;
  }

  lemma GlobalFail(env: Env, bids: seq<Bid>, forbidden: set<nat>, idxs: seq<nat>, before: Shards, mid: Shards,
                   known: set<nat>, after: Shards, known': set<nat>, fail: seq<Bid>)
    requires env.t.AZCount > 0 && LocalsFailed(env, bids, forbidden, idxs, before, mid, known)
    requires GlobalDone(env, bids, forbidden, Members(idxs), mid, after, known') && |fail| <= |bids|
    requires forall i | i in idxs :: i < env.t.N + env.t.M
    requires forall b :: b in fail <==> b in bids && b in after && !AllOk(after[b].Keys, idxs)
    ensures GlobalsOutcome(env, bids, forbidden, Members(idxs), before, fail == [], after, known')
  {
    FailIs(bids, idxs, after, fail);
    assert bids != [];
    DoneByGlobal(env, bids, forbidden, Members(idxs), before, mid, known, after, known');
  }

  lemma ZonesListed(env: Env, idxs: seq<nat>)
    requires env.Valid() && forall i | i in idxs :: i < env.t.Total()
    ensures env.t.AZCount > 0 && env.zones[..|env.zones|] == env.zones
    ensures forall i | i in idxs :: env.t.ZoneOf(i) in env.zones
    ensures forall az | az in env.zones :: az < env.t.AZCount
    ensures forall az: nat | az < env.t.AZCount :: az in Members(env.zones)
    ensures Members(env.zones[..0]) == {}
  {
    EnvFacts(env);
    forall i | i in idxs
      ensures env.t.ZoneOf(i) in env.zones
    {
      ZonesPartition(env.t, 0, i);
    }
  }

  lemma NextListed(env: Env, k: nat)
    requires env.Valid() && k < |env.zones|
    ensures env.zones[k] in env.zones && env.zones[k] !in env.zones[..k] && env.zones[k] !in Members(env.zones[..k])
    ensures env.zones[..k + 1] == env.zones[..k] + [env.zones[k]]
    ensures Members(env.zones[..k + 1]) == Members(env.zones[..k]) + {env.zones[k]}
  {
    EnvFacts(env);
    assert env.zones[..k + 1] == env.zones[..k] + [env.zones[k]];
    assert env.zones[k] !in env.zones[..k];
  }

  ghost predicate AllParity(env: Env, idxs: seq<nat>) {
    forall i | i in idxs :: env.t.N + env.t.M <= i < env.t.Total()
  }

  /** The local stripes once more; ok tells whether they brought all of the indexes. */
  ghost predicate AgainDone(env: Env, bids: seq<Bid>, forbidden: set<nat>, idxs: seq<nat>, before: Shards,
                            after: Shards, known: set<nat>, ok: bool)
    requires env.t.AZCount > 0
  {
    LocalsDone(env, bids, forbidden, Members(idxs), before, after, known) && (ok <==> Holds(bids, after, Members(idxs)))
  }

  lemma AgainIs(env: Env, bids: seq<Bid>, forbidden: set<nat>, idxs: seq<nat>, before: Shards, after: Shards,
                known: set<nat>, fail: seq<Bid>)
    requires env.t.AZCount > 0 && LocalsDone(env, bids, forbidden, Members(idxs), before, after, known)
    requires |fail| <= |bids|
    requires forall b :: b in fail <==> b in bids && b in after && !AllOk(after[b].Keys, idxs)
    ensures AgainDone(env, bids, forbidden, idxs, before, after, known, fail == [])
  {
    FailIs(bids, idxs, after, fail);
    assert bids != [];
  }

  /** The global stripe has been asked for what the zones lack. */
  ghost predicate LackingRepaired(env: Env, bids: seq<Bid>, forbidden: set<nat>, idxs: seq<nat>, before: Shards,
                                  after: Shards, known: set<nat>)
    requires env.t.AZCount > 0
  {
    && |bids| == 1 && bids[0] in before
    && GlobalDone(env, bids, forbidden, Lacking(env, Members(idxs), Within(env, bids, forbidden, before)), before,
                  after, known)
  }

  lemma LackingCanStep(env: Env, bids: seq<Bid>, forbidden: set<nat>, idxs: seq<nat>, start: Shards, mid: Shards,
                       known: set<nat>, globals: seq<nat>, bad: seq<nat>)
    requires env.Valid() && env.t.AZCount > 0 && env.t.L > 0 && AllParity(env, idxs)
    requires LocalsFailed(env, bids, forbidden, idxs, start, mid, known)
    requires forall g :: g in globals <==> exists i :: i in idxs && g in ZoneGlobals(env, i)
    requires forall g :: g in bad <==> g in globals && exists b :: b in bids && b in mid && g !in mid[b]
    ensures |bids| == 1 && bids[0] in mid && Solo(env, bids, forbidden, mid, known)
    ensures Members(bad) !! env.Avail(bids[0], forbidden) && !AllOk(mid[bids[0]].Keys, bad)
    ensures Members(bad) == Lacking(env, Members(idxs), Within(env, bids, forbidden, mid))
  {
    GatheredIsLacking(env, bids, forbidden, idxs, start, mid, known, globals, bad);
    SomethingLacks(env, bids, forbidden, Members(idxs), start, mid, known);
    var g :| g in Members(bad);
    assert g in bad;
  }

  lemma LackingIsRepaired(env: Env, bids: seq<Bid>, forbidden: set<nat>, idxs: seq<nat>, mid: Shards, bad: seq<nat>,
                          after: Shards, known: set<nat>)
    requires env.t.AZCount > 0 && |bids| == 1 && bids[0] in mid
    requires Members(bad) == Lacking(env, Members(idxs), Within(env, bids, forbidden, mid))
    requires GlobalDone(env, bids, forbidden, Members(bad), mid, after, known)
    ensures LackingRepaired(env, bids, forbidden, idxs, mid, after, known)
  {
  }

  lemma RepairedFacts(env: Env, bids: seq<Bid>, forbidden: set<nat>, idxs: seq<nat>, start: Shards, mid: Shards,
                      asked: set<nat>, next: Shards, known: set<nat>)
    requires env.t.AZCount > 0 && LocalsFailed(env, bids, forbidden, idxs, start, mid, asked)
    requires LackingRepaired(env, bids, forbidden, idxs, mid, next, known)
    ensures Solo(env, bids, forbidden, next, known) && Members(idxs) <= forbidden
  {
  }

  /** What the stages for local parity come to. */
  ghost predicate LocalsResult(env: Env, bids: seq<Bid>, forbidden: set<nat>, idxs: seq<nat>, start: Shards, ok: bool)
    requires env.t.AZCount > 0
  {
    && |bids| == 1 && bids[0] in start
    && (ok <==> LocalsRecover(env, Members(idxs), Within(env, bids, forbidden, start)))
  }

  lemma ThroughGlobal(env: Env, bids: seq<Bid>, forbidden: set<nat>, idxs: seq<nat>, start: Shards, mid: Shards,
                      known: set<nat>, next: Shards, known': set<nat>, after: Shards, known'': set<nat>, ok: bool)
    requires env.Valid() && env.t.AZCount > 0 && env.t.L > 0 && AllParity(env, idxs)
    requires LocalsFailed(env, bids, forbidden, idxs, start, mid, known)
    requires LackingRepaired(env, bids, forbidden, idxs, mid, next, known')
    requires AgainDone(env, bids, forbidden, idxs, next, after, known'', ok)
    ensures LocalsResult(env, bids, forbidden, idxs, start, ok)
  {
    LocalsOutcome(env, bids, forbidden, Members(idxs), start, mid, known, next, known', after, known'');
  }

  lemma ResultNow(env: Env, bids: seq<Bid>, forbidden: set<nat>, idxs: seq<nat>, start: Shards, mid: Shards,
                  known: set<nat>, fail: seq<Bid>)
    requires env.t.AZCount > 0 && LocalsAfter(env, bids, forbidden, idxs, start, mid, known, fail)
    requires Members(idxs) <= forbidden && fail == []
    ensures LocalsResult(env, bids, forbidden, idxs, start, true)
  {
    AfterNoFail(env, bids, forbidden, idxs, start, mid, known, fail);
  }

  // ---- both kinds of indexes ----

  /** Recovery succeeds exactly if the shards come back by decoding. */
  ghost predicate CodeResult(env: Env, bids: seq<Bid>, forbidden: set<nat>, idxs: seq<nat>, start: Shards, ok: bool)
    requires env.t.AZCount > 0
  {
    && |bids| == 1 && bids[0] in start
    && (ok <==> CodeRecovers(env, Members(idxs), Within(env, bids, forbidden, start)))
  }

  lemma CodeResultIs(env: Env, bids: seq<Bid>, forbidden: set<nat>, idxs: seq<nat>, start: Shards, ok: bool)
    requires env.t.AZCount > 0 && CodeResult(env, bids, forbidden, idxs, start, ok)
    requires |bids| == 1 && bids[0] in start && Within(env, bids, forbidden, start) == env.Avail(bids[0], forbidden)
    ensures ok <==> CodeRecovers(env, Members(idxs), env.Avail(bids[0], forbidden))
  {
  }

  lemma SplitFacts(env: Env, forbidden: set<nat>, idxs: seq<nat>, globals: seq<nat>, locals: seq<nat>)
    requires forall i | i in idxs :: i < env.t.Total()
    requires forall i :: i in globals <==> i in idxs && i < env.t.N + env.t.M
    requires forall i :: i in locals <==> i in idxs && i >= env.t.N + env.t.M
    ensures Members(globals) == GlobalIds(env, Members(idxs)) && Members(locals) == LocalIds(env, Members(idxs))
    ensures AllParity(env, locals)
    ensures Members(idxs) <= forbidden ==> Members(globals) <= forbidden && Members(locals) <= forbidden
    ensures globals == [] <==> Members(globals) == {}
    ensures locals == [] <==> Members(locals) == {}
  {
    assert globals != [] ==> globals[0] in Members(globals);
    assert locals != [] ==> locals[0] in Members(locals);
  }

  /** The data and parity indexes are recovered, or there are none. */
  ghost predicate GlobalsAre(env: Env, bids: seq<Bid>, forbidden: set<nat>, globals: seq<nat>, start: Shards,
                             mid: Shards, known: set<nat>)
    requires env.t.AZCount > 0
  {
    && Solo(env, bids, forbidden, mid, known) && bids[0] in start
    && var p := Within(env, bids, forbidden, start);
       if globals == [] then Within(env, bids, forbidden, mid) == p
       else
         GlobalsRecover(env, Members(globals), p) &&
         Within(env, bids, forbidden, mid) == AfterGlobals(env, Members(globals), p)
  }

  lemma GlobalsPart(env: Env, bids: seq<Bid>, forbidden: set<nat>, globals: seq<nat>, start: Shards, known: set<nat>,
                    mid: Shards, asked: set<nat>)
    requires env.t.AZCount > 0 && Solo(env, bids, forbidden, start, known)
    requires if globals == [] then mid == start && asked == known
             else GlobalsOutcome(env, bids, forbidden, Members(globals), start, true, mid, asked)
    ensures GlobalsAre(env, bids, forbidden, globals, start, mid, asked)
    ensures Solo(env, bids, forbidden, mid, asked)
  {
  }

  lemma CodeStops(env: Env, bids: seq<Bid>, forbidden: set<nat>, idxs: seq<nat>, globals: seq<nat>, locals: seq<nat>,
                  start: Shards, after: Shards, known: set<nat>)
    requires env.t.AZCount > 0 && globals != []
    requires Members(globals) == GlobalIds(env, Members(idxs)) && Members(globals) != {}
    requires GlobalsOutcome(env, bids, forbidden, Members(globals), start, false, after, known)
    ensures CodeResult(env, bids, forbidden, idxs, start, false)
  {
    hide GlobalsRecover, LocalsRecover, AfterGlobals;
  }

  lemma CodeEnds(env: Env, bids: seq<Bid>, forbidden: set<nat>, idxs: seq<nat>, globals: seq<nat>, locals: seq<nat>,
                 start: Shards, mid: Shards, asked: set<nat>, ok: bool)
    requires env.t.AZCount > 0 && GlobalsAre(env, bids, forbidden, globals, start, mid, asked)
    requires Members(globals) == GlobalIds(env, Members(idxs)) && Members(locals) == LocalIds(env, Members(idxs))
    requires (globals == [] <==> Members(globals) == {}) && (locals == [] <==> Members(locals) == {})
    requires if locals == [] then ok else LocalsResult(env, bids, forbidden, locals, mid, ok)
    ensures CodeResult(env, bids, forbidden, idxs, start, ok)
  {
    hide GlobalsRecover, LocalsRecover, AfterGlobals;
  }

  // ---- blobs without bytes ----

  ghost predicate NoneSized(env: Env, bids: seq<Bid>) {
    forall b | b in bids :: !Sized(env, b)
  }

  lemma OneUnsized(env: Env, bids: seq<Bid>)
    requires |bids| == 1 && !Sized(env, bids[0])
    ensures NoneSized(env, bids)
  {
  }

  lemma FewerSized(env: Env, bids: seq<Bid>, fail: seq<Bid>)
    requires NoneSized(env, bids) && forall b | b in fail :: b in bids
    ensures NoneSized(env, fail)
  {
  }

  /** Such a blob is whole wherever it has a buffer. */
  lemma EmptyNoFail(env: Env, bids: seq<Bid>, idxs: seq<nat>, bufs: set<nat>, shards: Shards, fail: seq<Bid>)
    requires shards.Keys == env.sizes.Keys && forall b | b in shards :: BidOk(env, bufs, b, shards[b])
    requires NoneSized(env, bids) && forall i | i in idxs :: i in bufs
    requires forall b :: b in fail <==> b in bids && b in shards && !AllOk(shards[b].Keys, idxs)
    ensures fail == []
  {
    var b := if fail == [] then 0 else fail[0];
    assert fail != [] ==> b in fail;
    EmptyAreOk(env, bufs, shards);
  }
}
