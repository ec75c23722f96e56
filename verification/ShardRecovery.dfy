/**
 * Recovery of the shards of a volume by erasure code (the worker's ShardRecover).
 *
 * Soundness: at every step a shard flagged ok holds its true bytes, and a recovery that reports
 * success has every requested shard of every bid.  Completeness: for one repair index recovery
 * succeeds exactly when every bid has enough shards, in spite of the download memory that is
 * kept per replica and not per bid; for one bid and several indexes see also Decodability.
 */
module ShardRecovery {

  import opened Wrappers
  import opened CodeMode
  import opened Counting
  import opened RecoveryModel
  import opened OneBlob

  /** The indexes that lie in one zone. */
  method InZone(env: Env, idxs: seq<nat>, az: nat) returns (bad: seq<nat>)
    requires env.t.AZCount > 0
    ensures forall i :: i in bad <==> i in idxs && env.t.ZoneOf(i) == az
    ensures |idxs| == 1 && env.t.ZoneOf(idxs[0]) == az ==> bad == idxs
  {
    bad := [];
    for k := 0 to |idxs|
      invariant forall i :: i in bad <==> i in idxs[..k] && env.t.ZoneOf(i) == az
      invariant k == 1 && env.t.ZoneOf(idxs[0]) == az ==> bad == idxs[..1]
      invariant k == 0 ==> bad == []
    {
      if env.t.ZoneOf(idxs[k]) == az {
        bad := bad + [idxs[k]];
      }
      assert idxs[..k + 1] == idxs[..k] + [idxs[k]];
    }
    assert idxs[..|idxs|] == idxs;
  }

  class ShardRecover {
    const env: Env
    // the shards flagged ok, and their bytes
    var shards: Shards
    // the chunks that have a buffer, the replicas asked once, the replicas not to be asked
    var bufs: set<nat>
    var downloaded: set<nat>
    var forbidden: set<nat>
    // buffers left in the pool
    var pool: nat

    ghost predicate Valid()
      reads this
    {
      && shards.Keys == env.sizes.Keys
      && downloaded <= bufs
      && (forall i | i in bufs :: i < env.t.Total())
      && (forall b | b in shards :: BidOk(env, bufs, b, shards[b]))
    }

    /** Nothing was asked or stored yet. */
    ghost predicate Untouched()
      reads this
    {
      bufs == {} && downloaded == {} && forall b | b in shards :: shards[b] == map[]
    }

    constructor (env: Env, pool: nat, forbidden: set<nat>)
      requires env.Valid()
      ensures Valid() && Untouched()
      ensures this.env == env && this.pool == pool && this.forbidden == forbidden
    {
      this.env := env;
      this.pool := pool;
      this.forbidden := forbidden;
      shards := map b | b in env.sizes :: map[];
      bufs, downloaded := {}, {};
    }

    method AddBuf(i: nat)
      requires env.Valid() && Valid() && i < env.t.Total() && i !in bufs && pool > 0
      modifies this`bufs, this`pool, this`shards
      ensures Valid()
      ensures bufs == old(bufs) + {i} && pool == old(pool) - 1
      ensures forall b | b in shards && env.sizes[b] > 0 :: shards[b] == old(shards[b])
    {
      hide Env.Valid, BidOk;
      ghost var before := shards;
      pool := pool - 1;
      bufs := bufs + {i};
      shards := map b | b in shards :: if env.sizes[b] == 0 then WithEmpty(shards[b], i) else shards[b];
      forall b | b in shards
        ensures BidOk(env, bufs, b, shards[b])
      {
        AddBufKeeps(env, old(bufs), b, before[b], i);
      }
    }

    /** A buffer for each chunk; bids of size zero are ok in it from the start. */
    method AllocBuf(idxs: seq<nat>) returns (ok: bool)
      requires env.Valid() && Valid() && forall i | i in idxs :: i < env.t.Total()
      modifies this`bufs, this`pool, this`shards
      ensures Valid()
      ensures old(bufs) <= bufs && pool + |bufs| == old(pool + |bufs|)
      ensures ok ==> forall i | i in idxs :: i in bufs
      ensures pool + |bufs| >= env.t.Total() ==> ok
      ensures forall b | b in shards && env.sizes[b] > 0 :: shards[b] == old(shards[b])
    {
      for k := 0 to |idxs|
        invariant Valid()
        invariant old(bufs) <= bufs && pool + |bufs| == old(pool + |bufs|)
        invariant forall j | 0 <= j < k :: idxs[j] in bufs
        invariant forall b | b in shards && env.sizes[b] > 0 :: shards[b] == old(shards[b])
      {
        var i := idxs[k];
        if i !in bufs {
          assert i in idxs;
          BoundedSize(bufs + {i}, env.t.Total());
          if pool == 0 {
            return false;
          }
          AddBuf(i);
        }
      }
      return true;
    }

    /** Asks for one shard; bytes that are there already are kept. */
    method PutShard(i: nat, b: Bid)
      requires env.Valid() && Valid() && i in bufs && i !in forbidden && b in shards
      modifies this`shards
      ensures Valid()
      ensures Gains(old(shards[b].Keys), shards[b].Keys, {i}, env.Avail(b, forbidden))
      ensures shards == old(shards)[b := shards[b]]
    {
      hide Env.Valid;
      var got := env.fetch(i, b);
      FetchIsTrue(env, i, b);
      if got.Some? && i !in shards[b] {
        var kept: map<nat, Bytes> := shards[b];
        shards := shards[b := kept[i := got.value]];
      }
    }

    /** Asks one replica for the bids, unless it was asked before or is not to be asked. */
    method DownloadReplica(bids: seq<Bid>, i: nat)
      requires env.Valid() && Valid() && i in bufs && forall b | b in bids :: b in shards
      modifies this`shards, this`downloaded
      ensures Valid()
      ensures old(downloaded) <= downloaded <= old(downloaded) + {i}
      ensures bids != [] ==> downloaded == old(downloaded) + ({i} - forbidden)
      ensures forall b | b in bids && b in shards ::
        Gains(old(shards[b].Keys), shards[b].Keys, {i} - old(downloaded), env.Avail(b, forbidden))
      ensures forall b | b in shards && b !in bids :: shards[b] == old(shards[b])
    {
      hide Env.Valid, BidOk;
      if i in forbidden || i in downloaded {
        return;
      }
      hide Gains;
      assert {i} - downloaded == {i};
      for k := 0 to |bids|
        invariant Valid()
        invariant old(downloaded) <= downloaded <= old(downloaded) + {i} && (k > 0 ==> i in downloaded)
        invariant forall b | b in bids[..k] :: Gains(old(shards[b].Keys), shards[b].Keys, {i}, env.Avail(b, forbidden))
        invariant forall b | b in shards && b !in bids[..k] :: shards[b] == old(shards[b])
      {
        var b := bids[k];
        ghost var once := shards[b].Keys;
        downloaded := downloaded + {i};
        PutShard(i, b);
        if b in bids[..k] {
          GainsMore(old(shards[b].Keys), once, shards[b].Keys, {i}, {i}, env.Avail(b, forbidden));
          assert {i} + {i} == {i};
        }
        assert bids[..k + 1] == bids[..k] + [b];
      }
      assert bids[..|bids|] == bids;
    }

    /** Asks the replicas for the bids; each one is asked once in the life of the recovery. */
    method Download(bids: seq<Bid>, replicas: seq<nat>)
      requires env.Valid() && Valid() && (forall i | i in replicas :: i in bufs) && forall b | b in bids :: b in shards
      modifies this`shards, this`downloaded
      ensures Valid()
      ensures old(downloaded) <= downloaded <= old(downloaded) + Members(replicas)
      ensures bids != [] ==> Recorded(replicas, forbidden, old(downloaded), downloaded)
      ensures forall b | b in bids && b in shards ::
        Gains(old(shards[b].Keys), shards[b].Keys, Members(replicas) - old(downloaded), env.Avail(b, forbidden))
      ensures forall b | b in shards && b !in bids :: shards[b] == old(shards[b])
    {
      hide Env.Valid, BidOk, Gains, Members, AskedSoFar, Recorded;
      ghost var asked: set<nat>, start := {}, shards;
      AskNone(downloaded, forbidden);
      assert replicas[..0] == [];
      forall b | b in bids
        ensures Gains(start[b].Keys, shards[b].Keys, asked, env.Avail(b, forbidden))
      {
        GainsNothing(start[b].Keys, env.Avail(b, forbidden));
      }
      for k := 0 to |replicas|
        invariant Valid() && old(downloaded) <= downloaded
        invariant AskedSoFar(replicas[..k], old(downloaded), downloaded, asked)
        invariant bids != [] ==> Recorded(replicas[..k], forbidden, old(downloaded), downloaded)
        invariant forall b | b in bids && b in shards ::
          Gains(start[b].Keys, shards[b].Keys, asked, env.Avail(b, forbidden))
        invariant forall b | b in shards && b !in bids :: shards[b] == start[b]
      {
        ghost var known, once := downloaded, shards;
        DownloadReplica(bids, replicas[k]);
        forall b | b in bids
          ensures Gains(start[b].Keys, shards[b].Keys, asked + ({replicas[k]} - known), env.Avail(b, forbidden))
        {
          GainsMore(start[b].Keys, once[b].Keys, shards[b].Keys, asked, {replicas[k]} - known, env.Avail(b, forbidden));
        }
        AskOne(replicas, k, old(downloaded), known, downloaded, asked);
        if bids != [] {
          RecordOne(replicas, k, forbidden, old(downloaded), known, downloaded);
        }
        asked := asked + ({replicas[k]} - known);
      }
      assert replicas[..|replicas|] == replicas;
      AskedAll(replicas, old(downloaded), downloaded, asked);
    }

    /** The shards of a bid in stripe order, and the positions that have none. */
    method Gather(b: Bid, st: Stripe) returns (part: seq<Option<Bytes>>, missing: seq<nat>)
      requires b in shards
      ensures part == Part(st.replicas, shards[b])
      ensures |missing| + CountIn(st.replicas, shards[b].Keys) == |st.replicas|
      ensures forall k :: k in missing <==> 0 <= k < |st.replicas| && st.replicas[k] !in shards[b]
    {
      part, missing := [], [];
      for k := 0 to |st.replicas|
        invariant part == Part(st.replicas[..k], shards[b])
        invariant |missing| + CountIn(st.replicas[..k], shards[b].Keys) == k
        invariant forall j :: j in missing <==> 0 <= j < k && st.replicas[j] !in shards[b]
      {
        var i := st.replicas[k];
        assert st.replicas[..k + 1][..k] == st.replicas[..k];
        if i in shards[b] {
          part := part + [Some(shards[b][i])];
        } else {
          part := part + [None];
          missing := missing + [k];
        }
      }
      assert st.replicas[..|st.replicas|] == st.replicas;
    }

    /** Stores the decoded shards at the positions that had none. */
    method SetShards(b: Bid, st: Stripe, missing: seq<nat>, word: seq<Bytes>)
      requires Valid() && b in shards && env.sizes[b] > 0 && env.IsWord(st, b, word)
      requires forall i | i in st.replicas :: i in bufs
      requires forall k :: k in missing <==> 0 <= k < |st.replicas| && st.replicas[k] !in shards[b]
      modifies this`shards
      ensures Valid()
      ensures shards[b].Keys == old(shards[b].Keys) + Members(st.replicas)
      ensures shards == old(shards)[b := shards[b]]
    {
      var got: map<nat, Bytes> := shards[b];
      assert forall k | 0 <= k < |missing| :: missing[k] in missing;
      for j := 0 to |missing|
        invariant env.True(b, got) && got.Keys <= bufs
        invariant shards[b].Keys <= got.Keys <= shards[b].Keys + Members(st.replicas)
        invariant forall k | 0 <= k < j :: st.replicas[missing[k]] in got
      {
        var k := missing[j];
        got := got[st.replicas[k] := word[k]];
      }
      forall i | i in st.replicas
        ensures i in got
      {
        var k :| 0 <= k < |st.replicas| && st.replicas[k] == i;
        if i !in shards[b] {
          assert k in missing;
        }
      }
      shards := shards[b := got];
    }

    method RepairBid(b: Bid, st: Stripe)
      requires Valid() && env.StripeOk(st) && b in shards
      requires forall i | i in st.replicas :: i in bufs
      modifies this`shards
      ensures Valid()
      ensures Repaired(st, old(shards[b].Keys), shards[b].Keys)
      ensures shards == old(shards)[b := shards[b]]
    {
      var part, missing := Gather(b, st);
      if env.sizes[b] == 0 || |missing| > st.m {
        return;
      }
      if |missing| == 0 {
        CountAll(st.replicas, shards[b].Keys);
        return;
      }
      assert env.Decodes(st, b);
      SetShards(b, st, missing, env.code(st.n, st.m, part));
    }

    /** Decodes every bid that has enough shards of the stripe. */
    method Repair(bids: seq<Bid>, st: Stripe)
      requires Valid() && env.StripeOk(st) && forall b | b in bids :: b in shards
      requires forall i | i in st.replicas :: i in bufs
      modifies this`shards
      ensures Valid()
      ensures forall b | b in bids && b in shards :: Repaired(st, old(shards[b].Keys), shards[b].Keys)
      ensures forall b | b in shards && b !in bids :: shards[b] == old(shards[b])
    {
      hide Env.StripeOk, Repaired, BidOk;
      for k := 0 to |bids|
        invariant Valid()
        invariant forall b | b in bids[..k] && b in shards :: Repaired(st, old(shards[b].Keys), shards[b].Keys)
        invariant forall b | b in shards && b !in bids[..k] :: shards[b] == old(shards[b])
      {
        var b := bids[k];
        ghost var before := shards[b].Keys;
        RepairBid(b, st);
        if b in bids[..k] {
          RepairedTwice(st, old(shards[b].Keys), before, shards[b].Keys);
        }
        assert bids[..k + 1] == bids[..k] + [b];
      }
      assert bids[..|bids|] == bids;
    }

    /** The bids that miss one of the shards. */
    method CollectFailBids(bids: seq<Bid>, idxs: seq<nat>) returns (fail: seq<Bid>)
      requires forall b | b in bids :: b in shards
      ensures forall b :: b in fail <==> b in bids && b in shards && !AllOk(shards[b].Keys, idxs)
      ensures |fail| <= |bids|
    {
      fail := [];
      for k := 0 to |bids|
        invariant forall b :: b in fail <==> b in bids[..k] && b in shards && !AllOk(shards[b].Keys, idxs)
        invariant |fail| <= k
      {
        var b := bids[k];
        var j := 0;
        while j < |idxs| && idxs[j] in shards[b]
          invariant 0 <= j <= |idxs|
          invariant forall i | 0 <= i < j :: idxs[i] in shards[b]
        {
          j := j + 1;
        }
        if j < |idxs| {
          assert idxs[j] in idxs;
          fail := fail + [b];
        }
        assert bids[..k + 1] == bids[..k] + [b];
      }
      assert bids[..|bids|] == bids;
    }

    /** Plans of n replicas each: the first n - 1 well ones and one of the others. */
    method GenDownloadPlans(st: Stripe, bad: seq<nat>) returns (plans: seq<seq<nat>>)
      requires st.n > 0
      ensures IsPlanning(plans, WellOf(env.shuffle(st.replicas), bad), st.n)
    {
      var order := env.shuffle(st.replicas);
      var well := [];
      for k := 0 to |order|
        invariant well == WellOf(order[..k], bad)
      {
        assert order[..k + 1][..k] == order[..k];
        if order[k] !in bad {
          well := well + [order[k]];
        }
      }
      assert order[..|order|] == order;
      plans := [];
      while |plans| < |well| - st.n + 1
        invariant |plans| == 0 || |plans| <= |well| - st.n + 1
        invariant forall j | 0 <= j < |plans| :: plans[j] == well[..st.n - 1] + [well[st.n - 1 + j]]
        decreases |well| - |plans|
      {
        plans := plans + [well[..st.n - 1] + [well[st.n - 1 + |plans|]]];
      }
    }

    /** One plan: download, decode, and see which bids still fail. */
    method RunPlan(bids: seq<Bid>, st: Stripe, bad: seq<nat>, plan: seq<nat>) returns (fail: seq<Bid>)
      requires env.Valid() && Valid() && env.StripeOk(st) && forall b | b in bids :: b in shards
      requires (forall i | i in st.replicas :: i in bufs) && forall i | i in plan :: i in st.replicas
      modifies this`shards, this`downloaded
      ensures Valid()
      ensures old(downloaded) <= downloaded <= old(downloaded) + Members(plan)
      ensures forall b | b in bids && b in shards ::
        PlanRun(st, Members(plan) - old(downloaded), env.Avail(b, forbidden), old(shards[b].Keys), shards[b].Keys)
      ensures forall b | b in shards && b !in bids :: shards[b] == old(shards[b])
      ensures forall b :: b in fail <==> b in bids && b in shards && !AllOk(shards[b].Keys, bad)
    {
      hide Env.Valid, Env.StripeOk, BidOk, Repaired, AllOk, Gains, Members;
      Download(bids, plan);
      ghost var got := shards;
      Repair(bids, st);
      assert forall b | b in bids && b in shards ::
        Gains(old(shards[b].Keys), got[b].Keys, Members(plan) - old(downloaded), env.Avail(b, forbidden));
      fail := CollectFailBids(bids, bad);
    }

    /** Runs plan after plan until no bid fails. */
    method RepairStripe(bids: seq<Bid>, st: Stripe, bad: seq<nat>)
      requires env.Valid() && Valid() && env.StripeOk(st) && forall b | b in bids :: b in shards
      requires (forall i | i in st.replicas :: i in bufs) && forall i | i in bad :: i in st.replicas
      modifies this`shards, this`downloaded
      ensures Valid()
      ensures forall b | b in shards :: old(shards[b].Keys) <= shards[b].Keys
      ensures forall b | b in shards && b !in bids :: shards[b] == old(shards[b])
      ensures forall b | b in bids && b in shards &&
                         CaughtUp(old(shards[b].Keys), old(downloaded), env.Avail(b, forbidden)) ::
        StripeDone(st, bad, env.Avail(b, forbidden), old(shards[b].Keys), shards[b].Keys, downloaded)
      ensures forall b | b in bids && b in shards :: Helped(st, bad, old(shards[b].Keys), shards[b].Keys)
      ensures |bids| == 1 && bids[0] in old(shards) && bids[0] in shards ==>
        CanStep(st, bad, env.Avail(bids[0], forbidden), old(shards)[bids[0]].Keys, old(downloaded)) ==>
          ExactStep(st, Members(bad), env.Avail(bids[0], forbidden), old(shards)[bids[0]].Keys, shards[bids[0]].Keys,
                    downloaded)
    {
      hide Env.Valid, Env.StripeOk, BidOk, PlanRun, Tracked, StripeDone, Helped, CaughtUp, WellOf, Members, AllOk, Well,
           CanStep, ExactStep, AloneSoFar;
      WellOfStripe(env, st, bad);
      var plans := GenDownloadPlans(st, bad);
      ghost var well := WellOf(env.shuffle(st.replicas), bad);
      ghost var start, asked := shards, downloaded;
      var fail := bids;
      ghost var covered: set<nat> := {};
      forall b | b in bids
        ensures Tracked(st, bad, env.Avail(b, forbidden), start[b].Keys, asked, {}, start[b].Keys, asked, false, true)
      {
        TrackedFirst(st, bad, env.Avail(b, forbidden), start[b].Keys, asked);
      }
      assert bids != [] ==> bids[0] in bids;
      ghost var alone := |bids| == 1 && CanStep(st, bad, env.Avail(bids[0], forbidden), start[bids[0]].Keys, asked);
      ghost var done := false;
      ghost var avail := if bids == [] then {} else env.Avail(bids[0], forbidden);
      if alone {
        AloneStart(bids, st, bad, avail, start, asked);
      }
      for k := 0 to |plans|
        invariant Valid()
        invariant covered == Covered(well, st.n, k)
        invariant k == |plans| ==> covered == if Tolerable(st, bad) then Well(st, bad) else {}
        invariant forall b | b in fail :: b in bids
        invariant forall b | b in shards && b !in bids :: shards[b] == start[b]
        invariant forall b | b in bids && b in shards ::
          Tracked(st, bad, env.Avail(b, forbidden), start[b].Keys, asked, covered, shards[b].Keys, downloaded, k > 0,
                  b in fail)
        invariant !done && (alone ==> bids[0] in fail)
        invariant alone ==> AloneSoFar(bids, st, bad, avail, start, asked, covered, shards, downloaded, k > 0)
      {
        ghost var now, known, failed, before := shards, downloaded, fail, covered;
        CoveredNext(plans, well, st.n, k);
        covered := covered + Members(plans[k]);
        PlanInStripe(st, bad, plans[k]);
        fail := RunPlan(fail, st, bad, plans[k]);
        forall b | b in bids
          ensures Tracked(st, bad, env.Avail(b, forbidden), start[b].Keys, asked, covered, shards[b].Keys,
                          downloaded, true, b in fail)
        {
          if b in failed {
            TrackedRound(st, bad, env.Avail(b, forbidden), start[b].Keys, asked, before, now[b].Keys, known, k > 0,
                         Members(plans[k]), shards[b].Keys, downloaded);
          } else {
            TrackedStays(st, bad, env.Avail(b, forbidden), start[b].Keys, asked, before, now[b].Keys, known, k > 0,
                         covered, downloaded);
          }
        }
        if alone {
          AlonePlan(bids, st, bad, avail, start, asked, before, now, known, k > 0, Members(plans[k]), shards,
                    downloaded, fail);
        }
        if fail == [] {
          done := true;
          break;
        }
        assert fail[0] in fail;
      }
      if alone && !done {
        AloneEnd(bids, st, bad, avail, start, asked, covered, shards, downloaded);
      }
      forall b | b in bids
        ensures start[b].Keys <= shards[b].Keys && Helped(st, bad, start[b].Keys, shards[b].Keys)
        ensures CaughtUp(start[b].Keys, asked, env.Avail(b, forbidden)) ==>
          StripeDone(st, bad, env.Avail(b, forbidden), start[b].Keys, shards[b].Keys, downloaded)
      {
        TrackedLast(st, bad, env.Avail(b, forbidden), start[b].Keys, asked, covered, shards[b].Keys, downloaded,
                    b in fail);
      }
    }

    /** Buffers for the stripe, then its repair. */
    method AllocAndRepair(bids: seq<Bid>, st: Stripe, bad: seq<nat>) returns (ok: bool)
      requires env.Valid() && Valid() && env.StripeOk(st) && forall b | b in bids :: b in shards
      requires forall i | i in bad :: i in st.replicas
      modifies this`bufs, this`pool, this`shards, this`downloaded
      ensures Valid() && Grown(old(shards), shards)
      ensures old(bufs) <= bufs && pool + |bufs| == old(pool + |bufs|)
      ensures pool + |bufs| >= env.t.Total() ==> ok
      ensures ok ==> forall i | i in st.replicas :: i in bufs
      ensures ok ==> AllStep(env, bids, forbidden, st, bad, old(shards), old(downloaded), shards, downloaded)
      ensures ok && |bids| == 1 && Sized(env, bids[0]) && bids[0] in old(shards) && bids[0] in shards ==>
        CanStep(st, bad, env.Avail(bids[0], forbidden), old(shards)[bids[0]].Keys, old(downloaded)) ==>
          ExactStep(st, Members(bad), env.Avail(bids[0], forbidden), old(shards)[bids[0]].Keys, shards[bids[0]].Keys,
                    downloaded)
    {
      hide Env.Valid, BidOk, StripeDone, Helped, CaughtUp, Tactic.Total, CanStep, ExactStep, Members;
      assert forall i | i in st.replicas :: i < env.t.Total();
      hide Env.StripeOk;
      ghost var start := shards;
      ok := AllocBuf(st.replicas);
      ghost var mid := shards;
      if ok {
        RepairStripe(bids, st, bad);
      }
      forall b | b in shards
        ensures start[b].Keys <= shards[b].Keys
      {
        if env.sizes[b] == 0 {
          EmptyGrows(env, old(bufs), bufs, b, start[b], shards[b]);
        }
      }
    }

    method RecoverByGlobalStripe(bids: seq<Bid>, idxs: seq<nat>) returns (ok: bool)
      requires env.Valid() && Valid() && forall b | b in bids :: b in shards
      requires forall i | i in idxs :: i < env.t.N + env.t.M
      modifies this`bufs, this`pool, this`shards, this`downloaded
      ensures Valid() && Grown(old(shards), shards)
      ensures old(bufs) <= bufs && pool + |bufs| == old(pool + |bufs|)
      ensures pool + |bufs| >= env.t.Total() ==> ok
      ensures ok ==> forall i | i in env.Global().replicas :: i in bufs
      ensures ok ==>
        AllStep(env, bids, forbidden, env.Global(), idxs, old(shards), old(downloaded), shards, downloaded)
      ensures env.t.AZCount > 0
      ensures ok && Solo(env, bids, forbidden, old(shards), old(downloaded)) &&
              Members(idxs) !! env.Avail(bids[0], forbidden) && !AllOk(old(shards)[bids[0]].Keys, idxs) ==>
                GlobalDone(env, bids, forbidden, Members(idxs), old(shards), shards, downloaded)
    {
      HasZones(env);
      GlobalOk(env, idxs);
      hide Env.Valid, Env.StripeOk, BidOk, AllStep, Members, ExactStep, GlobalDone, AllOk, Grown;
      ghost var start, known := shards, downloaded;
      ok := AllocAndRepair(bids, env.Global(), idxs);
      GrownKeys(start, shards);
      if ok && Solo(env, bids, forbidden, start, known) && Members(idxs) !! env.Avail(bids[0], forbidden) &&
         !AllOk(start[bids[0]].Keys, idxs) {
        SoloCanStep(env, bids, forbidden, start, known, env.Global(), idxs);
        GlobalIsDone(env, bids, forbidden, Members(idxs), start, known, shards, downloaded);
      }
    }

    method RepairZone(bids: seq<Bid>, idxs: seq<nat>, az: nat, ghost start: Shards, ghost zones: set<nat>)
      returns (ok: bool)
      requires env.Valid() && Valid() && env.t.L > 0 && az < env.t.AZCount && forall b | b in bids :: b in shards
      requires forall i | i in idxs :: i < env.t.Total()
      modifies this`bufs, this`pool, this`shards, this`downloaded
      ensures Valid() && Grown(old(shards), shards)
      ensures old(bufs) <= bufs && pool + |bufs| == old(pool + |bufs|)
      ensures pool + |bufs| >= env.t.Total() ==> ok
      ensures ok ==> forall i | i in idxs && env.t.ZoneOf(i) == az :: i in bufs
      ensures |idxs| == 1 && env.t.ZoneOf(idxs[0]) != az ==> shards == old(shards) && downloaded == old(downloaded)
      ensures ok && |idxs| == 1 && env.t.ZoneOf(idxs[0]) == az ==>
        AllStep(env, bids, forbidden, env.HomeStripe(idxs[0]), idxs, old(shards), old(downloaded), shards, downloaded)
      ensures ok && az !in zones && ZonesAt(env, bids, forbidden, idxs, start, zones, old(shards), old(downloaded)) ==>
        ZonesAt(env, bids, forbidden, idxs, start, zones + {az}, shards, downloaded)
    {
      hide Env.Valid, Env.StripeOk, BidOk, AllStep, Tactic.ZoneOf, Tactic.Zone, ZonesAt, CanStep, ExactStep, Members,
           Grown;
      var bad := InZone(env, idxs, az);
      ok := true;
      ghost var before, known := shards, downloaded;
      GrownSame(before);
      if bad != [] {
        assert bad[0] in bad;
        BadInZone(env, az, bad);
        if ZonesAt(env, bids, forbidden, idxs, start, zones, before, known) {
          ZonesCanStep(env, bids, forbidden, idxs, start, zones, before, known, az, bad);
        }
        ok := AllocAndRepair(bids, env.Local(az), bad);
        GrownKeys(before, shards);
        if ok && az !in zones && ZonesAt(env, bids, forbidden, idxs, start, zones, before, known) {
          ZonesNext(env, bids, forbidden, idxs, start, zones, before, known, az, bad, shards, downloaded);
        }
      } else if ZonesAt(env, bids, forbidden, idxs, start, zones, before, known) {
        ZonesSkip(env, bids, forbidden, idxs, start, zones, before, known, az);
      }
    }

    /** Repairs the local stripe of every zone that has one of the indexes. */
    method RecoverByLocalStripe(bids: seq<Bid>, idxs: seq<nat>) returns (ok: bool)
      requires env.Valid() && Valid() && forall b | b in bids :: b in shards
      requires forall i | i in idxs :: i < env.t.Total()
      modifies this`bufs, this`pool, this`shards, this`downloaded
      ensures Valid() && Grown(old(shards), shards)
      ensures old(bufs) <= bufs && pool + |bufs| == old(pool + |bufs|)
      ensures pool + |bufs| >= env.t.Total() ==> ok
      ensures ok && env.t.L > 0 ==> forall i | i in idxs :: i in bufs
      ensures env.t.L == 0 ==> ok && shards == old(shards) && downloaded == old(downloaded)
      ensures ok && env.t.L > 0 && |idxs| == 1 ==>
        AllStep(env, bids, forbidden, env.HomeStripe(idxs[0]), idxs, old(shards), old(downloaded), shards, downloaded)
      ensures env.t.AZCount > 0
      ensures ok && Solo(env, bids, forbidden, old(shards), old(downloaded)) && Members(idxs) <= forbidden ==>
        LocalsDone(env, bids, forbidden, Members(idxs), old(shards), shards, downloaded)
    {
      hide Env.Valid, Env.StripeOk, BidOk, AllStep, Tactic.ZoneOf, Env.HomeStripe, Tactic.SurvivesZone, Tactic.Valid,
           Tactic.Total, Solo, LocalsDone, ZonesAt, Members, Grown;
      ZonesListed(env, idxs);
      ghost var start := shards;
      GrownSame(start);
      ghost var solo := Solo(env, bids, forbidden, shards, downloaded) && Members(idxs) <= forbidden;
      if env.t.L == 0 {
        if solo {
          SameLocals(env, bids, forbidden, Members(idxs), shards, downloaded);
        }
        return true;
      }
      if solo {
        ZonesStart(env, bids, forbidden, idxs, shards, downloaded);
      }
      for k := 0 to |env.zones|
        invariant Valid() && Grown(start, shards)
        invariant old(bufs) <= bufs && pool + |bufs| == old(pool + |bufs|)
        invariant forall i | i in idxs && env.t.ZoneOf(i) in env.zones[..k] :: i in bufs
        invariant solo ==> ZonesAt(env, bids, forbidden, idxs, start, Members(env.zones[..k]), shards, downloaded)
        invariant |idxs| == 1 && env.t.ZoneOf(idxs[0]) !in env.zones[..k] ==>
          shards == start && downloaded == old(downloaded)
        invariant |idxs| == 1 && env.t.ZoneOf(idxs[0]) in env.zones[..k] ==>
          AllStep(env, bids, forbidden, env.HomeStripe(idxs[0]), idxs, start, old(downloaded), shards, downloaded)
      {
        NextListed(env, k);
        ghost var before := shards;
        ok := RepairZone(bids, idxs, env.zones[k], start, Members(env.zones[..k]));
        GrownTwice(start, before, shards);
        if !ok {
          return;
        }
      }
      if solo {
        ZonesEnd(env, bids, forbidden, idxs, start, Members(env.zones), shards, downloaded);
      }
      return true;
    }

    /** The local stripes, and the bids that fail after them. */
    method TryLocal(idxs: seq<nat>, bids: seq<Bid>) returns (ok: bool, fail: seq<Bid>)
      requires env.Valid() && Valid() && forall b | b in bids :: b in shards
      requires forall i | i in idxs :: i < env.t.Total()
      modifies this`bufs, this`pool, this`shards, this`downloaded
      ensures Valid() && Grown(old(shards), shards)
      ensures pool + |bufs| == old(pool + |bufs|)
      ensures pool + |bufs| >= env.t.Total() ==> ok
      ensures forall b :: b in fail <==> b in bids && b in shards && !AllOk(shards[b].Keys, idxs)
      ensures ok && |idxs| == 1 && Ready(env, bids, forbidden, idxs[0], old(shards), old(downloaded)) ==>
        && FailedAll(env, fail, forbidden, idxs[0], old(shards), shards, downloaded)
        && (AllEnough(env, bids, forbidden, idxs[0], old(shards)) <==>
            AllEnough(env, fail, forbidden, idxs[0], old(shards)))
      ensures env.t.AZCount > 0
      ensures ok && env.t.L > 0 && NoneSized(env, bids) ==> fail == []
      ensures ok && Solo(env, bids, forbidden, old(shards), old(downloaded)) && Members(idxs) <= forbidden ==>
        LocalsAfter(env, bids, forbidden, idxs, old(shards), shards, downloaded, fail)
    {
      hide NoneSized, LocalsAfter, LocalsDone, Solo, Members, Env.Valid, Env.StripeOk, BidOk, AllStep, Ready,
           FailedAll, MidAll, AllEnough, Env.Global, Span, Grown, Tactic.ZoneOf, Tactic.Total, Tactic.SurvivesZone,
           Env.HomeStripe, ZoneGlobals, AllOk;
      HasZones(env);
      assert |idxs| == 1 ==> idxs[0] in idxs;
      ghost var start, known := shards, downloaded;
      ghost var solo := Solo(env, bids, forbidden, shards, downloaded) && Members(idxs) <= forbidden;
      ok := RecoverByLocalStripe(bids, idxs);
      fail := CollectFailBids(bids, idxs);
      if ok && env.t.L > 0 && NoneSized(env, bids) {
        EmptyNoFail(env, bids, idxs, bufs, shards, fail);
      }
      if ok && solo {
        LocalsFail(env, bids, forbidden, idxs, start, shards, downloaded, fail);
      }
      if ok && |idxs| == 1 && Ready(env, bids, forbidden, idxs[0], start, known) {
        LocalOutcome(env, bids, fail, forbidden, idxs, start, known, shards, downloaded);
      }
    }

    /** The global stripe, and the bids that fail after it. */
    method TryGlobal(idxs: seq<nat>, bids: seq<Bid>, ghost start: Shards) returns (ok: bool)
      requires env.Valid() && Valid() && start.Keys == shards.Keys && forall b | b in bids :: b in shards
      requires forall i | i in idxs :: i < env.t.N + env.t.M
      modifies this`bufs, this`pool, this`shards, this`downloaded
      ensures Valid() && Grown(old(shards), shards)
      ensures pool + |bufs| == old(pool + |bufs|)
      ensures ok ==> forall b | b in bids && b in shards :: AllOk(shards[b].Keys, idxs)
      ensures |idxs| == 1 && pool + |bufs| >= env.t.Total() &&
              FailedAll(env, bids, forbidden, idxs[0], start, old(shards), old(downloaded)) ==>
                (ok <==> AllEnough(env, bids, forbidden, idxs[0], start))
      ensures env.t.AZCount > 0
      ensures pool + |bufs| >= env.t.Total() && NoneSized(env, bids) ==> ok
      ensures pool + |bufs| >= env.t.Total() &&
              LocalsFailed(env, bids, forbidden, idxs, start, old(shards), old(downloaded)) ==>
                GlobalsOutcome(env, bids, forbidden, Members(idxs), start, ok, shards, downloaded)
    {
      hide NoneSized, LocalsFailed, GlobalsOutcome, GlobalDone, Solo, Members,
           Env.Valid, Env.StripeOk, BidOk, AllStep, Ready, FailedAll, MidAll, AllEnough, Env.Global, Span, Grown,
           Tactic.ZoneOf, Tactic.Total, Tactic.SurvivesZone, Env.HomeStripe, ZoneGlobals, AllOk;
      HasZones(env);
      BelowTotal(env, idxs);
      assert |idxs| == 1 ==> idxs[0] in idxs;
      ghost var mid, asked := shards, downloaded;
      ghost var solo := LocalsFailed(env, bids, forbidden, idxs, start, shards, downloaded);
      if solo {
        FailedFacts(env, bids, forbidden, idxs, start, shards, downloaded);
      }
      ok := RecoverByGlobalStripe(bids, idxs);
      if !ok {
        return;
      }
      var fail := CollectFailBids(bids, idxs);
      if NoneSized(env, bids) {
        GlobalInBufs(env, idxs, bufs);
        EmptyNoFail(env, bids, idxs, bufs, shards, fail);
      }
      ok := fail == [];
      if solo {
        GlobalFail(env, bids, forbidden, idxs, start, mid, asked, shards, downloaded, fail);
      }
      if |idxs| == 1 && FailedAll(env, bids, forbidden, idxs[0], start, mid, asked) {
        EmptyAreOk(env, bufs, shards);
        GlobalInBufs(env, idxs, bufs);
        GlobalOutcome(env, bids, fail, forbidden, idxs, start, mid, asked, shards, downloaded);
      }
    }

    /** Shards of the global stripe: by the local stripe, and if that fails by the global one. */
    method RecoverGlobalReplicaShards(idxs: seq<nat>, bids: seq<Bid>) returns (ok: bool)
      requires env.Valid() && Valid() && forall b | b in bids :: b in shards
      requires forall i | i in idxs :: i < env.t.N + env.t.M
      modifies this`bufs, this`pool, this`shards, this`downloaded
      ensures Valid() && Grown(old(shards), shards)
      ensures pool + |bufs| == old(pool + |bufs|)
      ensures ok ==> forall b | b in bids && b in shards :: AllOk(shards[b].Keys, idxs)
      ensures |idxs| == 1 && pool + |bufs| >= env.t.Total() &&
              Ready(env, bids, forbidden, idxs[0], old(shards), old(downloaded)) ==>
                (ok <==> AllEnough(env, bids, forbidden, idxs[0], old(shards)))
      ensures env.t.AZCount > 0
      ensures pool + |bufs| >= env.t.Total() && NoneSized(env, bids) ==> ok
      ensures pool + |bufs| >= env.t.Total() && Solo(env, bids, forbidden, old(shards), old(downloaded)) &&
              Members(idxs) <= forbidden ==>
                GlobalsOutcome(env, bids, forbidden, Members(idxs), old(shards), ok, shards, downloaded)
    {
      hide NoneSized, LocalsAfter, LocalsFailed, GlobalsOutcome, Solo, Members,
           Env.Valid, Env.StripeOk, BidOk, AllStep, Ready, FailedAll, MidAll, AllEnough, Env.Global, Span, Grown,
           Tactic.ZoneOf, Tactic.Total, Tactic.SurvivesZone, Env.HomeStripe, ZoneGlobals, AllOk;
      HasZones(env);
      BelowTotal(env, idxs);
      ghost var solo := Solo(env, bids, forbidden, shards, downloaded) && Members(idxs) <= forbidden;
      assert |idxs| == 1 ==> idxs[0] in idxs;
      ghost var start := shards;
      var fail: seq<Bid>;
      ok, fail := TryLocal(idxs, bids);
      if !ok {
        return;
      }
      if fail == [] {
        if |idxs| == 1 {
          NoneFails(env, forbidden, idxs[0], start);
        }
        if solo {
          AfterNoFail(env, bids, forbidden, idxs, start, shards, downloaded, fail);
        }
        return true;
      }
      ghost var mid := shards;
      if NoneSized(env, bids) {
        FewerSized(env, bids, fail);
      }
      if solo {
        AfterFail(env, bids, forbidden, idxs, start, shards, downloaded, fail);
      }
      ok := TryGlobal(idxs, fail, start);
      GrownTwice(start, mid, shards);
      if ok {
        AllOkGrows(bids, fail, idxs, mid, shards);
      }
    }

    /** The data and parity indexes of the zones of some indexes. */
    method GlobalsOf(idxs: seq<nat>) returns (globals: seq<nat>)
      requires env.Valid() && env.t.L > 0 && forall i | i in idxs :: i < env.t.Total()
      ensures forall g | g in globals :: g < env.t.N + env.t.M
      ensures forall g :: g in globals <==> exists i :: i in idxs && g in ZoneGlobals(env, i)
    {
      EnvFacts(env);
      hide Env.Valid, Env.StripeOk;
      globals := [];
      for k := 0 to |env.zones|
        invariant forall g | g in globals :: g < env.t.N + env.t.M
        invariant forall g :: g in globals <==>
                    exists i :: i in idxs && env.t.ZoneOf(i) in env.zones[..k] && g in ZoneGlobals(env, i)
      {
        assert env.zones[..k + 1] == env.zones[..k] + [env.zones[k]];
        var bad := InZone(env, idxs, env.zones[k]);
        if bad != [] {
          assert bad[0] in bad;
          ZoneGlobalsAreFew(env, bad[0], []);
          var st := env.Local(env.zones[k]);
          globals := globals + st.replicas[..st.n];
        }
      }
      assert env.zones[..|env.zones|] == env.zones;
      forall i | i in idxs
        ensures env.t.ZoneOf(i) in env.zones
      {
        ZonesPartition(env.t, 0, i);
      }
    }

    /** Those of the indexes that some bid misses. */
    method MissedBy(bids: seq<Bid>, globals: seq<nat>) returns (bad: seq<nat>)
      requires forall b | b in bids :: b in shards
      ensures forall g :: g in bad <==> g in globals && exists b :: b in bids && b in shards && g !in shards[b]
    {
      bad := [];
      for j := 0 to |globals|
        invariant forall g :: g in bad <==> g in globals[..j] && exists b :: b in bids && b in shards && g !in shards[b]
      {
        var g := globals[j];
        var k := 0;
        while k < |bids| && g in shards[bids[k]]
          invariant 0 <= k <= |bids| && forall b | b in bids[..k] :: g in shards[b]
        {
          k := k + 1;
        }
        if k < |bids| && g !in bad {
          bad := bad + [g];
        }
        assert globals[..j + 1] == globals[..j] + [g];
        assert bids[..|bids|] == bids;
      }
      assert globals[..|globals|] == globals;
    }

    /** The local stripes again, once the global shards of the zones were repaired. */
    method TryLocalAgain(idxs: seq<nat>, bids: seq<Bid>, ghost start: Shards, ghost mid: Shards, ghost asked: set<nat>)
      returns (ok: bool)
      requires env.Valid() && Valid() && env.t.L > 0 && start.Keys == mid.Keys == shards.Keys
      requires (forall b | b in bids :: b in shards) && forall i | i in idxs :: i < env.t.Total()
      modifies this`bufs, this`pool, this`shards, this`downloaded
      ensures Valid() && Grown(old(shards), shards)
      ensures pool + |bufs| == old(pool + |bufs|)
      ensures ok ==> forall b | b in bids && b in shards :: AllOk(shards[b].Keys, idxs)
      ensures |idxs| == 1 && pool + |bufs| >= env.t.Total() &&
              FailedAll(env, bids, forbidden, idxs[0], start, mid, asked) &&
              MidAll(env, bids, forbidden, idxs[0], start, old(shards), old(downloaded)) ==>
                (ok <==> AllEnough(env, bids, forbidden, idxs[0], start))
      ensures env.t.AZCount > 0
      ensures pool + |bufs| >= env.t.Total() && Solo(env, bids, forbidden, old(shards), old(downloaded)) &&
              Members(idxs) <= forbidden ==>
                AgainDone(env, bids, forbidden, idxs, old(shards), shards, downloaded, ok)
    {
      hide Solo, LocalsDone, AgainDone, Members,
           Env.Valid, Env.StripeOk, BidOk, AllStep, Ready, FailedAll, MidAll, AllEnough, Env.Global, Span, Grown,
           Tactic.ZoneOf, Tactic.Total, Tactic.SurvivesZone, Env.HomeStripe, ZoneGlobals, AllOk;
      HasZones(env);
      assert |idxs| == 1 ==> idxs[0] in idxs;
      ghost var next, asked' := shards, downloaded;
      ghost var solo := Solo(env, bids, forbidden, shards, downloaded) && Members(idxs) <= forbidden;
      ok := RecoverByLocalStripe(bids, idxs);
      if !ok {
        return;
      }
      var fail := CollectFailBids(bids, idxs);
      ok := fail == [];
      if solo {
        AgainIs(env, bids, forbidden, idxs, next, shards, downloaded, fail);
      }
      if |idxs| == 1 && FailedAll(env, bids, forbidden, idxs[0], start, mid, asked) &&
         MidAll(env, bids, forbidden, idxs[0], start, next, asked') {
        EmptyAreOk(env, bufs, shards);
        AgainOutcome(env, bids, fail, forbidden, idxs, start, mid, asked, next, asked', shards, downloaded);
      }
    }

    /** Repairs by the global stripe the global shards of the zones that some bid misses. */
    method RepairZoneGlobals(idxs: seq<nat>, bids: seq<Bid>, ghost start: Shards) returns (ok: bool)
      requires env.Valid() && Valid() && env.t.L > 0 && start.Keys == shards.Keys
      requires (forall b | b in bids :: b in shards) && forall i | i in idxs :: i < env.t.Total()
      modifies this`bufs, this`pool, this`shards, this`downloaded
      ensures Valid() && Grown(old(shards), shards)
      ensures pool + |bufs| == old(pool + |bufs|)
      ensures pool + |bufs| >= env.t.Total() ==> ok
      ensures ok && |idxs| == 1 && FailedAll(env, bids, forbidden, idxs[0], start, old(shards), old(downloaded)) ==>
        MidAll(env, bids, forbidden, idxs[0], start, shards, downloaded)
      ensures env.t.AZCount > 0
      ensures ok && AllParity(env, idxs) &&
              LocalsFailed(env, bids, forbidden, idxs, start, old(shards), old(downloaded)) ==>
                LackingRepaired(env, bids, forbidden, idxs, old(shards), shards, downloaded)
    {
      hide Solo, LocalsFailed, GlobalDone, LackingRepaired, Members,
           Env.Valid, Env.StripeOk, BidOk, AllStep, Ready, FailedAll, MidAll, AllEnough, Env.Global, Span, Grown,
           Tactic.ZoneOf, Tactic.Total, Tactic.SurvivesZone, Env.HomeStripe, ZoneGlobals, AllOk;
      HasZones(env);
      assert |idxs| == 1 ==> idxs[0] in idxs;
      ghost var mid, asked := shards, downloaded;
      var globals := GlobalsOf(idxs);
      var bad := MissedBy(bids, globals);
      ghost var solo := AllParity(env, idxs) && LocalsFailed(env, bids, forbidden, idxs, start, shards, downloaded);
      if solo {
        LackingCanStep(env, bids, forbidden, idxs, start, shards, downloaded, globals, bad);
      }
      ok := RecoverByGlobalStripe(bids, bad);
      if ok && solo {
        LackingIsRepaired(env, bids, forbidden, idxs, mid, bad, shards, downloaded);
      }
      if ok && |idxs| == 1 && FailedAll(env, bids, forbidden, idxs[0], start, mid, asked) {
        MidOutcome(env, bids, forbidden, idxs[0], globals, bad, start, mid, asked, shards, downloaded);
      }
    }

    /** Repairs the global shards of the zones by the global stripe, then the local stripes again. */
    method RecoverThroughGlobal(idxs: seq<nat>, bids: seq<Bid>, ghost start: Shards) returns (ok: bool)
      requires env.Valid() && Valid() && env.t.L > 0 && start.Keys == shards.Keys
      requires (forall b | b in bids :: b in shards) && forall i | i in idxs :: i < env.t.Total()
      modifies this`bufs, this`pool, this`shards, this`downloaded
      ensures Valid() && Grown(old(shards), shards)
      ensures pool + |bufs| == old(pool + |bufs|)
      ensures ok ==> forall b | b in bids && b in shards :: AllOk(shards[b].Keys, idxs)
      ensures |idxs| == 1 && pool + |bufs| >= env.t.Total() &&
              FailedAll(env, bids, forbidden, idxs[0], start, old(shards), old(downloaded)) ==>
                (ok <==> AllEnough(env, bids, forbidden, idxs[0], start))
      ensures env.t.AZCount > 0
      ensures pool + |bufs| >= env.t.Total() && AllParity(env, idxs) &&
              LocalsFailed(env, bids, forbidden, idxs, start, old(shards), old(downloaded)) ==>
                LocalsResult(env, bids, forbidden, idxs, start, ok)
    {
      hide Solo, LocalsFailed, LackingRepaired, AgainDone, LocalsResult, Members,
           Env.Valid, Env.StripeOk, BidOk, AllStep, Ready, FailedAll, MidAll, AllEnough, Env.Global, Span, Grown,
           Tactic.ZoneOf, Tactic.Total, Tactic.SurvivesZone, Env.HomeStripe, ZoneGlobals, AllOk;
      HasZones(env);
      assert |idxs| == 1 ==> idxs[0] in idxs;
      ghost var mid, asked := shards, downloaded;
      ghost var solo := AllParity(env, idxs) && LocalsFailed(env, bids, forbidden, idxs, start, shards, downloaded);
      ok := RepairZoneGlobals(idxs, bids, start);
      if !ok {
        return;
      }
      ghost var next, asked' := shards, downloaded;
      if solo {
        RepairedFacts(env, bids, forbidden, idxs, start, mid, asked, next, asked');
      }
      ok := TryLocalAgain(idxs, bids, start, mid, asked);
      if solo && pool + |bufs| >= env.t.Total() {
        ThroughGlobal(env, bids, forbidden, idxs, start, mid, asked, next, asked', shards, downloaded, ok);
      }
      GrownTwice(mid, next, shards);
    }

    /** Local parity: by the local stripe; if that fails, through the global shards of its zone. */
    method RecoverLocalReplicaShards(idxs: seq<nat>, bids: seq<Bid>) returns (ok: bool)
      requires env.Valid() && Valid() && env.t.L > 0 && forall b | b in bids :: b in shards
      requires forall i | i in idxs :: i < env.t.Total()
      modifies this`bufs, this`pool, this`shards, this`downloaded
      ensures Valid() && Grown(old(shards), shards)
      ensures pool + |bufs| == old(pool + |bufs|)
      ensures ok ==> forall b | b in bids && b in shards :: AllOk(shards[b].Keys, idxs)
      ensures |idxs| == 1 && pool + |bufs| >= env.t.Total() &&
              Ready(env, bids, forbidden, idxs[0], old(shards), old(downloaded)) ==>
                (ok <==> AllEnough(env, bids, forbidden, idxs[0], old(shards)))
      ensures env.t.AZCount > 0
      ensures pool + |bufs| >= env.t.Total() && NoneSized(env, bids) ==> ok
      ensures pool + |bufs| >= env.t.Total() && AllParity(env, idxs) && Members(idxs) <= forbidden &&
              Solo(env, bids, forbidden, old(shards), old(downloaded)) ==>
                LocalsResult(env, bids, forbidden, idxs, old(shards), ok)
    {
      hide NoneSized, Solo, LocalsFailed, LocalsAfter, GlobalsOutcome, LocalsResult, Members,
           Env.Valid, Env.StripeOk, BidOk, AllStep, Ready, FailedAll, MidAll, AllEnough, Env.Global, Span, Grown,
           Tactic.ZoneOf, Tactic.Total, Tactic.SurvivesZone, Env.HomeStripe, ZoneGlobals, AllOk;
      HasZones(env);
      assert |idxs| == 1 ==> idxs[0] in idxs;
      ghost var start := shards;
      ghost var solo :=
        AllParity(env, idxs) && Members(idxs) <= forbidden && Solo(env, bids, forbidden, shards, downloaded);
      var fail: seq<Bid>;
      ok, fail := TryLocal(idxs, bids);
      if !ok {
        return;
      }
      if fail == [] {
        if |idxs| == 1 {
          NoneFails(env, forbidden, idxs[0], start);
        }
        if solo {
          ResultNow(env, bids, forbidden, idxs, start, shards, downloaded, fail);
        }
        return true;
      }
      ghost var mid := shards;
      if NoneSized(env, bids) {
        FewerSized(env, bids, fail);
      }
      if solo {
        AfterFail(env, bids, forbidden, idxs, start, shards, downloaded, fail);
      }
      ok := RecoverThroughGlobal(idxs, fail, start);
      GrownTwice(start, mid, shards);
      if ok {
        AllOkGrows(bids, fail, idxs, mid, shards);
      }
    }

    /** Asks for the shards themselves. */
    method DirectGetShard(bids: seq<Bid>, idxs: seq<nat>) returns (ok: bool, fail: seq<Bid>)
      requires env.Valid() && Valid() && forall b | b in bids :: b in shards
      requires forall i | i in idxs :: i < env.t.Total()
      modifies this`bufs, this`pool, this`shards, this`downloaded
      ensures Valid() && Grown(old(shards), shards)
      ensures pool + |bufs| == old(pool + |bufs|)
      ensures pool + |bufs| >= env.t.Total() ==> ok
      ensures forall b :: b in fail <==> b in bids && b in shards && !AllOk(shards[b].Keys, idxs)
      ensures ok ==> downloaded <= old(downloaded) + Members(idxs)
      ensures ok ==> forall b | b in bids && b in shards && Sized(env, b) ::
        Gains(old(shards[b].Keys), shards[b].Keys, Members(idxs) - old(downloaded), env.Avail(b, forbidden))
    {
      hide Env.Valid, BidOk, AllOk, Tactic.Total, Gains, Members;
      ghost var start := shards;
      ok := AllocBuf(idxs);
      if ok {
        Download(bids, idxs);
      }
      fail := CollectFailBids(bids, idxs);
      forall b | b in shards
        ensures start[b].Keys <= shards[b].Keys
      {
        if env.sizes[b] == 0 {
          EmptyGrows(env, old(bufs), bufs, b, start[b], shards[b]);
        } else if ok && b in bids {
          GainsGrows(start[b].Keys, shards[b].Keys, Members(idxs) - old(downloaded), env.Avail(b, forbidden));
        }
      }
    }

    /** The indexes of global shards and those of local parity. */
    method SplitIdxs(idxs: seq<nat>) returns (globals: seq<nat>, locals: seq<nat>)
      requires env.Valid() && forall i | i in idxs :: i < env.t.Total()
      ensures forall i :: i in globals <==> i in idxs && i < env.t.N + env.t.M
      ensures forall i :: i in locals <==> i in idxs && i >= env.t.N + env.t.M
      ensures |idxs| == 1 ==> (globals == idxs && locals == []) || (globals == [] && locals == idxs)
    {
      HasZones(env);
      hide Env.Valid, Env.IsLocal;
      globals, locals := [], [];
      for k := 0 to |idxs|
        invariant forall i :: i in globals <==> i in idxs[..k] && i < env.t.N + env.t.M
        invariant forall i :: i in locals <==> i in idxs[..k] && i >= env.t.N + env.t.M
        invariant k == 0 ==> globals == [] && locals == []
        invariant k == 1 ==> (globals == idxs[..1] && locals == []) || (globals == [] && locals == idxs[..1])
      {
        assert idxs[k] in idxs;
        LocalIsParity(env, idxs[k]);
        if env.IsLocal(idxs[k]) {
          locals := locals + [idxs[k]];
        } else {
          globals := globals + [idxs[k]];
        }
        assert idxs[..k + 1] == idxs[..k] + [idxs[k]];
      }
      assert idxs[..|idxs|] == idxs;
    }

    /** Recovery by erasure code of shards that are not to be asked for. */
    method RecoverByCode(idxs: seq<nat>, bids: seq<Bid>) returns (ok: bool)
      requires env.Valid() && Valid() && forall b | b in bids :: b in shards
      requires forall i | i in idxs :: i < env.t.Total()
      modifies this`bufs, this`pool, this`shards, this`downloaded
      ensures Valid() && Grown(old(shards), shards)
      ensures pool + |bufs| == old(pool + |bufs|)
      ensures ok ==> forall b | b in bids && b in shards :: AllOk(shards[b].Keys, idxs)
      ensures |idxs| == 1 && pool + |bufs| >= env.t.Total() &&
              Ready(env, bids, forbidden, idxs[0], old(shards), old(downloaded)) ==>
                (ok <==> AllEnough(env, bids, forbidden, idxs[0], old(shards)))
      ensures env.t.AZCount > 0
      ensures pool + |bufs| >= env.t.Total() && NoneSized(env, bids) ==> ok
      ensures pool + |bufs| >= env.t.Total() && Members(idxs) <= forbidden &&
              Solo(env, bids, forbidden, old(shards), old(downloaded)) ==>
                CodeResult(env, bids, forbidden, idxs, old(shards), ok)
    {
      hide NoneSized, Solo, GlobalsOutcome, LocalsResult, CodeResult, AllParity, Members,
           Env.Valid, Env.StripeOk, BidOk, AllStep, Ready, FailedAll, MidAll, AllEnough, Env.Global, Span, Grown,
           Tactic.ZoneOf, Tactic.Total, Tactic.SurvivesZone, Env.HomeStripe, ZoneGlobals, AllOk;
      HasZones(env);
      assert |idxs| == 1 ==> idxs[0] in idxs;
      ghost var start := shards;
      GrownSame(start);
      ghost var known := downloaded;
      ghost var solo := Members(idxs) <= forbidden && Solo(env, bids, forbidden, shards, downloaded);
      var globals, locals := SplitIdxs(idxs);
      SplitFacts(env, forbidden, idxs, globals, locals);
      ok := true;
      if globals != [] {
        ok := RecoverGlobalReplicaShards(globals, bids);
        if !ok {
          if solo && pool + |bufs| >= env.t.Total() {
            CodeStops(env, bids, forbidden, idxs, globals, locals, start, shards, downloaded);
          }
          return;
        }
      }
      ghost var mid, asked := shards, downloaded;
      if solo && pool + |bufs| >= env.t.Total() {
        GlobalsPart(env, bids, forbidden, globals, start, known, mid, asked);
      }
      if locals != [] {
        assert locals[0] in locals;
        LocalMeansParity(env, locals[0]);
        ok := RecoverLocalReplicaShards(locals, bids);
        GrownTwice(start, mid, shards);
      }
      if solo && pool + |bufs| >= env.t.Total() {
        CodeEnds(env, bids, forbidden, idxs, globals, locals, start, mid, asked, ok);
      }
      if ok {
        forall b | b in bids
          ensures AllOk(mid[b].Keys, []) && AllOk(shards[b].Keys, [])
        {
          NothingIsOk(mid[b].Keys);
          NothingIsOk(shards[b].Keys);
        }
        BothAreOk(bids, idxs, globals, locals, mid, shards);
      }
    }

    /** The direct requests, if wanted, and the bids that are left. */
    method Begin(idxs: seq<nat>, direct: bool) returns (ok: bool, bids: seq<Bid>)
      requires env.Valid() && Valid() && forall i | i in idxs :: i < env.t.Total()
      modifies this`bufs, this`pool, this`shards, this`downloaded
      ensures Valid() && Grown(old(shards), shards)
      ensures pool + |bufs| == old(pool + |bufs|)
      ensures pool + |bufs| >= env.t.Total() ==> ok
      ensures forall b | b in bids :: b in shards
      ensures !direct ==> ok && bids == env.bids && shards == old(shards) && downloaded == old(downloaded)
      ensures ok ==> forall b | b in shards :: b in bids || AllOk(shards[b].Keys, idxs)
      ensures ok && |idxs| == 1 && old(Untouched()) ==>
        && Ready(env, bids, forbidden + Members(idxs), idxs[0], shards, downloaded)
        && (AllEnough(env, bids, forbidden + Members(idxs), idxs[0], shards) <==>
            AllRecoverable(env, idxs[0], direct, forbidden))
    {
      hide Env.Valid, Env.StripeOk, BidOk, AllStep, Ready, FailedAll, MidAll, AllEnough, Env.Global, Span, Grown,
           Tactic.ZoneOf, Tactic.Total, Tactic.SurvivesZone, Env.HomeStripe, ZoneGlobals, AllOk,
           AllRecoverable, Members, Gains;
      HasZones(env);
      assert |idxs| == 1 ==> idxs[0] in idxs;
      ghost var start := shards;
      GrownSame(start);
      BidsAreKeys(env);
      ok, bids := true, env.bids;
      if direct {
        ok, bids := DirectGetShard(bids, idxs);
      }
      if ok && |idxs| == 1 && old(Untouched()) {
        DirectOutcome(env, bids, idxs, direct, forbidden, start, shards, downloaded);
      }
    }

    /** Recovers the given shards of all bids, asking for them directly first if wanted. */
    method RecoverShards(idxs: seq<nat>, direct: bool) returns (ok: bool)
      requires env.Valid() && Valid() && forall i | i in idxs :: i < env.t.Total()
      modifies this
      ensures Valid() && Grown(old(shards), shards)
      ensures ok ==> forall b | b in shards :: AllOk(shards[b].Keys, idxs)
      ensures |idxs| == 1 && old(Untouched()) && old(pool) >= env.t.Total() ==>
        (ok <==> AllRecoverable(env, idxs[0], direct, old(forbidden)))
      ensures env.t.AZCount > 0
      ensures |env.bids| == 1 && !direct && old(Untouched()) && old(pool) >= env.t.Total() ==>
        (ok <==> !Sized(env, env.bids[0]) ||
                 CodeRecovers(env, Members(idxs), env.Avail(env.bids[0], old(forbidden) + Members(idxs))))
    {
      hide NoneSized, Sized, Solo, CodeResult, CodeRecovers,
           Env.Valid, Env.StripeOk, BidOk, AllStep, Ready, FailedAll, MidAll, AllEnough, Env.Global, Span, Grown,
           Tactic.ZoneOf, Tactic.Total, Tactic.SurvivesZone, Env.HomeStripe, ZoneGlobals, AllOk,
           AllRecoverable, Members, Gains;
      HasZones(env);
      assert |idxs| == 1 ==> idxs[0] in idxs;
      ghost var start := shards;
      var bids: seq<Bid>;
      ok, bids := Begin(idxs, direct);
      ghost var mid := shards;
      if !ok {
        return;
      }
      if direct && bids == [] {
        if |idxs| == 1 {
          NoneFails(env, forbidden + Members(idxs), idxs[0], mid);
        }
        return;
      }
      forbidden := forbidden + Members(idxs);
      ghost var solo := |bids| == 1 && Sized(env, bids[0]) && !direct && old(Untouched());
      if solo {
        StartsSolo(env, bids, forbidden, shards);
      }
      if |bids| == 1 && !Sized(env, bids[0]) {
        OneUnsized(env, bids);
      }
      ok := RecoverByCode(idxs, bids);
      if solo && old(pool) >= env.t.Total() {
        CodeResultIs(env, bids, forbidden, idxs, mid, ok);
      }
      GrownTwice(start, mid, shards);
      OkStays(bids, idxs, mid, shards);
    }

    /** A shard handed out after recovery. */
    method GetShard(i: nat, b: Bid) returns (r: Result<Bytes>)
      requires env.Valid() && Valid() && i in bufs
      ensures b in shards && i in shards[b] ==> r == Ok(env.truth(i, b))
      ensures b !in shards || i !in shards[b] ==> r.Err?
    {
      if b !in shards {
        return Err("bid not found in buf");
      }
      if i !in shards[b] {
        return Err("shard data not prepared");
      }
      assert BidOk(env, bufs, b, shards[b]);
      return Ok(shards[b][i]);
    }
  }
}
