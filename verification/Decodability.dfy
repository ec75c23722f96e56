/**
 * What the stripes of a code determine, and on which of it recovery gives up.  Recovery fills the
 * local stripes only of zones with a requested shard, and it tells the global stripe of all the data
 * and parity shards that were asked for, also of those that a local stripe has brought back before.
 */
module Decodability {

  import opened Wrappers
  import opened CodeMode
  import opened Counting
  import opened RecoveryModel
  import opened OneBlob
  import opened ShardRecovery

  // ---- what can be decoded ----

  ghost predicate ZoneFull(env: Env, az: nat, p: set<nat>)
    requires env.t.AZCount > 0
  {
    CountIn(env.Local(az).replicas, p) >= env.Local(az).n
  }

  /** No stripe, the global one or any local one, decodes to a shard that is not there already. */
  ghost predicate Closed(env: Env, s: set<nat>)
    requires env.t.AZCount > 0
  {
    && (CountIn(env.Global().replicas, s) >= env.t.N ==> Members(env.Global().replicas) <= s)
    && (env.t.L > 0 ==>
          forall az: nat | az < env.t.AZCount && ZoneFull(env, az, s) :: Members(env.Local(az).replicas) <= s)
  }

  /** Decoding stripes, any of them, in any order and as often as wanted, leads from p to ids. */
  ghost predicate Decodable(env: Env, ids: set<nat>, p: set<nat>)
    requires env.t.AZCount > 0
  {
    forall s: set<nat> | p <= s && Closed(env, s) :: ids <= s
  }

  /** What there is after the local stripes of all zones. */
  ghost function AllLocals(env: Env, p: set<nat>): set<nat>
    requires env.t.AZCount > 0
  {
    if env.t.L == 0 then p else p + set i: nat | i < env.t.Total() && ZoneFull(env, env.t.ZoneOf(i), p)
  }

  lemma GlobalsDecodeAll(env: Env, s: set<nat>, i: nat)
    requires env.Valid() && env.t.AZCount > 0 && Closed(env, s) && CountIn(env.Global().replicas, s) >= env.t.N
    requires i < env.t.Total()
    ensures i in s
  {
    if i < env.t.N + env.t.M {
      GlobalMembers(env, i);
    } else {
      ZonesPartition(env.t, 0, i);
      AllGlobalsSuffice(env, i, s);
      assert ZoneFull(env, env.t.ZoneOf(i), s);
      ZoneMembers(env, env.t.ZoneOf(i), i);
    }
  }

  lemma LocalsStayWithin(env: Env, p: set<nat>, s: set<nat>)
    requires env.Valid() && env.t.AZCount > 0 && Closed(env, s) && p <= s
    ensures AllLocals(env, p) <= s
  {
    hide CountIn, Env.Local, Tactic.ZoneOf, Tactic.Total, Env.Valid;
    forall i | i in AllLocals(env, p) && i !in p
      ensures i in s
    {
      var az := env.t.ZoneOf(i);
      ZoneOfIndex(env, i);
      CountMonotone(env.Local(az).replicas, p, s);
      assert ZoneFull(env, az, s);
    }
  }

  lemma ZoneOfIndex(env: Env, i: nat)
    requires env.Valid() && env.t.AZCount > 0 && i < env.t.Total()
    ensures env.t.ZoneOf(i) < env.t.AZCount && i in Members(env.Local(env.t.ZoneOf(i)).replicas)
  {
    ZonesPartition(env.t, 0, i);
    ZoneMembers(env, env.t.ZoneOf(i), i);
  }

  lemma AllLocalsFillsZones(env: Env, p: set<nat>, az: nat)
    requires env.Valid() && env.t.AZCount > 0 && env.t.L > 0 && az < env.t.AZCount
    requires ZoneFull(env, az, AllLocals(env, p))
    ensures Members(env.Local(az).replicas) <= AllLocals(env, p)
  {
    hide CountIn, Env.Local, Tactic.ZoneOf, Tactic.Total, Env.Valid;
    forall i | i in env.Local(az).replicas
      ensures i < env.t.Total() && env.t.ZoneOf(i) == az
    {
      assert i in Members(env.Local(az).replicas);
      ZoneMembers(env, az, i);
    }
    if !ZoneFull(env, az, p) {
      CountSame(env.Local(az).replicas, AllLocals(env, p), p);
    }
  }

  /** So the local stripes come first, each once, and then the global one. */
  lemma DecodableIs(env: Env, ids: set<nat>, p: set<nat>)
    requires env.Valid() && env.t.AZCount > 0 && forall i | i in ids :: i < env.t.Total()
    ensures Decodable(env, ids, p) <==>
      ids <= AllLocals(env, p) || CountIn(env.Global().replicas, AllLocals(env, p)) >= env.t.N
  {
    hide Env.Valid, Env.Global, CountIn, ZoneFull, Env.Local, Tactic.Total, Tactic.ZoneOf;
    var q := AllLocals(env, p);
    if CountIn(env.Global().replicas, q) >= env.t.N {
      forall s: set<nat> | p <= s && Closed(env, s)
        ensures ids <= s
      {
        LocalsStayWithin(env, p, s);
        CountMonotone(env.Global().replicas, q, s);
        forall i | i in ids
          ensures i in s
        {
          GlobalsDecodeAll(env, s, i);
        }
      }
    } else {
      AllLocalsIsClosed(env, p);
      forall s: set<nat> | p <= s && Closed(env, s)
        ensures q <= s
      {
        LocalsStayWithin(env, p, s);
      }
    }
  }

  lemma AllLocalsIsClosed(env: Env, p: set<nat>)
    requires env.Valid() && env.t.AZCount > 0 && CountIn(env.Global().replicas, AllLocals(env, p)) < env.t.N
    ensures Closed(env, AllLocals(env, p)) && p <= AllLocals(env, p)
  {
    forall az: nat | env.t.L > 0 && az < env.t.AZCount && ZoneFull(env, az, AllLocals(env, p))
      ensures Members(env.Local(az).replicas) <= AllLocals(env, p)
    {
      AllLocalsFillsZones(env, p, az);
    }
  }

  /** n shards of a stripe that agree for two blobs' bytes make the whole stripe agree. */
  lemma StripeAgrees(env: Env, env': Env, b: Bid, st: Stripe, same: set<nat>, i: nat)
    requires env.Decodes(st, b) && env'.Decodes(st, b) && env'.code == env.code && i in st.replicas
    requires (forall j | j in same :: env'.truth(j, b) == env.truth(j, b)) && CountIn(st.replicas, same) >= st.n
    ensures env'.truth(i, b) == env.truth(i, b)
  {
    var got := map j | j in same :: env.truth(j, b);
    assert env.True(b, got) && env'.True(b, got) && got.Keys == same;
    var k :| 0 <= k < |st.replicas| && st.replicas[k] == i;
    hide CountIn, Part;
  }

  /** What is decodable from some shards is determined by them: whatever the blob, with the same bytes
      there it has the same bytes here. */
  lemma DecodableIsDetermined(env: Env, env': Env, b: Bid, ids: set<nat>, p: set<nat>)
    requires env.Valid() && env'.Valid() && env'.t == env.t && env'.code == env.code && Sized(env, b) && Sized(env', b)
    requires env.t.AZCount > 0 && Decodable(env, ids, p) && forall i | i in p :: env'.truth(i, b) == env.truth(i, b)
    ensures forall i | i in ids :: env'.truth(i, b) == env.truth(i, b)
  {
    var same := p + set i: nat | i < env.t.Total() && env'.truth(i, b) == env.truth(i, b);
    assert env.Decodes(env.Global(), b) && env'.Decodes(env.Global(), b);
    hide CountIn, Env.Decodes, Tactic.Total, Tactic.Zone;
    forall i | CountIn(env.Global().replicas, same) >= env.t.N && i in env.Global().replicas
      ensures i in same
    {
      StripeAgrees(env, env', b, env.Global(), same, i);
    }
    forall az: nat | env.t.L > 0 && az < env.t.AZCount && ZoneFull(env, az, same)
      ensures Members(env.Local(az).replicas) <= same
    {
      assert env.StripeOk(env.Local(az)) && env'.StripeOk(env'.Local(az)) && env'.Local(az) == env.Local(az);
      forall i | i in env.Local(az).replicas
        ensures i in same
      {
        StripeAgrees(env, env', b, env.Local(az), same, i);
      }
    }
    assert Closed(env, same);
  }

  // ---- recovery brings nothing else ----

  lemma SomeOfAllLocals(env: Env, ids: set<nat>, p: set<nat>)
    requires env.t.AZCount > 0
    ensures p <= AfterLocals(env, ids, p) <= AllLocals(env, p)
  {
    hide CountIn, Env.Local, Tactic.Total, Tactic.ZoneOf, HasIdx;
  }

  lemma GlobalsStayWithin(env: Env, g: set<nat>, p: set<nat>, s: set<nat>)
    requires env.Valid() && env.t.AZCount > 0 && Closed(env, s) && p <= s && (forall i | i in g :: i < env.t.Total())
    requires GlobalsRecover(env, g, p)
    ensures g <= s && AfterGlobals(env, g, p) <= s
  {
    hide Env.Valid, Env.Global, CountIn, AfterLocals, Closed, Tactic.Total;
    StepStaysWithin(env, g, p, s);
    GlobalStripe(env);
    if !(g <= AfterLocals(env, g, p)) {
      AllWithin(env, AfterLocals(env, g, p), s);
    }
  }

  lemma ParityStaysWithin(env: Env, l: set<nat>, p: set<nat>, s: set<nat>)
    requires env.Valid() && env.t.AZCount > 0 && Closed(env, s) && p <= s && (forall i | i in l :: i < env.t.Total())
    requires LocalsRecover(env, l, p)
    ensures l <= s
  {
    hide Env.Valid, Env.Global, CountIn, AfterLocals, Closed, Tactic.Total, Lacking;
    StepStaysWithin(env, l, p, s);
    GlobalStripe(env);
    if !(l <= AfterLocals(env, l, p)) {
      AllWithin(env, AfterLocals(env, l, p), s);
    }
  }

  /** Whatever is recovered can be decoded. */
  lemma RecoveredIsDecodable(env: Env, ids: set<nat>, avail: set<nat>)
    requires env.Valid() && env.t.AZCount > 0 && (forall i | i in ids :: i < env.t.Total())
    requires CodeRecovers(env, ids, avail)
    ensures Decodable(env, ids, avail)
  {
    hide Env.Valid, GlobalsRecover, LocalsRecover, AfterGlobals, Closed, Tactic.Total;
    var g, l := GlobalIds(env, ids), LocalIds(env, ids);
    forall s: set<nat> | avail <= s && Closed(env, s)
      ensures ids <= s
    {
      if g != {} {
        GlobalsStayWithin(env, g, avail, s);
      }
      if l != {} {
        ParityStaysWithin(env, l, if g == {} then avail else AfterGlobals(env, g, avail), s);
      }
      assert ids == g + l;
    }
  }

  lemma StepStaysWithin(env: Env, ids: set<nat>, p: set<nat>, s: set<nat>)
    requires env.Valid() && env.t.AZCount > 0 && Closed(env, s)
    ensures p <= s ==> AfterLocals(env, ids, p) <= s
  {
    hide AfterLocals, AllLocals, Closed, Env.Valid;
    if p <= s {
      SomeOfAllLocals(env, ids, p);
      LocalsStayWithin(env, p, s);
    }
  }

  lemma AllWithin(env: Env, q: set<nat>, s: set<nat>)
    requires env.Valid() && env.t.AZCount > 0 && Closed(env, s) && q <= s
    requires CountIn(env.Global().replicas, q) >= env.t.N
    ensures forall i: nat | i < env.t.Total() :: i in s
    ensures Members(env.Global().replicas) <= s
  {
    hide Env.Valid, CountIn, Env.Global;
    CountMonotone(env.Global().replicas, q, s);
    assert Members(env.Global().replicas) <= s;
    hide Closed;
    forall i: nat | i < env.t.Total()
      ensures i in s
    {
      GlobalsDecodeAll(env, s, i);
    }
  }

  lemma GlobalStripe(env: Env)
    ensures env.Global().n == env.t.N && env.Global().m == env.t.M && |env.Global().replicas| == env.t.N + env.t.M
  {
  }

  // ---- sizes of zones ----

  predicate IsGlobal(env: Env, i: nat) { i < env.t.N + env.t.M }

  ghost function Globals(env: Env): set<nat> {
    set i: nat | i < env.t.N + env.t.M && IsGlobal(env, i)
  }

  ghost function ZoneData(env: Env, az: nat): set<nat>
    requires env.t.AZCount > 0
  {
    set i: nat | i < env.t.N + env.t.M && env.t.ZoneOf(i) == az
  }

  ghost function ZoneParity(env: Env, az: nat): set<nat>
    requires env.t.AZCount > 0
  {
    set i: nat | env.t.N + env.t.M <= i < env.t.Total() && env.t.ZoneOf(i) == az
  }

  lemma MeetsOne(x: set<nat>, front: set<nat>, last: nat)
    requires last !in front
    ensures |x * (front + {last})| == |x * front| + if last in x then 1 else 0
  {
    assert x * (front + {last}) == x * front + if last in x then {last} else {};
  }

  lemma FrontMembers(s: seq<nat>)
    requires Distinct(s) && s != []
    ensures var n := |s| - 1; Distinct(s[..n]) && s[n] !in Members(s[..n]) && Members(s) == Members(s[..n]) + {s[n]}
  {
    assert s == s[..|s| - 1] + [s[|s| - 1]];
  }

  lemma {:induction false} CountMeets(s: seq<nat>, x: set<nat>)
    requires Distinct(s)
    ensures CountIn(s, x) == |x * Members(s)|
  {
    if s == [] {
      assert x * Members(s) == {};
    } else {
      var n := |s| - 1;
      FrontMembers(s);
      hide Members, Distinct;
      CountMeets(s[..n], x);
      MeetsOne(x, Members(s[..n]), s[n]);
    }
  }

  lemma GlobalCount(env: Env, p: set<nat>)
    ensures CountIn(env.Global().replicas, p) == |p * Globals(env)|
    ensures |Globals(env)| == env.t.N + env.t.M
  {
    forall i
      ensures i in Members(env.Global().replicas) <==> i in Globals(env)
    {
      if i >= 0 {
        GlobalMembers(env, i);
      }
    }
    assert Members(env.Global().replicas) == Globals(env);
    CountMeets(env.Global().replicas, p);
    DistinctSize(env.Global().replicas);
  }

  lemma ZoneCount(env: Env, az: nat, p: set<nat>)
    requires env.Valid() && env.t.AZCount > 0 && az < env.t.AZCount
    ensures CountIn(env.Local(az).replicas, p) == |p * ZoneData(env, az)| + |p * ZoneParity(env, az)|
    ensures |ZoneData(env, az)| == env.t.ZoneN() + env.t.ZoneM() == env.Local(az).n > 0
    ensures |ZoneParity(env, az)| == env.t.ZoneL()
  {
    ZoneIsSimple(env.t, az);
    ZonesPartition(env.t, az, 0);
    var zone, n := env.t.Zone(az), env.t.ZoneN() + env.t.ZoneM();
    hide Tactic.Zone, Tactic.ZoneOf, Tactic.ZoneN, Tactic.ZoneM, Tactic.ZoneL;
    ZoneFront(env, az, zone, n);
    assert zone == zone[..n] + zone[n..];
    CountConcat(zone[..n], zone[n..], p);
    CountMeets(zone[..n], p);
    CountMeets(zone[n..], p);
    DistinctSize(zone[..n]);
    DistinctSize(zone[n..]);
  }

  lemma ZoneFront(env: Env, az: nat, zone: seq<nat>, n: nat)
    requires env.Valid() && env.t.AZCount > 0 && az < env.t.AZCount && zone == env.t.Zone(az) && n <= |zone|
    requires forall i | 0 <= i < |zone| :: zone[i] < env.t.N + env.t.M <==> i < n
    ensures Members(zone[..n]) == ZoneData(env, az) && Members(zone[n..]) == ZoneParity(env, az)
  {
    forall i: nat
      ensures i in zone <==> i < env.t.Total() && env.t.ZoneOf(i) == az
    {
      ZoneMembers(env, az, i);
      assert i in Members(env.Local(az).replicas) <==> i in zone;
    }
    hide Tactic.Zone, Tactic.ZoneOf, Env.Valid;
    forall i: nat
      ensures i in zone[..n] <==> i in ZoneData(env, az)
      ensures i in zone[n..] <==> i in ZoneParity(env, az)
    {
      if i in zone {
        var k :| 0 <= k < |zone| && zone[k] == i;
        assert k < n ==> zone[..n][k] == i;
        assert k >= n ==> zone[n..][k - n] == i;
      }
    }
  }

  // ---- when recovery brings all that can be decoded ----

  /** All shards but the requested ones. */
  ghost function Others(env: Env, ids: set<nat>): set<nat> {
    set i: nat | i < env.t.Total() && i !in ids
  }

  /** The indexes whose zones recovery starts with. */
  ghost function First(env: Env, ids: set<nat>): set<nat> {
    if GlobalIds(env, ids) == {} then ids else GlobalIds(env, ids)
  }

  /** The local parity of a zone that is not requested. */
  ghost function Spare(env: Env, ids: set<nat>, az: nat): set<nat>
    requires env.t.AZCount > 0
  {
    ZoneParity(env, az) - ids
  }

  /** The local stripe of the zone is never needed: it has no parity to fill in with, or else enough
      data and parity of the zone has to be there for the global stripe. */
  ghost predicate Idle(env: Env, ids: set<nat>, az: nat)
    requires env.t.AZCount > 0
  {
    Spare(env, ids, az) == {} || env.t.ZoneN() + env.t.ZoneM() >= env.t.N + |Spare(env, ids, az)|
  }

  ghost predicate OthersIdle(env: Env, ids: set<nat>)
    requires env.t.AZCount > 0
  {
    forall az: nat | az < env.t.AZCount && !HasIdx(env, First(env, ids), az) :: Idle(env, ids, az)
  }

  /** Either all zones that recovery passes over are idle, and no more data and parity shards are
      requested than the global stripe can do without; or the global stripe never has enough. */
  ghost predicate NeverGivesUp(env: Env, ids: set<nat>)
    requires env.t.AZCount > 0
  {
    || ids == {}
    || CountIn(env.Global().replicas, AllLocals(env, Others(env, ids))) < env.t.N
    || (CountIn(env.Global().replicas, GlobalIds(env, ids)) <= env.t.M && OthersIdle(env, ids))
  }

  lemma {:induction false} CountApart(s: seq<nat>, x: set<nat>, y: set<nat>)
    requires x !! y
    ensures CountIn(s, x) + CountIn(s, y) <= |s|
  {
    if s != [] {
      CountApart(s[..|s| - 1], x, y);
    }
  }

  /** A zone with a requested shard and enough available ones is filled. */
  lemma FullIsFilled(env: Env, ids: set<nat>, p: set<nat>, i: nat)
    requires env.Valid() && env.t.AZCount > 0 && env.t.L > 0 && i < env.t.Total() && HasIdx(env, ids, env.t.ZoneOf(i))
    requires ZoneFull(env, env.t.ZoneOf(i), p)
    requires ids !! p || forall j | j in ids :: j >= env.t.N + env.t.M
    ensures i in AfterLocals(env, ids, p)
  {
    var az := env.t.ZoneOf(i);
    ZonesPartition(env.t, 0, i);
    EnvFacts(env);
    hide CountIn;
    if ids !! p {
      CountApart(env.Local(az).replicas, ids, p);
    } else {
      LocalsAreTolerable(env, ids, az);
    }
    assert ZoneFills(env, ids, az, p);
  }

  /** Requested shards that the local stripes determine are recovered. */
  lemma LocalsAreRecovered(env: Env, ids: set<nat>, avail: set<nat>)
    requires env.Valid() && env.t.AZCount > 0 && avail <= Others(env, ids) && ids <= AllLocals(env, avail)
    requires forall i | i in ids :: i < env.t.Total()
    ensures CodeRecovers(env, ids, avail)
  {
    var g, l := GlobalIds(env, ids), LocalIds(env, ids);
    hide Env.Valid, AfterLocals, Fills, CountIn, Env.Global, ZoneFull, HasIdx, Tactic.Total, Tactic.ZoneOf;
    forall i | i in g
      ensures i in AfterLocals(env, g, avail)
    {
      HasItself(env, g, i);
      FullIsFilled(env, g, avail, i);
    }
    SomeOfAllLocals(env, g, avail);
    var r := if g == {} then avail else AfterGlobals(env, g, avail);
    forall i | i in l
      ensures i in AfterLocals(env, l, r)
    {
      HasItself(env, l, i);
      StaysFull(env, env.t.ZoneOf(i), avail, r);
      FullIsFilled(env, l, r, i);
    }
  }

  lemma HasItself(env: Env, ids: set<nat>, i: nat)
    requires env.t.AZCount > 0 && i in ids
    ensures HasIdx(env, ids, env.t.ZoneOf(i))
  {
  }

  lemma StaysFull(env: Env, az: nat, p: set<nat>, p': set<nat>)
    requires env.t.AZCount > 0 && p <= p' && ZoneFull(env, az, p)
    ensures ZoneFull(env, az, p')
  {
    CountMonotone(env.Local(az).replicas, p, p');
  }

  /** An idle zone that is full without all its data and parity has enough for the global stripe. */
  lemma IdleIsEnough(env: Env, ids: set<nat>, avail: set<nat>, az: nat, i: nat)
    requires env.Valid() && env.t.AZCount > 0 && az < env.t.AZCount && avail <= Others(env, ids)
    requires Idle(env, ids, az) && ZoneFull(env, az, avail) && i in ZoneData(env, az) && i !in avail
    ensures CountIn(env.Global().replicas, avail) >= env.t.N
  {
    ZoneCount(env, az, avail);
    GlobalCount(env, avail);
    hide CountIn, Env.Valid, Env.Global, Tactic.ZoneOf, Tactic.Total, Tactic.ZoneN, Tactic.ZoneM, Env.Local;
    SubsetSize(avail * ZoneData(env, az), ZoneData(env, az) - {i});
    SubsetSize(avail * ZoneParity(env, az), Spare(env, ids, az));
    SubsetSize(avail * ZoneData(env, az), avail * Globals(env));
  }

  /** Then passing over the other zones does not matter to the global stripe. */
  lemma FirstZonesSuffice(env: Env, ids: set<nat>, avail: set<nat>)
    requires env.Valid() && env.t.AZCount > 0 && avail <= Others(env, ids) && OthersIdle(env, ids)
    requires CountIn(env.Global().replicas, AllLocals(env, avail)) >= env.t.N
    ensures CountIn(env.Global().replicas, AfterLocals(env, First(env, ids), avail)) >= env.t.N
  {
    hide CountIn, Env.Valid, Env.Global, Tactic.ZoneOf, Tactic.Total, ZoneFull, HasIdx, Idle, AfterLocals, First;
    var first := First(env, ids);
    var q := AfterLocals(env, first, avail);
    SomeOfAllLocals(env, first, avail);
    if i :| i in env.Global().replicas && i in AllLocals(env, avail) && i !in q {
      MissedIsIdle(env, ids, avail, i);
      CountMonotone(env.Global().replicas, avail, q);
    } else {
      CountMonotone(env.Global().replicas, AllLocals(env, avail), q);
    }
  }

  lemma MissedIsIdle(env: Env, ids: set<nat>, avail: set<nat>, i: nat)
    requires env.Valid() && env.t.AZCount > 0 && avail <= Others(env, ids) && OthersIdle(env, ids)
    requires i in env.Global().replicas && i in AllLocals(env, avail) && i !in AfterLocals(env, First(env, ids), avail)
    ensures CountIn(env.Global().replicas, avail) >= env.t.N
  {
    GlobalMembers(env, i);
    ZonesPartition(env.t, 0, i);
    SomeOfAllLocals(env, First(env, ids), avail);
    hide CountIn, Env.Valid, Tactic.ZoneOf, ZoneFull, HasIdx, Idle, AfterLocals;
    if HasIdx(env, First(env, ids), env.t.ZoneOf(i)) {
      FullIsFilled(env, First(env, ids), avail, i);
    }
    assert i in ZoneData(env, env.t.ZoneOf(i));
    IdleIsEnough(env, ids, avail, env.t.ZoneOf(i), i);
  }

  /** With enough for the global stripe local parity comes back. */
  lemma EnoughForParity(env: Env, ids: set<nat>, p: set<nat>)
    requires env.t.AZCount > 0 && CountIn(env.Global().replicas, AfterLocals(env, ids, p)) >= env.t.N
    ensures LocalsRecover(env, ids, p)
  {
    hide AfterLocals, CountIn;
    var q := AfterLocals(env, ids, p);
    CountApart(env.Global().replicas, Lacking(env, ids, q), q);
  }

  lemma OnlyParity(env: Env, ids: set<nat>)
    requires GlobalIds(env, ids) == {}
    ensures LocalIds(env, ids) == ids
  {
    forall i | i in ids
      ensures i in LocalIds(env, ids)
    {
      assert i !in GlobalIds(env, ids);
    }
  }

  /** With enough for the global stripe after the first zones, and few enough requested, all comes back. */
  lemma EnoughForAll(env: Env, ids: set<nat>, avail: set<nat>)
    requires env.t.AZCount > 0 && CountIn(env.Global().replicas, GlobalIds(env, ids)) <= env.t.M
    requires CountIn(env.Global().replicas, AfterLocals(env, First(env, ids), avail)) >= env.t.N
    ensures CodeRecovers(env, ids, avail)
  {
    hide AfterLocals, CountIn, Env.Global, LocalsRecover;
    GlobalStripe(env);
    var g, l := GlobalIds(env, ids), LocalIds(env, ids);
    if g == {} {
      OnlyParity(env, ids);
      EnoughForParity(env, l, avail);
    } else {
      var r := AfterGlobals(env, g, avail);
      SomeOfAllLocals(env, l, r);
      CountMonotone(env.Global().replicas, AfterLocals(env, g, avail), AfterLocals(env, l, r));
      EnoughForParity(env, l, r);
    }
  }

  /** A request that meets the condition is recovered if it can be decoded. */
  lemma DecodesWhatItCan(env: Env, ids: set<nat>, avail: set<nat>)
    requires env.Valid() && env.t.AZCount > 0 && NeverGivesUp(env, ids) && avail <= Others(env, ids)
    requires (forall i | i in ids :: i < env.t.Total()) && Decodable(env, ids, avail)
    ensures CodeRecovers(env, ids, avail)
  {
    hide Env.Valid, CountIn, Env.Global, AllLocals, Others, OthersIdle, Decodable, CodeRecovers, GlobalIds,
         Tactic.Total;
    DecodableIs(env, ids, avail);
    if ids <= AllLocals(env, avail) {
      LocalsAreRecovered(env, ids, avail);
    } else {
      AllLocalsGrows(env, avail, Others(env, ids));
      CountMonotone(env.Global().replicas, AllLocals(env, avail), AllLocals(env, Others(env, ids)));
      FirstZonesSuffice(env, ids, avail);
      EnoughForAll(env, ids, avail);
    }
  }

  lemma AllLocalsGrows(env: Env, p: set<nat>, p': set<nat>)
    requires env.t.AZCount > 0 && p <= p'
    ensures AllLocals(env, p) <= AllLocals(env, p')
  {
    hide ZoneFull, Tactic.ZoneOf, Tactic.Total;
    forall i | i in AllLocals(env, p) && i !in p
      ensures i in AllLocals(env, p')
    {
      StaysFull(env, env.t.ZoneOf(i), p, p');
    }
  }

  // ---- too many requested ----

  /** With the shards of one zone missing too, the other zones fill as before. */
  ghost function Outside(env: Env, ids: set<nat>, az: nat): set<nat>
    requires env.t.AZCount > 0
  {
    set i: nat | i in Others(env, ids) && env.t.ZoneOf(i) != az
  }

  lemma OtherZoneFills(env: Env, ids: set<nat>, g: set<nat>, az: nat, other: nat)
    requires env.Valid() && az < env.t.AZCount && other < env.t.AZCount && other != az
    ensures ZoneFills(env, g, other, Outside(env, ids, az)) <==> ZoneFills(env, g, other, Others(env, ids))
  {
    hide CountIn, Env.Valid, Env.Local, Tactic.ZoneOf, Tactic.Total, HasIdx;
    forall i | i in env.Local(other).replicas
      ensures i in Outside(env, ids, az) <==> i in Others(env, ids)
    {
      ZoneMembers(env, other, i);
      assert i in Members(env.Local(other).replicas);
    }
    CountSame(env.Local(other).replicas, Outside(env, ids, az), Others(env, ids));
  }

  lemma ThisZoneFails(env: Env, ids: set<nat>, g: set<nat>, az: nat)
    requires env.Valid() && env.t.L > 0 && az < env.t.AZCount
    ensures !ZoneFills(env, g, az, Outside(env, ids, az))
  {
    assert env.Local(az).n > 0;
    hide CountIn, Env.Valid, Env.Local, Tactic.ZoneOf, Tactic.Total, HasIdx;
    forall i | i in env.Local(az).replicas
      ensures i !in Outside(env, ids, az)
    {
      ZoneMembers(env, az, i);
      assert i in Members(env.Local(az).replicas);
    }
    CountNone(env.Local(az).replicas, Outside(env, ids, az));
  }

  /** When the local stripes bring all requested shards back, then without one zone those of all
      other zones, and enough for the global stripe. */
  lemma WithoutZone(env: Env, ids: set<nat>, g: set<nat>, i: nat)
    requires env.Valid() && env.t.L > 0 && g == GlobalIds(env, ids) && i in g
    requires g <= AfterLocals(env, g, Others(env, ids))
    ensures i !in AfterLocals(env, g, Outside(env, ids, env.t.ZoneOf(i)))
    ensures CountIn(env.Global().replicas, AfterLocals(env, g, Outside(env, ids, env.t.ZoneOf(i)))) >= env.t.N
  {
    var az := env.t.ZoneOf(i);
    ZonesPartition(env.t, 0, i);
    ThisZoneFails(env, ids, g, az);
    var q := AfterLocals(env, g, Outside(env, ids, az));
    var zone := Members(ZoneGlobals(env, i));
    forall j | j in env.Global().replicas && j !in zone
      ensures j in q
    {
      OutsideIsThere(env, ids, g, i, j);
    }
    hide CountIn, AfterLocals, Outside, Env.Valid, Tactic.ZoneOf;
    EnoughOutside(env, i, q);
  }

  lemma OutsideIsThere(env: Env, ids: set<nat>, g: set<nat>, i: nat, j: nat)
    requires env.Valid() && env.t.L > 0 && g == GlobalIds(env, ids) && i in g
    requires g <= AfterLocals(env, g, Others(env, ids))
    requires j in env.Global().replicas && j !in ZoneGlobals(env, i)
    ensures j in AfterLocals(env, g, Outside(env, ids, env.t.ZoneOf(i)))
  {
    hide ZoneFills, CountIn;
    GlobalMembers(env, j);
    ZonesPartition(env.t, 0, i);
    ZonesPartition(env.t, 0, j);
    InZoneGlobals(env, i, j);
    if j in ids {
      assert j in g;
      OtherZoneFills(env, ids, g, env.t.ZoneOf(i), env.t.ZoneOf(j));
    }
  }

  lemma EnoughOutside(env: Env, i: nat, q: set<nat>)
    requires env.Valid() && env.t.L > 0 && i < env.t.Total()
    requires forall j | j in env.Global().replicas && j !in Members(ZoneGlobals(env, i)) :: j in q
    ensures CountIn(env.Global().replicas, q) >= env.t.N
  {
    ZoneGlobalsAreFew(env, i, ZoneGlobals(env, i));
    hide CountIn, Env.Valid, ZoneGlobals;
    GlobalStripe(env);
    CountCover(env.Global().replicas, q, Members(ZoneGlobals(env, i)));
  }

  lemma {:induction false} CountCover(s: seq<nat>, x: set<nat>, y: set<nat>)
    requires forall i | i in s :: i in x || i in y
    ensures CountIn(s, x) + CountIn(s, y) >= |s|
  {
    if s != [] {
      CountCover(s[..|s| - 1], x, y);
    }
  }

  lemma SomeAreLost(env: Env, g: set<nat>)
    requires CountIn(env.Global().replicas, g) > env.t.M
    ensures g != {}
  {
    if g == {} {
      CountNone(env.Global().replicas, g);
    }
  }

  lemma GlobalsAreLost(env: Env, ids: set<nat>, avail: set<nat>)
    requires env.t.AZCount > 0 && CountIn(env.Global().replicas, GlobalIds(env, ids)) > env.t.M
    requires !(GlobalIds(env, ids) <= AfterLocals(env, GlobalIds(env, ids), avail))
    ensures !CodeRecovers(env, ids, avail)
  {
    SomeAreLost(env, GlobalIds(env, ids));
  }

  /** More data and parity shards are requested than the global stripe can do without. */
  lemma TooManyGivesUp(env: Env, ids: set<nat>) returns (avail: set<nat>)
    requires env.Valid() && env.t.AZCount > 0 && forall i | i in ids :: i < env.t.Total()
    requires CountIn(env.Global().replicas, AllLocals(env, Others(env, ids))) >= env.t.N
    requires CountIn(env.Global().replicas, GlobalIds(env, ids)) > env.t.M
    ensures avail <= Others(env, ids) && Decodable(env, ids, avail) && !CodeRecovers(env, ids, avail)
  {
    var g := GlobalIds(env, ids);
    SomeAreLost(env, g);
    var i :| i in g;
    avail := Others(env, ids);
    if g <= AfterLocals(env, g, avail) {
      SomethingFills(env, ids, i);
      avail := Outside(env, ids, env.t.ZoneOf(i));
      WithoutZone(env, ids, g, i);
      SomeOfAllLocals(env, g, avail);
      CountMonotone(env.Global().replicas, AfterLocals(env, g, avail), AllLocals(env, avail));
    }
    hide CountIn, AllLocals, AfterLocals, Others, Outside, Decodable, CodeRecovers, Env.Valid;
    DecodableIs(env, ids, avail);
    GlobalsAreLost(env, ids, avail);
  }

  lemma SomethingFills(env: Env, ids: set<nat>, i: nat)
    requires env.t.AZCount > 0 && i in GlobalIds(env, ids)
    requires i in AfterLocals(env, GlobalIds(env, ids), Others(env, ids))
    ensures env.t.L > 0
  {
  }

  // ---- a zone passed over that is needed ----

  lemma {:induction false} Pick(s: set<nat>, k: nat) returns (t: set<nat>)
    requires k <= |s|
    ensures t <= s && |t| == k
  {
    t := {};
    if k > 0 {
      var x :| x in s;
      t := Pick(s - {x}, k - 1);
      t := t + {x};
    }
  }

  /**
   * Of zone az, which recovery passes over, just enough for its local stripe, with data as few as
   * can be; of other data and parity as many more as the global stripe needs, without the hole.
   */
  ghost predicate Tight(env: Env, ids: set<nat>, az: nat, x: set<nat>, y: set<nat>, w: set<nat>, hole: set<nat>)
    requires env.t.AZCount > 0
  {
    && az < env.t.AZCount && !HasIdx(env, First(env, ids), az)
    && x <= ZoneData(env, az) && y <= Spare(env, ids, az) && |x| + |y| == |ZoneData(env, az)|
    && w <= Globals(env) - ZoneData(env, az) - hole && |w| + |ZoneData(env, az)| >= env.t.N > |x| + |w|
    && GlobalIds(env, ids) <= hole && hole != {}
    && (GlobalIds(env, ids) == {} ==> exists i: nat, j: nat :: InHole(env, ids, hole, i, j))
  }

  ghost predicate InHole(env: Env, ids: set<nat>, hole: set<nat>, i: nat, j: nat)
    requires env.t.AZCount > 0
  {
    i in ids && j in hole && j in ZoneData(env, env.t.ZoneOf(i))
  }

  lemma PickTight(all: set<nat>, data: set<nat>, spare: set<nat>, hole: set<nat>, n: nat)
    returns (x: set<nat>, y: set<nat>, w: set<nat>)
    requires n > 0 && data != {} && spare != {} && |data| < n + |spare| && |all| >= n + |hole|
    ensures x <= data && y <= spare && |x| + |y| == |data|
    ensures w <= all - data - hole && |w| + |data| >= n > |x| + |w|
  {
    x := Pick(data, if |spare| < |data| then |data| - |spare| else 0);
    y := Pick(spare, |data| - |x|);
    RestSize(all, data, hole);
    w := Pick(all - data - hole, if n > |data| then n - |data| else 0);
  }

  lemma MakeTight(env: Env, ids: set<nat>, az: nat, hole: set<nat>) returns (x: set<nat>, y: set<nat>, w: set<nat>)
    requires env.Valid() && env.t.AZCount > 0 && az < env.t.AZCount
    requires !HasIdx(env, First(env, ids), az) && !Idle(env, ids, az)
    requires GlobalIds(env, ids) <= hole && hole != {} && |hole| <= env.t.M
    requires GlobalIds(env, ids) == {} ==> exists i: nat, j: nat :: InHole(env, ids, hole, i, j)
    ensures Tight(env, ids, az, x, y, w, hole)
  {
    hide Env.Valid, CountIn, HasIdx, InHole, Globals, ZoneData, Spare, GlobalIds, First, Env.Local, Env.Global;
    EnvFacts(env);
    ZoneCount(env, az, {});
    GlobalCount(env, {});
    x, y, w := PickTight(Globals(env), ZoneData(env, az), Spare(env, ids, az), hole, env.t.N);
  }

  lemma RestSize(all: set<nat>, data: set<nat>, hole: set<nat>)
    ensures |all - data - hole| >= |all| - |data| - |hole|
  {
    assert |all| <= |(all - data - hole) + data + hole| by {
      SubsetSize(all, (all - data - hole) + data + hole);
    }
    assert |(all - data - hole) + data + hole| <= |all - data - hole| + |data| + |hole|;
  }

  lemma MeetsOther(env: Env, ids: set<nat>, az: nat, x: set<nat>, y: set<nat>, w: set<nat>, hole: set<nat>, other: nat)
    requires env.t.AZCount > 0 && Tight(env, ids, az, x, y, w, hole) && other != az
    ensures (x + y + w) * ZoneParity(env, other) == {} && (x + y + w) * ZoneData(env, other) == w * ZoneData(env, other)
  {
    hide HasIdx, InHole, First, Tactic.ZoneOf, Tactic.Total;
  }

  /** Another zone is full only with all its data and parity. */
  lemma OtherZoneIsWhole(env: Env, ids: set<nat>, az: nat, x: set<nat>, y: set<nat>, w: set<nat>, hole: set<nat>,
                         other: nat)
    requires env.Valid() && env.t.AZCount > 0 && Tight(env, ids, az, x, y, w, hole)
    requires other < env.t.AZCount && other != az && ZoneFull(env, other, x + y + w)
    ensures ZoneData(env, other) <= w
  {
    hide Env.Valid, CountIn, Tight, ZoneData, ZoneParity, Env.Local, Tactic.ZoneN, Tactic.ZoneM;
    ZoneCount(env, other, x + y + w);
    MeetsOther(env, ids, az, x, y, w, hole, other);
    SubsetSize(w * ZoneData(env, other), ZoneData(env, other));
  }

  /** So the zones that recovery starts with add no data or parity. */
  lemma NothingIsGained(env: Env, ids: set<nat>, az: nat, x: set<nat>, y: set<nat>, w: set<nat>, hole: set<nat>)
    requires env.Valid() && env.t.AZCount > 0 && Tight(env, ids, az, x, y, w, hole)
    ensures AfterLocals(env, First(env, ids), x + y + w) * Globals(env) == x + w
  {
    hide Env.Valid, InHole, First, Fills, Tactic.ZoneOf;
    var q := AfterLocals(env, First(env, ids), x + y + w);
    forall i | i in q * Globals(env)
      ensures i in x + w
    {
      if i !in x + y + w {
        ZoneOfIndex(env, i);
        FillsIsFull(env, First(env, ids), env.t.ZoneOf(i), x + y + w);
        OtherZoneIsWhole(env, ids, az, x, y, w, hole, env.t.ZoneOf(i));
      }
    }
  }

  lemma FillsIsFull(env: Env, ids: set<nat>, az: nat, p: set<nat>)
    requires env.t.AZCount > 0 && ZoneFills(env, ids, az, p)
    ensures ZoneFull(env, az, p) && HasIdx(env, ids, az)
  {
  }

  /** Too few for the global stripe after the first zones, and those do not bring all of the first. */
  lemma TooFewForAll(env: Env, ids: set<nat>, avail: set<nat>)
    requires env.t.AZCount > 0 && CountIn(env.Global().replicas, AfterLocals(env, First(env, ids), avail)) < env.t.N
    requires !(First(env, ids) <= AfterLocals(env, First(env, ids), avail))
    ensures !CodeRecovers(env, ids, avail)
  {
    hide AfterLocals, CountIn, Env.Global, Lacking;
    GlobalStripe(env);
    if GlobalIds(env, ids) == {} {
      OnlyParity(env, ids);
    }
  }

  lemma TightIsNotRecovered(env: Env, ids: set<nat>, az: nat, x: set<nat>, y: set<nat>, w: set<nat>, hole: set<nat>)
    requires env.Valid() && env.t.AZCount > 0 && Tight(env, ids, az, x, y, w, hole)
    requires forall i | i in ids :: i < env.t.Total()
    ensures !CodeRecovers(env, ids, x + y + w)
  {
    hide Env.Valid, Tactic.Total, CountIn, Env.Global, AfterLocals, CodeRecovers, HasIdx, ZoneData, InHole;
    NothingIsGained(env, ids, az, x, y, w, hole);
    GlobalCount(env, AfterLocals(env, First(env, ids), x + y + w));
    if GlobalIds(env, ids) == {} {
      ParityIsMissed(env, ids, az, x, y, w, hole);
    } else {
      var g :| g in GlobalIds(env, ids);
      GlobalIsMissed(env, ids, az, x, y, w, hole, g);
    }
    TooFewForAll(env, ids, x + y + w);
  }

  lemma GlobalIsMissed(env: Env, ids: set<nat>, az: nat, x: set<nat>, y: set<nat>, w: set<nat>, hole: set<nat>, g: nat)
    requires env.Valid() && env.t.AZCount > 0 && Tight(env, ids, az, x, y, w, hole) && g in GlobalIds(env, ids)
    ensures g in Globals(env) && g !in x + w
  {
    TightWithin(env, ids, az, x, y, w, hole);
  }

  lemma ParityIsMissed(env: Env, ids: set<nat>, az: nat, x: set<nat>, y: set<nat>, w: set<nat>, hole: set<nat>)
    requires env.Valid() && env.t.AZCount > 0 && Tight(env, ids, az, x, y, w, hole) && GlobalIds(env, ids) == {}
    requires forall i | i in ids :: i < env.t.Total()
    ensures ids != {} && !(ids <= AfterLocals(env, ids, x + y + w))
  {
    var i: nat, j: nat :| InHole(env, ids, hole, i, j);
    hide Env.Valid, Fills, Tactic.ZoneOf, Tactic.Total;
    ZoneOfIndex(env, i);
    HasItself(env, ids, i);
    if i in AfterLocals(env, ids, x + y + w) {
      assert i !in x + y + w;
      FillsIsFull(env, ids, env.t.ZoneOf(i), x + y + w);
      OtherZoneIsWhole(env, ids, az, x, y, w, hole, env.t.ZoneOf(i));
    }
  }

  lemma TightIsDecodable(env: Env, ids: set<nat>, az: nat, x: set<nat>, y: set<nat>, w: set<nat>, hole: set<nat>)
    requires env.Valid() && env.t.AZCount > 0 && Tight(env, ids, az, x, y, w, hole)
    requires forall i | i in ids :: i < env.t.Total()
    ensures x + y + w <= Others(env, ids) && Decodable(env, ids, x + y + w)
  {
    var p := x + y + w;
    ZoneCount(env, az, p);
    TightWithin(env, ids, az, x, y, w, hole);
    hide Env.Valid, InHole, First, HasIdx, Tactic.ZoneOf, Tactic.Total, CountIn, Env.Local, Env.Global;
    assert p * ZoneData(env, az) == x && p * ZoneParity(env, az) == y;
    assert ZoneFull(env, az, p);
    var q := AllLocals(env, p);
    assert y != {};
    ParityMeansLocal(env, az);
    assert ZoneData(env, az) + w <= q * Globals(env);
    SubsetSize(ZoneData(env, az) + w, q * Globals(env));
    GlobalCount(env, q);
    DecodableIs(env, ids, p);
  }

  lemma ParityMeansLocal(env: Env, az: nat)
    requires env.t.AZCount > 0 && ZoneParity(env, az) != {}
    ensures env.t.L > 0 && env.t.N + env.t.M < env.t.Total()
  {
  }

  lemma TightWithin(env: Env, ids: set<nat>, az: nat, x: set<nat>, y: set<nat>, w: set<nat>, hole: set<nat>)
    requires env.t.AZCount > 0 && Tight(env, ids, az, x, y, w, hole)
    ensures x + y + w <= Others(env, ids)
  {
    forall i | i in x
      ensures i !in ids
    {
      if i in GlobalIds(env, ids) {
        HasItself(env, GlobalIds(env, ids), i);
      }
    }
  }

  /** Where the hole is: the requested data and parity, or else one such shard of a requested zone. */
  lemma SomeHole(env: Env, ids: set<nat>) returns (hole: set<nat>)
    requires env.Valid() && env.t.AZCount > 0 && ids != {}
    requires forall i | i in ids :: i < env.t.Total()
    requires CountIn(env.Global().replicas, GlobalIds(env, ids)) <= env.t.M
    ensures GlobalIds(env, ids) <= hole && hole != {} && |hole| <= env.t.M
    ensures GlobalIds(env, ids) == {} ==> exists i: nat, j: nat :: InHole(env, ids, hole, i, j)
  {
    hide CountIn, HasIdx, Env.Global, Tactic.ZoneOf, Tactic.Total;
    var g := GlobalIds(env, ids);
    GlobalCount(env, g);
    hole := g;
    assert g * Globals(env) == g;
    if g == {} {
      var i :| i in ids;
      ZoneOfIndex(env, i);
      ZoneCount(env, env.t.ZoneOf(i), {});
      var j :| j in ZoneData(env, env.t.ZoneOf(i));
      hole := {j};
      assert InHole(env, ids, hole, i, j);
    }
  }

  /** A zone that recovery passes over is not idle. */
  lemma PassedOverGivesUp(env: Env, ids: set<nat>, az: nat) returns (avail: set<nat>)
    requires env.Valid() && env.t.AZCount > 0 && az < env.t.AZCount && ids != {}
    requires !HasIdx(env, First(env, ids), az) && !Idle(env, ids, az)
    requires forall i | i in ids :: i < env.t.Total()
    requires CountIn(env.Global().replicas, GlobalIds(env, ids)) <= env.t.M
    ensures avail <= Others(env, ids) && Decodable(env, ids, avail) && !CodeRecovers(env, ids, avail)
  {
    hide Env.Valid, HasIdx, First, Tactic.Total, CountIn, Env.Global, Idle, Tight, GlobalIds, CodeRecovers, Decodable;
    var hole := SomeHole(env, ids);
    var x, y, w := MakeTight(env, ids, az, hole);
    avail := x + y + w;
    TightIsDecodable(env, ids, az, x, y, w, hole);
    TightIsNotRecovered(env, ids, az, x, y, w, hole);
  }

  // ---- the condition is exact ----

  /** Some shards with which the request can be decoded and recovery gives up. */
  lemma GivesUp(env: Env, ids: set<nat>) returns (avail: set<nat>)
    requires env.Valid() && env.t.AZCount > 0 && (forall i | i in ids :: i < env.t.Total()) && !NeverGivesUp(env, ids)
    ensures avail <= Others(env, ids) && Decodable(env, ids, avail) && !CodeRecovers(env, ids, avail)
  {
    hide Env.Valid, HasIdx, Tactic.Total, CountIn, Env.Global, Idle, GlobalIds, CodeRecovers, Decodable, Others,
         AllLocals;
    if CountIn(env.Global().replicas, GlobalIds(env, ids)) > env.t.M {
      avail := TooManyGivesUp(env, ids);
    } else {
      var az: nat :| az < env.t.AZCount && !HasIdx(env, First(env, ids), az) && !Idle(env, ids, az);
      avail := PassedOverGivesUp(env, ids, az);
    }
  }

  /** Whatever else is available, recovery brings what can be decoded and nothing else, if and only if
      the request meets the condition. */
  lemma RequestIsExact(env: Env, ids: set<nat>)
    requires env.Valid() && env.t.AZCount > 0 && forall i | i in ids :: i < env.t.Total()
    ensures NeverGivesUp(env, ids) <==>
      forall avail: set<nat> | avail <= Others(env, ids) ::
        CodeRecovers(env, ids, avail) <==> Decodable(env, ids, avail)
  {
    hide Env.Valid, NeverGivesUp, CodeRecovers, Decodable, Others, Tactic.Total;
    if NeverGivesUp(env, ids) {
      forall avail: set<nat> | avail <= Others(env, ids)
        ensures CodeRecovers(env, ids, avail) <==> Decodable(env, ids, avail)
      {
        if CodeRecovers(env, ids, avail) {
          RecoveredIsDecodable(env, ids, avail);
        }
        if Decodable(env, ids, avail) {
          DecodesWhatItCan(env, ids, avail);
        }
      }
    } else {
      var avail := GivesUp(env, ids);
    }
  }

  // ---- one shard ----

  /** Without local parity, or when the rest of a full zone is enough for the global stripe, no zone
      that recovery passes over is needed. */
  predicate ZonesAreIdle(t: Tactic) {
    t.L == 0 || t.ZoneN() + t.ZoneM() >= t.N + t.ZoneL()
  }

  lemma OneIsFew(env: Env, i: nat)
    requires env.Valid() && env.t.AZCount > 0 && i < env.t.Total()
    ensures CountIn(env.Global().replicas, GlobalIds(env, {i})) <= env.t.M
    ensures CountIn(env.Global().replicas, AllLocals(env, Others(env, {i}))) >= env.t.N
  {
    var q := AllLocals(env, Others(env, {i}));
    GlobalCount(env, GlobalIds(env, {i}));
    GlobalCount(env, q);
    assert env.t.M > 0;
    hide CountIn, Env.Valid, Env.Global, ZoneFull;
    SubsetSize(GlobalIds(env, {i}) * Globals(env), {i});
    assert Globals(env) - {i} <= q * Globals(env);
    SubsetSize(Globals(env) - {i}, q * Globals(env));
    assert |Globals(env) - {i}| >= |Globals(env)| - 1;
  }

  lemma OtherZone(env: Env, i: nat) returns (az: nat)
    requires env.Valid() && env.t.AZCount > 0 && env.t.L > 0 && i < env.t.Total()
    ensures az < env.t.AZCount && az != env.t.ZoneOf(i)
  {
    az := if env.t.ZoneOf(i) == 0 then 1 else 0;
    assert env.t.AZCount == 1 ==> env.t.ZoneN() + env.t.ZoneM() == env.t.N + env.t.M;
  }

  lemma SpareOfOther(env: Env, i: nat, az: nat)
    requires env.Valid() && env.t.AZCount > 0 && az < env.t.AZCount && i < env.t.Total() && az != env.t.ZoneOf(i)
    ensures |Spare(env, {i}, az)| == env.t.ZoneL() && (env.t.ZoneL() > 0 <==> env.t.L > 0)
    ensures Spare(env, {i}, az) == {} <==> env.t.L == 0
  {
    ZoneCount(env, az, {});
    EnvFacts(env);
    ShareBound(env.t.L, env.t.AZCount, az);
    hide Env.Valid, Tactic.ZoneOf, CountIn;
    assert Spare(env, {i}, az) == ZoneParity(env, az);
  }

  /** For one shard, whichever it is: all that can be decoded is recovered exactly on such a tactic. */
  lemma OneShardIsExact(env: Env, i: nat)
    requires env.Valid() && env.t.AZCount > 0 && i < env.t.Total()
    ensures ZonesAreIdle(env.t) <==>
      forall avail: set<nat> | avail <= Others(env, {i}) ::
        CodeRecovers(env, {i}, avail) <==> Decodable(env, {i}, avail)
  {
    RequestIsExact(env, {i});
    hide Env.Valid, CodeRecovers, Decodable, Others, CountIn, Env.Global, AllLocals, Tactic.ZoneOf;
    OneIsFew(env, i);
    assert First(env, {i}) == {i};
    forall az: nat | az < env.t.AZCount && !HasIdx(env, {i}, az)
      ensures az != env.t.ZoneOf(i) && (Idle(env, {i}, az) <==> ZonesAreIdle(env.t))
    {
      HasItself(env, {i}, i);
      SpareOfOther(env, i, az);
    }
    hide Idle, ZonesAreIdle;
    if env.t.L == 0 {
      WithoutParityIdle(env.t);
    } else {
      var az := OtherZone(env, i);
      assert !HasIdx(env, {i}, az);
    }
  }

  lemma WithoutParityIdle(t: Tactic)
    requires t.L == 0
    ensures ZonesAreIdle(t)
  {
  }

  /** Of the tactics only 6 + 3 + 3 and 4 + 4 + 2 need a zone that recovery passes over. */
  lemma TacticsThatGiveUp(k: nat)
    requires k < |Tactics()|
    ensures ZonesAreIdle(Tactics()[k]) <==> k != 4 && k != 7
  {
  }

  // ---- two calls of the recovery that give up ----

  /** Four lost data and parity shards in two zones of the tactic with 6, 3 and 3 shards. */
  const Lost := {0, 2, 3, 7}

  const Left := {1, 4, 5, 6, 8, 9, 10, 11}

  /** One lost shard of the first zone, and others of which the third zone determines shard 8. */
  const LostOne := {0}

  const LeftOfOne := {1, 2, 3, 4, 5, 11}

  /** One blob of one byte, of which the given shards can be fetched. */
  ghost predicate IsSmallEnv(env: Env, left: set<nat>) {
    && env.t == Tactics()[4] && env.bids == [0] && env.sizes == map[0 := 1] && env.zones == [0, 1, 2]
    && (forall i: nat, b: nat :: env.truth(i, b) == [1])
    && (forall i: nat, b: nat :: env.fetch(i, b) == if i in left then Some([1]) else None)
    && (forall n: nat, m: nat, word :: env.code(n, m, word) == seq(n + m, _ => [1]))
    && (forall s :: env.shuffle(s) == s)
  }

  lemma AnyStripeOk(env: Env, st: Stripe)
    requires forall i: nat, b: nat :: env.truth(i, b) == [1]
    requires forall n: nat, m: nat, word :: env.code(n, m, word) == seq(n + m, _ => [1])
    requires st.n > 0 && |st.replicas| == st.n + st.m && forall i | i in st.replicas :: i < env.t.Total()
    ensures env.StripeOk(st)
  {
  }

  lemma SmallEnvIsValid(env: Env, left: set<nat>)
    requires IsSmallEnv(env, left)
    ensures env.Valid() && env.t.Total() == 12 && Sized(env, 0)
    ensures env.t.AZCount == 3 && env.t.N == 6 && env.t.M == 3 && env.t.L == 3
  {
    TacticsAreValid(4);
    assert env.t.Total() == 12;
    hide Tactic.Zone;
    assert env.t.AZCount == 3 && env.t.N == 6 && env.t.M == 3 && env.t.L == 3;
    hide Tactics;
    forall i | i in env.Global().replicas
      ensures i < env.t.Total()
    {
      InSpan(0, env.t.N + env.t.M, i);
    }
    AnyStripeOk(env, env.Global());
    forall az: nat | az < env.t.AZCount
      ensures env.StripeOk(env.Local(az))
    {
      ZonesPartition(env.t, az, 0);
      ZoneIsSimple(env.t, az);
      AnyStripeOk(env, env.Local(az));
    }
    hide Env.StripeOk;
  }

  lemma SmallAvail(env: Env, left: set<nat>, lost: set<nat>)
    requires IsSmallEnv(env, left) && left !! lost && forall i | i in left :: i < 12
    ensures env.Avail(0, lost) == left
  {
    assert env.t.Total() == 12;
    hide Tactics;
  }

  lemma SmallZone(t: Tactic, az: nat)
    requires t == Tactics()[4] && az < 3
    ensures t.Zone(az) == [2 * az, 2 * az + 1, 6 + az, 9 + az] && t.AZCount == 3 && t.ZoneN() + t.ZoneM() == 3
    ensures t.ZoneOf(2 * az) == az
  {
  }

  lemma SmallCount(env: Env, az: nat, p: set<nat>)
    requires env.t == Tactics()[4] && az < 3
    ensures env.t.AZCount > 0 && env.t.ZoneOf(2 * az) == az
    ensures ZoneFull(env, az, p) <==> |p * {2 * az, 2 * az + 1, 6 + az, 9 + az}| >= 3
  {
    SmallZone(env.t, az);
    hide CountIn, Tactics, Tactic.Zone, Tactic.ZoneOf, Tactic.ZoneN, Tactic.ZoneM;
    var zone := env.t.Zone(az);
    assert Distinct(zone);
    CountMeets(zone, p);
    assert Members(zone) == {2 * az, 2 * az + 1, 6 + az, 9 + az};
  }

  /** Six data and parity shards after the local stripes determine all. */
  lemma SixDecode(env: Env, ids: set<nat>, p: set<nat>, six: set<nat>)
    requires env.Valid() && env.t == Tactics()[4] && env.t.AZCount > 0 && forall i | i in ids :: i < env.t.Total()
    requires |six| == 6 && (forall i | i in six :: i < 9) && six <= AllLocals(env, p)
    ensures Decodable(env, ids, p)
  {
    assert env.t.N == 6 && env.t.M == 3;
    hide Tactics, Env.Valid, AllLocals, CountIn, Decodable, Env.Global;
    var q := AllLocals(env, p);
    GlobalCount(env, q);
    SubsetSize(six, q * Globals(env));
    DecodableIs(env, ids, p);
  }

  lemma FilledAt(env: Env, p: set<nat>, az: nat, i: nat)
    requires env.t == Tactics()[4] && az < 3 && i in {2 * az, 2 * az + 1, 6 + az, 9 + az}
    ensures env.t.AZCount > 0 && (i in AllLocals(env, p) <==> i in p || ZoneFull(env, az, p))
  {
    assert env.t.Total() == 12 && env.t.L == 3 && env.t.ZoneOf(i) == az;
    hide Tactics, ZoneFull;
  }

  /** After the first zone is filled six data and parity shards are there, which determine the others. */
  lemma LostIsDecodable(env: Env)
    requires env.Valid() && env.t == Tactics()[4] && env.t.AZCount > 0 && env.t.Total() == 12
    ensures Decodable(env, Lost, Left)
  {
    hide Tactics, Env.Valid, AllLocals, CountIn, Decodable, Env.Global, ZoneFull, CodeRecovers, AfterLocals, Closed;
    SmallCount(env, 0, Left);
    assert Left * {0, 1, 6, 9} == {1, 6, 9};
    FilledAt(env, Left, 0, 0);
    SomeOfAllLocals(env, {}, Left);
    SixDecode(env, Lost, Left, {0, 1, 4, 5, 6, 8});
  }

  /** But the global stripe is told of all four lost ones, which is more than it allows. */
  lemma LostIsNotRecovered(env: Env)
    requires env.Valid() && env.t == Tactics()[4] && env.t.AZCount > 0 && env.t.Total() == 12
    ensures !CodeRecovers(env, Lost, Left)
  {
    assert env.t.N == 6 && env.t.M == 3;
    hide Tactics, Env.Valid, AllLocals, CountIn, Decodable, Env.Global, ZoneFull, CodeRecovers, AfterLocals, Closed;
    SmallCount(env, 1, Left);
    assert Left * {2, 3, 7, 10} == {10};
    FilledAt(env, Left, 1, 2);
    SomeOfAllLocals(env, Lost, Left);
    FourGlobals(env);
    GlobalsAreLost(env, Lost, Left);
  }

  lemma FourGlobals(env: Env)
    requires env.t.N == 6 && env.t.M == 3
    ensures GlobalIds(env, Lost) == Lost && CountIn(env.Global().replicas, Lost) == 4
  {
    hide CountIn, Env.Global;
    GlobalCount(env, Lost);
    assert Lost * Globals(env) == Lost;
  }

  /** The third zone determines shard 8, and with it six data and parity shards are there. */
  lemma OneIsDecodable(env: Env)
    requires env.Valid() && env.t == Tactics()[4] && env.t.AZCount > 0 && env.t.Total() == 12
    ensures Decodable(env, LostOne, LeftOfOne)
  {
    hide Tactics, Env.Valid, AllLocals, CountIn, Decodable, Env.Global, ZoneFull, CodeRecovers, AfterLocals, Closed;
    SmallCount(env, 2, LeftOfOne);
    assert LeftOfOne * {4, 5, 8, 11} == {4, 5, 11};
    FilledAt(env, LeftOfOne, 2, 8);
    SomeOfAllLocals(env, {}, LeftOfOne);
    SixDecode(env, LostOne, LeftOfOne, {1, 2, 3, 4, 5, 8});
  }

  /** But recovery passes over that zone. */
  lemma OneIsNotRecovered(env: Env)
    requires env.Valid() && env.t == Tactics()[4] && env.t.AZCount > 0 && env.t.Total() == 12
    ensures !CodeRecovers(env, LostOne, LeftOfOne)
  {
    assert env.t.N == 6 && env.t.M == 3;
    hide Tactics, Env.Valid, CountIn, Env.Global, ZoneFull, CodeRecovers, AfterLocals, First, GlobalIds;
    SmallCount(env, 0, LeftOfOne);
    assert LeftOfOne * {0, 1, 6, 9} == {1};
    NoneFilled(env, LostOne, LeftOfOne, 0);
    FiveGlobals(env);
    TooFewForAll(env, LostOne, LeftOfOne);
  }

  lemma FiveGlobals(env: Env)
    requires env.t.N == 6 && env.t.M == 3
    ensures First(env, LostOne) == LostOne && CountIn(env.Global().replicas, LeftOfOne) == 5
  {
    hide CountIn, Env.Global;
    assert GlobalIds(env, LostOne) == LostOne;
    GlobalCount(env, LeftOfOne);
    assert LeftOfOne * Globals(env) == {1, 2, 3, 4, 5};
  }

  lemma NoneFilled(env: Env, ids: set<nat>, p: set<nat>, i: nat)
    requires env.t.AZCount > 0 && ids == {i} && !ZoneFull(env, env.t.ZoneOf(i), p)
    ensures AfterLocals(env, ids, p) == p
  {
    hide CountIn, Tactic.ZoneOf, Tactic.Total, Env.Local;
  }

  function OneByte(i: nat, b: Bid): Bytes { [1] }

  function OneByteEach(n: nat, m: nat, word: seq<Option<Bytes>>): seq<Bytes> { seq(n + m, _ => [1]) }

  function InOrder(s: seq<nat>): seq<nat> { s }

  method SmallEnv(t: Tactic, left: set<nat>) returns (env: Env)
    requires t == Tactics()[4]
    ensures IsSmallEnv(env, left)
  {
    hide Tactics;
    env := Env(t, [0], map[0 := 1], OneByte, (i: nat, b: Bid) => if i in left then Some([1]) else None, OneByteEach,
               InOrder, [0, 1, 2]);
  }

  /** A recovery of shards that can be decoded, and fails. */
  ghost predicate FailsOnDecodable(env: Env, idxs: seq<nat>, ok: bool) {
    && env.Valid() && env.t.AZCount > 0 && Sized(env, 0) && !ok
    && Decodable(env, Members(idxs), env.Avail(0, {} + Members(idxs)))
  }

  lemma SmallEnvGivesUp(env: Env, idxs: seq<nat>, lost: set<nat>, left: set<nat>)
    requires IsSmallEnv(env, left) && Members(idxs) == lost && left !! lost
    requires (lost == Lost && left == Left) || (lost == LostOne && left == LeftOfOne)
    ensures env.Valid() && env.bids == [0] && Sized(env, 0) && env.t.Total() == 12 && forall i | i in idxs :: i < 12
    ensures env.t.AZCount > 0 && Decodable(env, Members(idxs), env.Avail(0, {} + Members(idxs)))
    ensures !CodeRecovers(env, Members(idxs), env.Avail(0, {} + Members(idxs)))
  {
    SmallEnvIsValid(env, left);
    forall i | i in idxs
      ensures i < 12
    {
      assert i in Members(idxs);
    }
    assert {} + Members(idxs) == lost;
    SmallAvail(env, left, lost);
    hide Env.Valid, CodeRecovers, Decodable, Tactics, Tactic.Total, Env.Avail;
    if lost == Lost {
      LostIsDecodable(env);
      LostIsNotRecovered(env);
    } else {
      OneIsDecodable(env);
      OneIsNotRecovered(env);
    }
  }

  method RecoverSmall(idxs: seq<nat>, ghost lost: set<nat>, left: set<nat>) returns (env: Env, ok: bool)
    requires Members(idxs) == lost && left !! lost
    requires (lost == Lost && left == Left) || (lost == LostOne && left == LeftOfOne)
    ensures FailsOnDecodable(env, idxs, ok)
  {
    hide Env.Valid, CodeRecovers, Decodable, Tactic.Total, Env.Avail, IsSmallEnv, Members, Sized;
    env := SmallEnv(Tactics()[4], left);
    SmallEnvGivesUp(env, idxs, lost, left);
    var recover := new ShardRecover(env, 12, {});
    ok := recover.RecoverShards(idxs, false);
  }

  /** Four shards are lost, more than the global stripe can do without, of which a local stripe restores one. */
  method GiveUpOnDecodable() returns (env: Env, ok: bool)
    ensures FailsOnDecodable(env, [0, 2, 3, 7], ok)
  {
    hide FailsOnDecodable;
    env, ok := RecoverSmall([0, 2, 3, 7], Lost, Left);
  }

  /** One shard is lost, and the local stripe of another zone is needed. */
  method GiveUpOnOne() returns (env: Env, ok: bool)
    ensures FailsOnDecodable(env, [0], ok)
  {
    hide FailsOnDecodable;
    env, ok := RecoverSmall([0], LostOne, LeftOfOne);
  }
}
