/**
 * What erasure-code recovery of a volume's shards works with, and what each of its stages does
 * for one bid, on the sets of shards at hand.
 */
module RecoveryModel {

  import opened Wrappers
  import opened Arithmetic
  import opened CodeMode
  import opened Counting

  type Bid = nat

  type Shards = map<Bid, map<nat, Bytes>>

  // ---- the codec ----

  datatype Stripe = Stripe(replicas: seq<nat>, n: nat, m: nat)

  /** What the decoder is given: the shards at hand in stripe order, the others empty. */
  function Part(replicas: seq<nat>, got: map<nat, Bytes>): seq<Option<Bytes>> {
    seq(|replicas|, k requires 0 <= k < |replicas| =>
      if replicas[k] in got then Some(got[replicas[k]]) else None)
  }

  // ---- the surroundings of one recovery ----

  /**
   * bids are the bids to recover and sizes their shard sizes; truth the bytes written for a shard;
   * fetch what asking for it brings, None when the request fails or is called off because the
   * whole replica failed (a replica is asked once); code is the decoder of an (n, m) stripe; shuffle the random
   * order of replicas, zones the order in which the zones are visited.
   */
  datatype Env = Env(
    t: Tactic,
    bids: seq<Bid>,
    sizes: map<Bid, nat>,
    truth: (nat, Bid) -> Bytes,
    fetch: (nat, Bid) -> Option<Bytes>,
    code: (nat, nat, seq<Option<Bytes>>) -> seq<Bytes>,
    shuffle: seq<nat> -> seq<nat>,
    zones: seq<nat>)
  {
    function Global(): Stripe {
      Stripe(Span(0, t.N + t.M), t.N, t.M)
    }

    function Local(az: nat): Stripe
      requires t.AZCount > 0
    {
      Stripe(t.Zone(az), t.ZoneN() + t.ZoneM(), t.ZoneL())
    }

    /** The local stripe an index belongs to. */
    function HomeStripe(i: nat): Stripe
      requires t.AZCount > 0
    {
      Local(t.ZoneOf(i))
    }

    /** An index of local parity: at the end of its local stripe. */
    predicate IsLocal(i: nat)
      requires t.AZCount > 0
    {
      var st := HomeStripe(i);
      t.L > 0 && st.n <= |st.replicas| && i in st.replicas[st.n..]
    }

    /** The shards of a bid that can be downloaded. */
    function Avail(b: Bid, forbidden: set<nat>): set<nat> {
      set i: nat | i < t.Total() && fetch(i, b).Some? && i !in forbidden
    }

    ghost predicate True(b: Bid, got: map<nat, Bytes>) {
      forall i | i in got :: got[i] == truth(i, b)
    }

    ghost predicate IsWord(st: Stripe, b: Bid, word: seq<Bytes>) {
      |word| == |st.replicas| && forall k | 0 <= k < |word| :: word[k] == truth(st.replicas[k], b)
    }

    /** Any n true shards of the stripe decode to all of them. */
    ghost predicate Decodes(st: Stripe, b: Bid) {
      forall got: map<nat, Bytes> |
        True(b, got) && CountIn(st.replicas, got.Keys) >= st.n ::
        IsWord(st, b, code(st.n, st.m, Part(st.replicas, got)))
    }

    ghost predicate StripeOk(st: Stripe) {
      && st.n > 0 && |st.replicas| == st.n + st.m
      && (forall i | i in st.replicas :: i < t.Total())
      && (forall b | b in sizes && sizes[b] > 0 :: Decodes(st, b))
    }

    ghost predicate Valid() {
      && (forall b :: b in bids <==> b in sizes)
      && t.Valid() && (t.L > 0 ==> t.SurvivesZone())
      && (forall i: nat, b: nat | fetch(i, b).Some? :: fetch(i, b).value == truth(i, b))
      && (forall i: nat, b: nat | b in sizes && sizes[b] == 0 :: truth(i, b) == [])
      && StripeOk(Global())
      && (t.L > 0 ==> forall az: nat | az < t.AZCount :: StripeOk(Local(az)))
      && (forall s: seq<nat> :: multiset(shuffle(s)) == multiset(s))
      && (forall az: nat :: az in zones <==> az < t.AZCount)
      && Distinct(zones)
    }
  }

  /** The replicas that are not to be repaired, in order. */
  function WellOf(order: seq<nat>, bad: seq<nat>): seq<nat> {
    if order == [] then []
    else
      var rest := WellOf(order[..|order| - 1], bad);
      var last := order[|order| - 1];
      if last in bad then rest else rest + [last]
  }

  lemma {:induction false} WellMembers(order: seq<nat>, bad: seq<nat>)
    ensures Members(WellOf(order, bad)) == Members(order) - Members(bad)
    ensures |WellOf(order, bad)| + CountIn(order, Members(bad)) == |order|
  {
    if order != [] {
      WellMembers(order[..|order| - 1], bad);
      assert order == order[..|order| - 1] + [order[|order| - 1]];
      var w := WellOf(order[..|order| - 1], bad);
      assert forall i :: i in w <==> i in Members(w);
    }
  }

  // ---- what repairing one stripe does, for one bid ----

  ghost predicate AllOk(have: set<nat>, bad: seq<nat>) {
    forall i | i in bad :: i in have
  }

  ghost function Well(st: Stripe, bad: seq<nat>): set<nat> {
    Members(st.replicas) - Members(bad)
  }

  /** No more replicas are bad than the stripe can do without. */
  ghost predicate Tolerable(st: Stripe, bad: seq<nat>) {
    CountIn(st.replicas, Members(bad)) <= st.m
  }

  /** Whether the shards at hand and those to be downloaded are enough for the stripe. */
  ghost predicate Reaches(st: Stripe, bad: seq<nat>, have: set<nat>, avail: set<nat>) {
    Tolerable(st, bad) && CountIn(st.replicas, have + Well(st, bad) * avail) >= st.n
  }

  /** Each download that was made is accounted for. */
  ghost predicate CaughtUp(have: set<nat>, downloaded: set<nat>, avail: set<nat>) {
    downloaded * avail <= have
  }

  /**
   * Repairing a stripe: a bid comes out repaired exactly when it was, or when the shards at hand
   * and the available well ones are enough; a bid that fails has gained the available ones.
   */
  ghost predicate StripeDone(st: Stripe, bad: seq<nat>, avail: set<nat>, before: set<nat>, after: set<nat>,
                             downloaded: set<nat>) {
    if AllOk(after, bad) then
      AllOk(before, bad) || Reaches(st, bad, before, avail)
    else
      && !Reaches(st, bad, before, avail)
      && after == before + (if Tolerable(st, bad) then Well(st, bad) * avail else {})
      && CaughtUp(after, downloaded, avail)
  }

  /** A bid that has enough shards already comes out repaired, whatever was downloaded. */
  ghost predicate Helped(st: Stripe, bad: seq<nat>, before: set<nat>, after: set<nat>) {
    Tolerable(st, bad) && CountIn(st.replicas, before) >= st.n ==> AllOk(after, bad)
  }

  /** Decoding a stripe. */
  ghost predicate Repaired(st: Stripe, before: set<nat>, after: set<nat>) {
    after == before + if CountIn(st.replicas, before) >= st.n then Members(st.replicas) else {}
  }

  lemma RepairedTwice(st: Stripe, before: set<nat>, once: set<nat>, twice: set<nat>)
    requires Repaired(st, before, once) && Repaired(st, once, twice)
    ensures Repaired(st, before, twice)
  {
    if CountIn(st.replicas, before) < st.n {
      assert once == before;
    }
  }

  /** Downloading and then decoding. */
  ghost predicate PlanRun(st: Stripe, asked: set<nat>, avail: set<nat>, before: set<nat>, after: set<nat>) {
    exists got :: Gains(before, got, asked, avail) && Repaired(st, got, after)
  }

  ghost predicate IsPlanning(plans: seq<seq<nat>>, well: seq<nat>, n: nat)
    requires n > 0
  {
    && |plans| == (if |well| >= n then |well| - n + 1 else 0)
    && forall j | 0 <= j < |plans| :: plans[j] == well[..n - 1] + [well[n - 1 + j]]
  }

  /** The replicas of the first k plans. */
  ghost function Covered(well: seq<nat>, n: nat, k: nat): set<nat>
    requires n > 0 && (k == 0 || n - 1 + k <= |well|)
  {
    if k == 0 then {} else Members(well[..n - 1 + k])
  }

  lemma CoveredNext(plans: seq<seq<nat>>, well: seq<nat>, n: nat, k: nat)
    requires n > 0 && IsPlanning(plans, well, n) && k < |plans|
    ensures Covered(well, n, k + 1) == Covered(well, n, k) + Members(plans[k])
    ensures Covered(well, n, k + 1) <= Members(well)
    ensures k + 1 == |plans| ==> Covered(well, n, k + 1) == Members(well)
  {
    assert well[..n + k] == well[..n - 1 + k] + [well[n - 1 + k]];
    assert well[..n - 1] + [well[n - 1 + k]] == plans[k];
    assert well[..|well|] == well;
    assert well[..n - 1 + k] == well[..n - 1] + well[n - 1..n - 1 + k];
  }

  lemma PlanInStripe(st: Stripe, bad: seq<nat>, plan: seq<nat>)
    requires Members(plan) <= Well(st, bad)
    ensures forall i | i in plan :: i in st.replicas
  {
    assert forall i | i in plan :: i in Members(plan);
  }

  /** The well replicas are the same set, and as many, in any order. */
  lemma WellOfStripe(env: Env, st: Stripe, bad: seq<nat>)
    requires env.Valid() && env.StripeOk(st)
    ensures st.n > 0 && Members(WellOf(env.shuffle(st.replicas), bad)) == Well(st, bad)
    ensures |WellOf(env.shuffle(st.replicas), bad)| >= st.n <==> Tolerable(st, bad)
  {
    var order := env.shuffle(st.replicas);
    assert multiset(order) == multiset(st.replicas);
    WellMembers(order, bad);
    CountPermuted(order, st.replicas, Members(bad));
    assert |order| == |multiset(order)| == |st.replicas|;
    assert forall i :: i in order <==> i in multiset(order);
    assert forall i :: i in st.replicas <==> i in multiset(st.replicas);
    assert Members(order) == Members(st.replicas);
  }

  /** A bid that fails so far has the available shards of the plans so far, and they are too few. */
  ghost predicate Ongoing(st: Stripe, avail: set<nat>, before: set<nat>, covered: set<nat>, now: set<nat>,
                          downloaded: set<nat>, started: bool) {
    && now == before + covered * avail
    && CaughtUp(now, downloaded, avail)
    && (started ==> CountIn(st.replicas, now) < st.n)
  }

  ghost predicate Settled(st: Stripe, bad: seq<nat>, avail: set<nat>, before: set<nat>, now: set<nat>) {
    AllOk(now, bad) && (AllOk(before, bad) || Reaches(st, bad, before, avail))
  }

  /** How one bid stands after some plans. */
  ghost predicate Tracked(st: Stripe, bad: seq<nat>, avail: set<nat>, before: set<nat>, asked: set<nat>,
                          covered: set<nat>, now: set<nat>, downloaded: set<nat>, started: bool, failing: bool) {
    && before <= now
    && (failing && started ==> CountIn(st.replicas, before) < st.n)
    && (!failing ==> AllOk(now, bad))
    && (CaughtUp(before, asked, avail) ==>
          if failing then Ongoing(st, avail, before, covered, now, downloaded, started)
          else Settled(st, bad, avail, before, now))
  }

  lemma TrackedFirst(st: Stripe, bad: seq<nat>, avail: set<nat>, before: set<nat>, asked: set<nat>)
    ensures Tracked(st, bad, avail, before, asked, {}, before, asked, false, true)
  {
  }

  lemma TrackedRound(st: Stripe, bad: seq<nat>, avail: set<nat>, before: set<nat>, asked: set<nat>, covered: set<nat>,
                     now: set<nat>, known: set<nat>, started: bool, plan: set<nat>, after: set<nat>, known': set<nat>)
    requires Tracked(st, bad, avail, before, asked, covered, now, known, started, true)
    requires PlanRun(st, plan - known, avail, now, after)
    requires known <= known' <= known + plan
    requires covered + plan <= Well(st, bad) && Tolerable(st, bad) && forall i | i in bad :: i in st.replicas
    ensures Tracked(st, bad, avail, before, asked, covered + plan, after, known', true, !AllOk(after, bad))
  {
    var have :| Gains(now, have, plan - known, avail) && Repaired(st, have, after);
    CountMonotone(st.replicas, before, have);
    if CaughtUp(before, asked, avail) {
      assert have == before + (covered + plan) * avail;
      if CountIn(st.replicas, have) >= st.n {
        CountMonotone(st.replicas, have, before + Well(st, bad) * avail);
      } else {
        assert after == have;
        assert forall i | i in bad :: i in have ==> i in before;
      }
    }
  }

  lemma TrackedStays(st: Stripe, bad: seq<nat>, avail: set<nat>, before: set<nat>, asked: set<nat>, covered: set<nat>,
                     now: set<nat>, known: set<nat>, started: bool, covered': set<nat>, known': set<nat>)
    requires Tracked(st, bad, avail, before, asked, covered, now, known, started, false)
    ensures Tracked(st, bad, avail, before, asked, covered', now, known', true, false)
  {
  }

  lemma TrackedLast(st: Stripe, bad: seq<nat>, avail: set<nat>, before: set<nat>, asked: set<nat>, covered: set<nat>,
                    now: set<nat>, known: set<nat>, failing: bool)
    requires Tracked(st, bad, avail, before, asked, covered, now, known, Tolerable(st, bad), failing)
    requires failing ==> covered == if Tolerable(st, bad) then Well(st, bad) else {}
    ensures before <= now && Helped(st, bad, before, now)
    ensures CaughtUp(before, asked, avail) ==> StripeDone(st, bad, avail, before, now, known)
  {
    if failing && CaughtUp(before, asked, avail) {
      assert forall i | i in bad :: i in now ==> i in before;
    }
  }

  /** The shards flagged ok have a buffer and hold the true bytes; those of size zero always are. */
  ghost predicate BidOk(env: Env, bufs: set<nat>, b: Bid, got: map<nat, Bytes>)
    requires b in env.sizes
  {
    && got.Keys <= bufs
    && env.True(b, got)
    && (env.sizes[b] == 0 ==> got.Keys == bufs)
  }

  /** The available ones among the replicas asked are gained. */
  ghost predicate Gains(before: set<nat>, after: set<nat>, asked: set<nat>, avail: set<nat>) {
    after == before + asked * avail
  }

  lemma GainsMore(before: set<nat>, once: set<nat>, twice: set<nat>, asked: set<nat>, more: set<nat>, avail: set<nat>)
    requires Gains(before, once, asked, avail) && Gains(once, twice, more, avail)
    ensures Gains(before, twice, asked + more, avail)
  {
  }

  lemma GainsGrows(before: set<nat>, after: set<nat>, asked: set<nat>, avail: set<nat>)
    requires Gains(before, after, asked, avail)
    ensures before <= after
  {
  }

  lemma GainsNothing(have: set<nat>, avail: set<nat>)
    ensures Gains(have, have, {}, avail)
  {
  }

  ghost predicate AskedSoFar(replicas: seq<nat>, before: set<nat>, downloaded: set<nat>, asked: set<nat>) {
    asked == Members(replicas) - before && before <= downloaded <= before + Members(replicas)
  }

  lemma AskNone(before: set<nat>, forbidden: set<nat>)
    ensures Members([]) - before == {} && AskedSoFar([], before, before, {})
    ensures Recorded([], forbidden, before, before)
  {
  }

  /** The replicas asked are on record. */
  ghost predicate Recorded(replicas: seq<nat>, forbidden: set<nat>, before: set<nat>, downloaded: set<nat>) {
    downloaded == before + (Members(replicas) - forbidden)
  }

  lemma RecordOne(replicas: seq<nat>, k: nat, forbidden: set<nat>, before: set<nat>, known: set<nat>,
                  downloaded: set<nat>)
    requires k < |replicas| && Recorded(replicas[..k], forbidden, before, known)
    requires downloaded == known + ({replicas[k]} - forbidden)
    ensures Recorded(replicas[..k + 1], forbidden, before, downloaded)
  {
    assert replicas[..k + 1] == replicas[..k] + [replicas[k]];
    assert Members(replicas[..k + 1]) == Members(replicas[..k]) + {replicas[k]};
  }

  lemma AskOne(replicas: seq<nat>, k: nat, before: set<nat>, known: set<nat>, downloaded: set<nat>, asked: set<nat>)
    requires k < |replicas| && AskedSoFar(replicas[..k], before, known, asked)
    requires known <= downloaded <= known + {replicas[k]}
    ensures AskedSoFar(replicas[..k + 1], before, downloaded, asked + ({replicas[k]} - known))
  {
    assert replicas[..k + 1] == replicas[..k] + [replicas[k]];
    assert Members(replicas[..k + 1]) == Members(replicas[..k]) + {replicas[k]};
  }

  lemma AskedAll(replicas: seq<nat>, before: set<nat>, downloaded: set<nat>, asked: set<nat>)
    requires AskedSoFar(replicas, before, downloaded, asked)
    ensures asked == Members(replicas) - before && downloaded <= before + Members(replicas)
  {
  }

  // ---- stripes of a volume ----

  ghost predicate Grown(before: Shards, after: Shards) {
    before.Keys == after.Keys && forall b | b in before :: before[b].Keys <= after[b].Keys
  }

  ghost predicate StripeStep(st: Stripe, bad: seq<nat>, avail: set<nat>, before: set<nat>, known: set<nat>,
                             after: set<nat>, known': set<nat>) {
    && Helped(st, bad, before, after)
    && (CaughtUp(before, known, avail) ==> StripeDone(st, bad, avail, before, after, known'))
  }

  ghost predicate AllStep(env: Env, bids: seq<Bid>, forbidden: set<nat>, st: Stripe, bad: seq<nat>,
                          before: Shards, known: set<nat>, after: Shards, known': set<nat>) {
    forall b | b in bids && b in before && b in after && b in env.sizes && env.sizes[b] > 0 ::
      StripeStep(st, bad, env.Avail(b, forbidden), before[b].Keys, known, after[b].Keys, known')
  }

  lemma GrownSame(a: Shards)
    ensures Grown(a, a)
  {
  }

  lemma GrownTwice(a: Shards, b: Shards, c: Shards)
    requires Grown(a, b) && Grown(b, c)
    ensures Grown(a, c)
  {
  }

  lemma EmptyGrows(env: Env, bufs: set<nat>, more: set<nat>, b: Bid, got: map<nat, Bytes>, got': map<nat, Bytes>)
    requires b in env.sizes && env.sizes[b] == 0 && bufs <= more
    requires BidOk(env, bufs, b, got) && BidOk(env, more, b, got')
    ensures got.Keys <= got'.Keys
  {
  }

  lemma EnvFacts(env: Env)
    requires env.Valid()
    ensures env.t.Valid() && (env.t.L > 0 ==> env.t.SurvivesZone())
    ensures forall az: nat :: az in env.zones <==> az < env.t.AZCount
    ensures Distinct(env.zones)
    ensures env.t.L > 0 ==> forall az: nat | az < env.t.AZCount :: env.StripeOk(env.Local(az))
  {
  }

  lemma HasZones(env: Env)
    requires env.Valid()
    ensures env.t.AZCount > 0
  {
  }

  lemma BelowTotal(env: Env, idxs: seq<nat>)
    requires forall i | i in idxs :: i < env.t.N + env.t.M
    ensures forall i | i in idxs :: i < env.t.Total()
  {
  }

  lemma GlobalOk(env: Env, idxs: seq<nat>)
    requires env.Valid() && forall i | i in idxs :: i < env.t.N + env.t.M
    ensures env.StripeOk(env.Global())
    ensures forall i | i in idxs :: i in env.Global().replicas
  {
    forall i | i in idxs
      ensures i in env.Global().replicas
    {
      InSpan(0, env.t.N + env.t.M, i);
    }
  }

  lemma BadInZone(env: Env, az: nat, bad: seq<nat>)
    requires env.Valid() && env.t.L > 0 && az < env.t.AZCount
    requires forall i | i in bad :: i < env.t.Total() && env.t.ZoneOf(i) == az
    ensures env.StripeOk(env.Local(az)) && forall i | i in bad :: i in env.Local(az).replicas
  {
    forall i | i in bad
      ensures i in env.Local(az).replicas
    {
      ZonesPartition(env.t, az, i);
    }
  }

  // ---- one repair index ----

  /** The bid has the shard, or enough shards of its local stripe or of the global one. */
  ghost predicate Enough(env: Env, idx: nat, have: set<nat>, avail: set<nat>)
    requires env.t.AZCount > 0
  {
    || idx in have
    || (env.t.L > 0 && CountIn(env.HomeStripe(idx).replicas, have + avail) >= env.HomeStripe(idx).n)
    || CountIn(env.Global().replicas, have + avail) >= env.t.N
  }

  lemma {:induction false} CountOne(s: seq<nat>, i: nat)
    requires Distinct(s)
    ensures CountIn(s, Members([i])) <= 1
  {
    if s != [] {
      var n := |s| - 1;
      CountOne(s[..n], i);
      if s[n] == i {
        CountNone(s[..n], Members([i]));
      }
    }
  }

  lemma {:induction false} CountNone(s: seq<nat>, x: set<nat>)
    requires forall i | i in s :: i !in x
    ensures CountIn(s, x) == 0
  {
    if s != [] {
      CountNone(s[..|s| - 1], x);
    }
  }

  lemma OneIsTolerable(env: Env, idx: nat)
    requires env.Valid() && idx < env.t.Total()
    ensures Tolerable(env.Global(), [idx])
    ensures env.t.L > 0 ==> Tolerable(env.HomeStripe(idx), [idx])
  {
    CountOne(env.Global().replicas, idx);
    if env.t.L > 0 {
      ZonesPartition(env.t, 0, idx);
      ZoneIsSimple(env.t, env.t.ZoneOf(idx));
      CountOne(env.HomeStripe(idx).replicas, idx);
      ShareBound(env.t.L, env.t.AZCount, 0);
    }
  }

  /** What holds of a bid that its local stripe could not repair. */
  ghost predicate LocalFailed(env: Env, idx: nat, avail: set<nat>, before: set<nat>, after: set<nat>)
    requires env.t.AZCount > 0
  {
    && idx !in after && before <= after <= before + avail
    && (env.t.L > 0 ==>
          && Members(env.HomeStripe(idx).replicas) * avail <= after
          && CountIn(env.HomeStripe(idx).replicas, before + avail) < env.HomeStripe(idx).n)
  }

  lemma AfterLocal(env: Env, idx: nat, avail: set<nat>, before: set<nat>, known: set<nat>, after: set<nat>,
                   known': set<nat>)
    requires env.Valid() && idx < env.t.Total() && idx !in avail && CaughtUp(before, known, avail) && before <= after
    requires env.t.L > 0 && StripeStep(env.HomeStripe(idx), [idx], avail, before, known, after, known')
    ensures idx in after ==> Enough(env, idx, before, avail)
    ensures idx !in after ==> LocalFailed(env, idx, avail, before, after) && CaughtUp(after, known', avail)
  {
    var st := env.HomeStripe(idx);
    OneIsTolerable(env, idx);
    assert AllOk(after, [idx]) <==> idx in after;
    assert AllOk(before, [idx]) <==> idx in before;
    assert Well(st, [idx]) * avail == Members(st.replicas) * avail;
    CountSame(st.replicas, before + Well(st, [idx]) * avail, before + avail);
  }

  lemma AfterGlobal(env: Env, idx: nat, avail: set<nat>, start: set<nat>, before: set<nat>, known: set<nat>,
                    after: set<nat>, known': set<nat>)
    requires env.Valid() && idx < env.t.N + env.t.M && idx !in avail
    requires LocalFailed(env, idx, avail, start, before) && CaughtUp(before, known, avail)
    requires StripeStep(env.Global(), [idx], avail, before, known, after, known')
    ensures idx in after <==> Enough(env, idx, start, avail)
  {
    var st := env.Global();
    OneIsTolerable(env, idx);
    assert AllOk(after, [idx]) <==> idx in after;
    assert AllOk(before, [idx]) <==> idx in before;
    assert Well(st, [idx]) * avail == Members(st.replicas) * avail;
    CountSame(st.replicas, before + Well(st, [idx]) * avail, start + avail);
  }

  /** The data and parity shards of the zone of an index. */
  ghost function ZoneGlobals(env: Env, idx: nat): seq<nat>
    requires env.t.AZCount > 0
  {
    var st := env.HomeStripe(idx);
    if st.n <= |st.replicas| then st.replicas[..st.n] else st.replicas
  }

  /** The global shards of the zone that some failing bid misses are few enough for the global stripe. */
  ghost predicate Gathered(env: Env, idx: nat, bad: seq<nat>, have: set<nat>)
    requires env.t.AZCount > 0
  {
    && (forall i | i in bad :: i in ZoneGlobals(env, idx))
    && (forall i | i in ZoneGlobals(env, idx) && i !in bad :: i in have)
  }

  lemma {:induction false} CountBySize(s: seq<nat>, x: set<nat>)
    requires Distinct(s)
    ensures CountIn(s, x) <= |x|
  {
    if s != [] {
      var n := |s| - 1;
      if s[n] in x {
        CountBySize(s[..n], x - {s[n]});
        CountSame(s[..n], x, x - {s[n]});
      } else {
        CountBySize(s[..n], x);
      }
    }
  }

  lemma ZoneGlobalsAreFew(env: Env, idx: nat, bad: seq<nat>)
    requires env.Valid() && env.t.L > 0 && idx < env.t.Total()
    requires forall i | i in bad :: i in ZoneGlobals(env, idx)
    ensures Tolerable(env.Global(), bad)
    ensures |ZoneGlobals(env, idx)| == env.HomeStripe(idx).n
    ensures forall i | i in bad :: i in env.Global().replicas
    ensures forall i | i in ZoneGlobals(env, idx) :: i in env.HomeStripe(idx).replicas && i < env.t.N + env.t.M
  {
    ZonesPartition(env.t, 0, idx);
    ZoneIsSimple(env.t, env.t.ZoneOf(idx));
    SubsetSize(Members(bad), Members(ZoneGlobals(env, idx)));
    DistinctSize(ZoneGlobals(env, idx));
    CountBySize(env.Global().replicas, Members(bad));
    forall i | i in bad
      ensures i in env.Global().replicas
    {
      InSpan(0, env.t.N + env.t.M, i);
    }
  }

  lemma ZoneGlobalsSuffice(env: Env, idx: nat, have: set<nat>)
    requires env.Valid() && env.t.L > 0 && idx < env.t.Total()
    requires forall i | i in ZoneGlobals(env, idx) :: i in have
    ensures CountIn(env.HomeStripe(idx).replicas, have) >= env.HomeStripe(idx).n
  {
    var st := env.HomeStripe(idx);
    ZoneGlobalsAreFew(env, idx, []);
    CountAll(ZoneGlobals(env, idx), have);
    assert st.replicas == st.replicas[..st.n] + st.replicas[st.n..];
    CountConcat(st.replicas[..st.n], st.replicas[st.n..], have);
  }

  lemma AfterGlobalBad(env: Env, idx: nat, bad: seq<nat>, avail: set<nat>, start: set<nat>, before: set<nat>,
                       known: set<nat>, after: set<nat>, known': set<nat>)
    requires env.Valid() && env.t.L > 0 && idx < env.t.Total()
    requires LocalFailed(env, idx, avail, start, before) && CaughtUp(before, known, avail)
    requires Gathered(env, idx, bad, before) && before <= after
    requires StripeStep(env.Global(), bad, avail, before, known, after, known')
    ensures (forall i | i in ZoneGlobals(env, idx) :: i in after) || after <= start + avail
    ensures CountIn(env.Global().replicas, start + avail) >= env.t.N ==>
      forall i | i in ZoneGlobals(env, idx) :: i in after
    ensures CountIn(env.Global().replicas, start + avail) < env.t.N ==>
              after <= start + avail && CaughtUp(after, known', avail)
  {
    var st := env.Global();
    ZoneGlobalsAreFew(env, idx, bad);
    if AllOk(before, bad) {
      ZoneGlobalsSuffice(env, idx, before);
      CountMonotone(env.HomeStripe(idx).replicas, before, start + avail);
    } else {
      assert forall i | i in bad :: i in Members(env.HomeStripe(idx).replicas);
      CountSame(st.replicas, before + Well(st, bad) * avail, start + avail);
    }
  }

  lemma AfterLocalAgain(env: Env, idx: nat, avail: set<nat>, start: set<nat>, before: set<nat>, known: set<nat>,
                        after: set<nat>, known': set<nat>)
    requires env.Valid() && env.t.L > 0 && idx < env.t.Total() && idx !in start + avail
    requires CountIn(env.HomeStripe(idx).replicas, start + avail) < env.HomeStripe(idx).n
    requires CountIn(env.Global().replicas, start + avail) >= env.t.N ==>
               forall i | i in ZoneGlobals(env, idx) :: i in before
    requires CountIn(env.Global().replicas, start + avail) < env.t.N ==>
               before <= start + avail && CaughtUp(before, known, avail)
    requires StripeStep(env.HomeStripe(idx), [idx], avail, before, known, after, known')
    ensures idx in after <==> Enough(env, idx, start, avail)
  {
    var st := env.HomeStripe(idx);
    OneIsTolerable(env, idx);
    assert AllOk(after, [idx]) <==> idx in after;
    if CountIn(env.Global().replicas, start + avail) >= env.t.N {
      ZoneGlobalsSuffice(env, idx, before);
    } else {
      assert AllOk(before, [idx]) <==> idx in before;
      CountMonotone(st.replicas, before + Well(st, [idx]) * avail, start + avail);
    }
  }

  // ---- one repair index, all bids ----

  ghost predicate Sized(env: Env, b: Bid) {
    b in env.sizes && env.sizes[b] > 0
  }

  ghost predicate Ready(env: Env, bids: seq<Bid>, forbidden: set<nat>, idx: nat, start: Shards, known: set<nat>) {
    idx in forbidden &&
    forall b | b in bids && Sized(env, b) && b in start :: CaughtUp(start[b].Keys, known, env.Avail(b, forbidden))
  }

  ghost predicate AllEnough(env: Env, bids: seq<Bid>, forbidden: set<nat>, idx: nat, start: Shards)
    requires env.t.AZCount > 0
  {
    forall b | b in bids && Sized(env, b) && b in start :: Enough(env, idx, start[b].Keys, env.Avail(b, forbidden))
  }

  ghost predicate FailedBid(env: Env, idx: nat, avail: set<nat>, start: set<nat>, mid: set<nat>, asked: set<nat>)
    requires env.t.AZCount > 0
  {
    idx !in avail && LocalFailed(env, idx, avail, start, mid) && CaughtUp(mid, asked, avail)
  }

  ghost predicate FailedAll(env: Env, bids: seq<Bid>, forbidden: set<nat>, idx: nat, start: Shards, mid: Shards,
                            asked: set<nat>)
    requires env.t.AZCount > 0
  {
    forall b | b in bids && Sized(env, b) && b in start && b in mid ::
      FailedBid(env, idx, env.Avail(b, forbidden), start[b].Keys, mid[b].Keys, asked)
  }

  ghost predicate MidBid(env: Env, idx: nat, avail: set<nat>, start: set<nat>, next: set<nat>, asked: set<nat>)
    requires env.t.AZCount > 0
  {
    if CountIn(env.Global().replicas, start + avail) >= env.t.N then
      forall i | i in ZoneGlobals(env, idx) :: i in next
    else
      next <= start + avail && CaughtUp(next, asked, avail)
  }

  ghost predicate MidAll(env: Env, bids: seq<Bid>, forbidden: set<nat>, idx: nat, start: Shards, next: Shards,
                         asked: set<nat>)
    requires env.t.AZCount > 0
  {
    forall b | b in bids && Sized(env, b) && b in start && b in next ::
      MidBid(env, idx, env.Avail(b, forbidden), start[b].Keys, next[b].Keys, asked)
  }

  lemma LocalBid(env: Env, idx: nat, avail: set<nat>, before: set<nat>, known: set<nat>, after: set<nat>,
                 known': set<nat>)
    requires env.Valid() && idx < env.t.Total() && idx !in avail && CaughtUp(before, known, avail) && before <= after
    requires env.t.L > 0 ==> StripeStep(env.HomeStripe(idx), [idx], avail, before, known, after, known')
    requires env.t.L == 0 ==> after == before && known' == known
    ensures idx in after ==> Enough(env, idx, before, avail)
    ensures idx !in after ==> FailedBid(env, idx, avail, before, after, known')
  {
    if env.t.L > 0 {
      AfterLocal(env, idx, avail, before, known, after, known');
    }
  }

  lemma LocalOutcome(env: Env, bids: seq<Bid>, fail: seq<Bid>, forbidden: set<nat>, idxs: seq<nat>,
                     start: Shards, known: set<nat>, mid: Shards, asked: set<nat>)
    requires env.Valid() && |idxs| == 1 && idxs[0] < env.t.Total() && Ready(env, bids, forbidden, idxs[0], start, known)
    requires Grown(start, mid) && forall b | b in bids :: b in start
    requires forall b :: b in fail <==> b in bids && b in mid && !AllOk(mid[b].Keys, idxs)
    requires env.t.L > 0 ==> AllStep(env, bids, forbidden, env.HomeStripe(idxs[0]), idxs, start, known, mid, asked)
    requires env.t.L == 0 ==> mid == start && asked == known
    ensures FailedAll(env, fail, forbidden, idxs[0], start, mid, asked)
    ensures AllEnough(env, bids, forbidden, idxs[0], start) <==> AllEnough(env, fail, forbidden, idxs[0], start)
  {
    hide FailedBid, Enough, StripeStep, Env.HomeStripe, CaughtUp;
    var idx := idxs[0];
    assert idxs == [idx];
    forall b | b in bids && Sized(env, b)
      ensures b in fail ==> FailedBid(env, idx, env.Avail(b, forbidden), start[b].Keys, mid[b].Keys, asked)
      ensures b !in fail ==> Enough(env, idx, start[b].Keys, env.Avail(b, forbidden))
    {
      LocalBid(env, idx, env.Avail(b, forbidden), start[b].Keys, known, mid[b].Keys, asked);
    }
  }

  lemma GlobalOutcome(env: Env, fail: seq<Bid>, fail': seq<Bid>, forbidden: set<nat>, idxs: seq<nat>,
                      start: Shards, mid: Shards, asked: set<nat>, after: Shards, asked': set<nat>)
    requires env.Valid() && |idxs| == 1 && idxs[0] < env.t.N + env.t.M
    requires FailedAll(env, fail, forbidden, idxs[0], start, mid, asked)
    requires AllStep(env, fail, forbidden, env.Global(), idxs, mid, asked, after, asked')
    requires start.Keys == mid.Keys == after.Keys == env.sizes.Keys && forall b | b in fail :: b in start
    requires forall b :: b in fail' <==> b in fail && b in after && !AllOk(after[b].Keys, idxs)
    requires forall b | b in fail && b in after && !Sized(env, b) :: idxs[0] in after[b]
    ensures fail' == [] <==> AllEnough(env, fail, forbidden, idxs[0], start)
  {
    hide Enough, StripeStep, CaughtUp, LocalFailed;
    var idx := idxs[0];
    assert idxs == [idx];
    forall b | b in fail && Sized(env, b)
      ensures b in fail' <==> !Enough(env, idx, start[b].Keys, env.Avail(b, forbidden))
    {
      AfterGlobal(env, idx, env.Avail(b, forbidden), start[b].Keys, mid[b].Keys, asked, after[b].Keys, asked');
    }
    assert fail' != [] ==> fail'[0] in fail';
  }

  lemma MidOutcome(env: Env, bids: seq<Bid>, forbidden: set<nat>, idx: nat, globals: seq<nat>, bad: seq<nat>,
                   start: Shards, mid: Shards, asked: set<nat>, next: Shards, asked': set<nat>)
    requires env.Valid() && env.t.L > 0 && idx < env.t.Total()
    requires FailedAll(env, bids, forbidden, idx, start, mid, asked)
    requires forall g :: g in globals <==> g in ZoneGlobals(env, idx)
    requires forall g | g in bad :: g in globals
    requires forall b, g | b in bids && b in mid && g in globals && g !in bad :: g in mid[b]
    requires AllStep(env, bids, forbidden, env.Global(), bad, mid, asked, next, asked') && Grown(mid, next)
    ensures MidAll(env, bids, forbidden, idx, start, next, asked')
  {
    hide StripeStep, CaughtUp, LocalFailed;
    forall b | b in bids && Sized(env, b) && b in start && b in next
      ensures MidBid(env, idx, env.Avail(b, forbidden), start[b].Keys, next[b].Keys, asked')
    {
      AfterGlobalBad(env, idx, bad, env.Avail(b, forbidden), start[b].Keys, mid[b].Keys, asked, next[b].Keys, asked');
    }
  }

  lemma AgainOutcome(env: Env, bids: seq<Bid>, fail: seq<Bid>, forbidden: set<nat>, idxs: seq<nat>,
                     start: Shards, mid: Shards, asked: set<nat>, next: Shards, asked': set<nat>,
                     after: Shards, asked'': set<nat>)
    requires env.Valid() && env.t.L > 0 && |idxs| == 1 && idxs[0] < env.t.Total()
    requires FailedAll(env, bids, forbidden, idxs[0], start, mid, asked)
    requires MidAll(env, bids, forbidden, idxs[0], start, next, asked')
    requires AllStep(env, bids, forbidden, env.HomeStripe(idxs[0]), idxs, next, asked', after, asked'')
    requires start.Keys == mid.Keys == next.Keys == after.Keys == env.sizes.Keys && forall b | b in bids :: b in start
    requires forall b :: b in fail <==> b in bids && b in after && !AllOk(after[b].Keys, idxs)
    requires forall b | b in bids && b in after && !Sized(env, b) :: idxs[0] in after[b]
    ensures fail == [] <==> AllEnough(env, bids, forbidden, idxs[0], start)
  {
    hide Enough, StripeStep, CaughtUp, Env.HomeStripe, ZoneGlobals;
    var idx := idxs[0];
    assert idxs == [idx];
    forall b | b in bids && Sized(env, b)
      ensures b in fail <==> !Enough(env, idx, start[b].Keys, env.Avail(b, forbidden))
    {
      AfterLocalAgain(env, idx, env.Avail(b, forbidden), start[b].Keys, next[b].Keys, asked', after[b].Keys, asked'');
    }
    assert fail != [] ==> fail[0] in fail;
  }

  lemma NoneFails(env: Env, forbidden: set<nat>, idx: nat, start: Shards)
    requires env.t.AZCount > 0
    ensures AllEnough(env, [], forbidden, idx, start)
  {
  }

  lemma AllOkGrows(bids: seq<Bid>, fail: seq<Bid>, idxs: seq<nat>, mid: Shards, after: Shards)
    requires Grown(mid, after) && forall b | b in bids :: b in mid
    requires forall b :: b in fail <==> b in bids && b in mid && !AllOk(mid[b].Keys, idxs)
    requires forall b | b in fail && b in after :: AllOk(after[b].Keys, idxs)
    ensures forall b | b in bids && b in after :: AllOk(after[b].Keys, idxs)
  {
  }

  lemma OkStays(bids: seq<Bid>, idxs: seq<nat>, mid: Shards, after: Shards)
    requires Grown(mid, after) && forall b | b in mid :: b in bids || AllOk(mid[b].Keys, idxs)
    ensures forall b | b in after :: b in bids || AllOk(after[b].Keys, idxs)
  {
  }

  lemma EmptyAreOk(env: Env, bufs: set<nat>, shards: Shards)
    requires shards.Keys == env.sizes.Keys && forall b | b in shards :: BidOk(env, bufs, b, shards[b])
    ensures forall b | b in shards && !Sized(env, b) :: shards[b].Keys == bufs
  {
  }

  lemma GlobalInBufs(env: Env, idxs: seq<nat>, bufs: set<nat>)
    requires forall i | i in idxs :: i < env.t.N + env.t.M
    requires forall i | i in env.Global().replicas :: i in bufs
    ensures forall i | i in idxs :: i in bufs
  {
    forall i | i in idxs
      ensures i in bufs
    {
      InSpan(0, env.t.N + env.t.M, i);
    }
  }

  /**
   * When the shard idx of a bid can be recovered: it is empty, or it can be fetched itself, or
   * enough others of its local stripe or of the global stripe can.
   */
  ghost predicate Recoverable(env: Env, idx: nat, b: Bid, direct: bool, forbidden: set<nat>)
    requires env.t.AZCount > 0
  {
    var others := env.Avail(b, forbidden + {idx});
    || !Sized(env, b)
    || (direct && idx in env.Avail(b, forbidden))
    || (env.t.L > 0 && CountIn(env.HomeStripe(idx).replicas, others) >= env.HomeStripe(idx).n)
    || CountIn(env.Global().replicas, others) >= env.t.N
  }

  ghost predicate AllRecoverable(env: Env, idx: nat, direct: bool, forbidden: set<nat>)
    requires env.t.AZCount > 0
  {
    forall b | b in env.sizes :: Recoverable(env, idx, b, direct, forbidden)
  }

  lemma RecoverableIsEnough(env: Env, idx: nat, b: Bid, direct: bool, forbidden: set<nat>, have: set<nat>)
    requires env.t.AZCount > 0 && Sized(env, b)
    requires have == if direct then {idx} * env.Avail(b, forbidden) else {}
    ensures Recoverable(env, idx, b, direct, forbidden) <==> Enough(env, idx, have, env.Avail(b, forbidden + {idx}))
  {
    if idx !in have {
      assert have == {};
      assert {} + env.Avail(b, forbidden + {idx}) == env.Avail(b, forbidden + {idx});
    }
  }

  lemma DirectOutcome(env: Env, bids: seq<Bid>, idxs: seq<nat>, direct: bool, forbidden: set<nat>,
                      start: Shards, mid: Shards, asked: set<nat>)
    requires env.t.AZCount > 0 && |idxs| == 1 && start.Keys == mid.Keys == env.sizes.Keys
    requires forall b :: b in env.bids <==> b in env.sizes
    requires forall b | b in start :: start[b] == map[]
    requires !direct ==> bids == env.bids && mid == start && asked == {}
    requires direct ==>
      && (forall b :: b in bids <==> b in env.bids && b in mid && !AllOk(mid[b].Keys, idxs))
      && asked <= Members(idxs)
      && (forall b | b in mid && Sized(env, b) ::
            Gains(start[b].Keys, mid[b].Keys, Members(idxs) - {}, env.Avail(b, forbidden)))
    ensures Ready(env, bids, forbidden + Members(idxs), idxs[0], mid, asked)
    ensures AllEnough(env, bids, forbidden + Members(idxs), idxs[0], mid) <==>
              AllRecoverable(env, idxs[0], direct, forbidden)
  {
    var idx := idxs[0];
    hide Recoverable, Enough, Env.HomeStripe;
    assert idxs == [idx];
    assert Members(idxs) == {idx};
    forall b | b in env.sizes
      ensures b in bids && Sized(env, b) ==>
        (Recoverable(env, idx, b, direct, forbidden) <==>
         Enough(env, idx, mid[b].Keys, env.Avail(b, forbidden + {idx})))
      ensures !(b in bids && Sized(env, b)) ==> Recoverable(env, idx, b, direct, forbidden)
    {
      if Sized(env, b) {
        RecoverableIsEnough(env, idx, b, direct, forbidden, mid[b].Keys);
        if b !in bids {
          HasIsEnough(env, idx, mid[b].Keys, env.Avail(b, forbidden + {idx}));
        }
      } else {
        EmptyIsRecoverable(env, idx, b, direct, forbidden);
      }
    }
  }

  lemma HasIsEnough(env: Env, idx: nat, have: set<nat>, avail: set<nat>)
    requires env.t.AZCount > 0 && idx in have
    ensures Enough(env, idx, have, avail)
  {
  }

  lemma EmptyIsRecoverable(env: Env, idx: nat, b: Bid, direct: bool, forbidden: set<nat>)
    requires env.t.AZCount > 0 && !Sized(env, b)
    ensures Recoverable(env, idx, b, direct, forbidden)
  {
  }

  lemma LocalIsParity(env: Env, i: nat)
    requires env.Valid() && i < env.t.Total() && env.t.AZCount > 0
    ensures env.IsLocal(i) <==> i >= env.t.N + env.t.M
  {
    hide Env.StripeOk, Quotient, Modulo, Times, ThreeSpans;
    if env.t.L > 0 {
      var st := env.HomeStripe(i);
      ZonesPartition(env.t, 0, i);
      ZonesPartition(env.t, env.t.ZoneOf(i), i);
      ZoneIsSimple(env.t, env.t.ZoneOf(i));
      assert forall k | st.n <= k < |st.replicas| :: st.replicas[k] == st.replicas[st.n..][k - st.n];
    }
  }

  lemma LocalMeansParity(env: Env, i: nat)
    requires env.t.N + env.t.M <= i < env.t.Total()
    ensures env.t.L > 0
  {
  }

  lemma BidsAreKeys(env: Env)
    requires env.Valid()
    ensures forall b :: b in env.bids <==> b in env.sizes
  {
  }

  lemma NothingIsOk(have: set<nat>)
    ensures AllOk(have, [])
  {
  }

  lemma BothAreOk(bids: seq<Bid>, idxs: seq<nat>, globals: seq<nat>, locals: seq<nat>, mid: Shards, after: Shards)
    requires Grown(mid, after) && forall i | i in idxs :: i in globals || i in locals
    requires forall b | b in bids && b in mid :: AllOk(mid[b].Keys, globals)
    requires forall b | b in bids && b in after :: AllOk(after[b].Keys, locals)
    ensures forall b | b in bids && b in after :: AllOk(after[b].Keys, idxs)
  {
  }

  function WithEmpty(got: map<nat, Bytes>, i: nat): map<nat, Bytes> {
    got[i := []]
  }

  lemma AddBufKeeps(env: Env, bufs: set<nat>, b: Bid, got: map<nat, Bytes>, i: nat)
    requires env.Valid() && b in env.sizes && BidOk(env, bufs, b, got)
    ensures BidOk(env, bufs + {i}, b, if env.sizes[b] == 0 then WithEmpty(got, i) else got)
  {
  }

  lemma FetchIsTrue(env: Env, i: nat, b: Bid)
    requires env.Valid()
    ensures env.fetch(i, b).Some? ==> env.fetch(i, b).value == env.truth(i, b)
  {
  }
}
