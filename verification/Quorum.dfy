/**
 * Three decisions that count shards: when a put is acknowledged, which blobs a repair or a
 * migration must carry over, and when a volume is locked; and why they fit together.
 */
module Quorum {

  import opened Wrappers
  import opened CodeMode
  import opened Counting
  import R = ReadBlob

  type Bid = nat

  /** Those of the shards that are data or parity. */
  function Globals(t: Tactic, shards: set<nat>): set<nat> {
    set i | i in shards && i < t.N + t.M
  }

  // ---- acknowledging a put ----

  /** All shards of every zone but one were written, and none of that one. */
  ghost predicate OneZoneDown(t: Tactic, succ: set<nat>, down: nat)
    requires t.AZCount > 0
  {
    down < t.AZCount &&
    forall az: nat | az < t.AZCount :: if az == down then ZoneDown(t, succ, az) else ZoneFine(t, succ, az)
  }

  ghost predicate ZoneFine(t: Tactic, succ: set<nat>, az: nat)
    requires t.AZCount > 0
  {
    forall i | i in t.Zone(az) :: i in succ
  }

  ghost predicate ZoneDown(t: Tactic, succ: set<nat>, az: nat)
    requires t.AZCount > 0
  {
    forall i | i in t.Zone(az) :: i !in succ
  }

  ghost predicate Acknowledged(t: Tactic, succ: set<nat>, quorum: nat)
    requires t.AZCount > 0
  {
    |Globals(t, succ)| >= quorum || (t.AZCount >= 3 && exists down: nat :: OneZoneDown(t, succ, down))
  }

  /** How one zone came out. */
  method JudgeZone(t: Tactic, succ: set<nat>, az: nat) returns (fine: bool, down: bool)
    requires t.AZCount > 0
    ensures fine <==> ZoneFine(t, succ, az)
    ensures down <==> ZoneDown(t, succ, az)
  {
    fine, down := true, true;
    var zone := t.Zone(az);
    for k := 0 to |zone|
      invariant fine <==> forall j | 0 <= j < k :: zone[j] in succ
      invariant down <==> forall j | 0 <= j < k :: zone[j] !in succ
    {
      if zone[k] !in succ {
        fine := false;
      } else {
        down := false;
      }
    }
  }

  /** Whether one zone was down and the others complete, by counting both kinds of zones. */
  method ToleratesZone(t: Tactic, succ: set<nat>) returns (ok: bool)
    requires t.Valid()
    ensures ok <==> t.AZCount >= 3 && exists down: nat :: OneZoneDown(t, succ, down)
  {
    if t.AZCount < 3 {
      return false;
    }
    var allFine, allDown := 0, 0;
    ghost var fines: set<nat>, downs: set<nat> := {}, {};
    for az := 0 to t.AZCount
      invariant allFine == |fines| && allDown == |downs|
      invariant forall z: nat :: z in fines <==> z < az && ZoneFine(t, succ, z)
      invariant forall z: nat :: z in downs <==> z < az && ZoneDown(t, succ, z)
    {
      var fine, down := JudgeZone(t, succ, az);
      if fine {
        allFine := allFine + 1;
        fines := fines + {az};
      }
      if down {
        allDown := allDown + 1;
        downs := downs + {az};
      }
    }
    ok := allFine == t.AZCount - 1 && allDown == 1;
    ZonesCounted(t, succ, fines, downs);
  }

  lemma FineIsNotDown(t: Tactic, succ: set<nat>, az: nat)
    requires t.Valid() && az < t.AZCount
    ensures !(ZoneFine(t, succ, az) && ZoneDown(t, succ, az))
  {
    ZoneIsSimple(t, az);
    ShareBound(t.N, t.AZCount, az);
    assert t.Zone(az)[0] in t.Zone(az);
  }

  lemma OneMissing(n: nat, fines: set<nat>, downs: set<nat>)
    requires n > 0 && fines !! downs && forall z | z in fines || z in downs :: z < n
    ensures |fines| == n - 1 && |downs| == 1 <==>
      exists d: nat :: d < n && downs == {d} && forall z: nat | z < n :: z in fines <==> z != d
  {
    if |fines| == n - 1 && |downs| == 1 {
      OnlyMissing(n, fines, downs);
    }
    if d: nat :| d < n && downs == {d} && forall z: nat | z < n :: z in fines <==> z != d {
      FullSize(fines + {d}, n);
      BoundedSize(fines + {d}, n);
    }
  }

  lemma OnlyMissing(n: nat, fines: set<nat>, downs: set<nat>)
    requires n > 0 && fines !! downs && forall z | z in fines || z in downs :: z < n
    requires |fines| == n - 1 && |downs| == 1
    ensures exists d: nat :: d < n && downs == {d} && forall z: nat | z < n :: z in fines <==> z != d
  {
    var d :| d in downs;
    SubsetSize({d}, downs);
    assert downs == {d};
    assert |fines + {d}| == n;
    BoundedSize(fines + {d}, n);
    assert d < n && downs == {d} && forall z: nat | z < n :: z in fines <==> z != d;
  }

  lemma ZonesCounted(t: Tactic, succ: set<nat>, fines: set<nat>, downs: set<nat>)
    requires t.Valid()
    requires forall z: nat :: z in fines <==> z < t.AZCount && ZoneFine(t, succ, z)
    requires forall z: nat :: z in downs <==> z < t.AZCount && ZoneDown(t, succ, z)
    ensures |fines| == t.AZCount - 1 && |downs| == 1 <==> exists down: nat :: OneZoneDown(t, succ, down)
  {
    assert t.AZCount > 0;
    hide ZoneFine, ZoneDown, Tactic.Valid;
    forall z: nat | z < t.AZCount
      ensures !(z in fines && z in downs)
    {
      FineIsNotDown(t, succ, z);
    }
    OneMissing(t.AZCount, fines, downs);
    if d: nat :| d < t.AZCount && downs == {d} && forall z: nat | z < t.AZCount :: z in fines <==> z != d {
      assert d in downs;
      assert OneZoneDown(t, succ, d);
    }
    if d: nat :| OneZoneDown(t, succ, d) {
      assert ZoneDown(t, succ, d);
      assert d in downs;
      forall z: nat | z < t.AZCount
        ensures z in fines <==> z != d
      {
      }
      assert downs == {d};
    }
  }

  function Succeeded(t: Tactic, written: nat -> bool): set<nat> {
    set i: nat | i < t.Total() && written(i)
  }

  /** In strictly ascending order, and below a bound. */
  ghost predicate Ascending(idxs: seq<nat>, bound: nat) {
    && (forall j | 0 <= j < |idxs| :: idxs[j] < bound)
    && forall j, k | 0 <= j < k < |idxs| :: idxs[j] < idxs[k]
  }

  /** What is known of the shard writes before i. */
  ghost predicate Collected(t: Tactic, written: nat -> bool, i: nat, badIdx: seq<nat>, succ: set<nat>) {
    && (forall j: nat :: j in succ <==> j < i && written(j))
    && (forall j: nat :: j in badIdx <==> j < i && !written(j))
    && Ascending(badIdx, i)
  }

  lemma CollectOne(t: Tactic, written: nat -> bool, i: nat, badIdx: seq<nat>, succ: set<nat>)
    requires Collected(t, written, i, badIdx, succ)
    ensures written(i) ==> Collected(t, written, i + 1, badIdx, succ + {i})
    ensures !written(i) ==> Collected(t, written, i + 1, badIdx + [i], succ)
    ensures |Globals(t, succ + {i})| == |Globals(t, succ)| + if i < t.N + t.M then 1 else 0
  {
    assert i !in succ;
    if i < t.N + t.M {
      assert Globals(t, succ + {i}) == Globals(t, succ) + {i};
    } else {
      assert Globals(t, succ + {i}) == Globals(t, succ);
    }
  }

  /** The results of the shard writes: the failed ones in order, and how many global ones succeeded. */
  method CollectWrites(t: Tactic, written: nat -> bool) returns (badIdx: seq<nat>, succ: set<nat>, writtenNum: nat)
    ensures succ == Succeeded(t, written) && writtenNum == |Globals(t, succ)|
    ensures forall i: nat :: i in badIdx <==> i < t.Total() && !written(i)
    ensures Ascending(badIdx, t.Total())
  {
    writtenNum, succ, badIdx := 0, {}, [];
    hide Ascending, Globals;
    NoGlobals(t);
    for i := 0 to t.Total()
      invariant Collected(t, written, i, badIdx, succ) && writtenNum == |Globals(t, succ)|
    {
      hide Collected;
      CollectOne(t, written, i, badIdx, succ);
      if written(i) {
        if i < t.N + t.M {
          writtenNum := writtenNum + 1;
        }
        succ := succ + {i};
      } else {
        badIdx := badIdx + [i];
      }
    }
  }

  lemma NoGlobals(t: Tactic)
    ensures |Globals(t, {})| == 0 && Ascending([], 0)
  {
  }

  /**
   * The end of a write: which shards failed, and whether the put is acknowledged.  written says
   * which of the N + M + L shard writes succeeded.
   */
  method WriteToBlobnodes(t: Tactic, quorum: nat, written: nat -> bool) returns (badIdx: seq<nat>, acked: bool)
    requires t.Valid()
    ensures forall i: nat :: i in badIdx <==> i < t.Total() && !written(i)
    ensures Ascending(badIdx, t.Total())
    ensures acked <==> Acknowledged(t, Succeeded(t, written), quorum)
  {
    assert t.AZCount > 0;
    hide Tactic.Valid, OneZoneDown, Succeeded, Globals, Ascending;
    var succ, writtenNum;
    badIdx, succ, writtenNum := CollectWrites(t, written);
    if writtenNum >= quorum {
      return badIdx, true;
    }
    acked := ToleratesZone(t, succ);
  }

  // ---- benchmark blobs ----

  /** What a replica lists of a blob. */
  datatype Stat = Stat(size: nat, markDeleted: bool)

  type Listing = map<Bid, Stat>

  /** A well replica lists its blobs; the others gave an error. */
  type Listings = map<nat, Listing>

  datatype Benchmark = Bids(bids: map<Bid, nat>) | NotEnoughReplicas | Panic

  function AllowFail(t: Tactic): int {
    t.N + t.M - t.PutQuorum
  }

  ghost function Exist(lists: Listings, b: Bid): set<nat> {
    set i | i in lists && b in lists[i]
  }

  ghost predicate MarkedSomewhere(lists: Listings, b: Bid) {
    exists i :: i in lists && b in lists[i] && lists[i][b].markDeleted
  }

  /** A blob that is listed, nowhere marked deleted and can still be decoded. */
  ghost predicate Carried(t: Tactic, lists: Listings, b: Bid) {
    !MarkedSomewhere(lists, b) && |Exist(lists, b)| >= t.N && Exist(lists, b) != {}
  }

  /** Some well replica lists the blob with this size. */
  ghost predicate SizeListed(lists: Listings, b: Bid, size: nat) {
    exists i :: i in lists && b in lists[i] && lists[i][b].size == size
  }

  /** The listings of the data and parity replicas that are not bad and answer. */
  method GetReplicasBids(t: Tactic, bad: seq<nat>, answer: nat -> Option<Listing>) returns (lists: Listings)
    ensures forall i :: i in lists <==> 0 <= i < t.N + t.M && i !in bad && answer(i).Some?
    ensures forall i | i in lists :: answer(i) == Some(lists[i])
  {
    lists := map[];
    for i := 0 to t.N + t.M
      invariant forall j :: j in lists <==> 0 <= j < i && j !in bad && answer(j).Some?
      invariant forall j | j in lists :: answer(j) == Some(lists[j])
    {
      if i !in bad && answer(i).Some? {
        lists := lists[i := answer(i).value];
      }
    }
  }

  /** Every blob that some well replica lists. */
  method MergeBids(lists: Listings) returns (all: map<Bid, nat>)
    ensures forall b :: b in all <==> Exist(lists, b) != {}
    ensures forall b | b in all :: SizeListed(lists, b, all[b])
  {
    all := map[];
    var left := lists.Keys;
    while left != {}
      invariant left <= lists.Keys
      invariant forall b :: b in all <==> exists i :: i in lists && i !in left && b in lists[i]
      invariant forall b | b in all :: SizeListed(lists, b, all[b])
      decreases left
    {
      var i :| i in left;
      left := left - {i};
      all := all + map b | b in lists[i] :: lists[i][b].size;
    }
    forall b
      ensures b in all <==> Exist(lists, b) != {}
    {
      if Exist(lists, b) != {} {
        var i :| i in Exist(lists, b);
      }
      if b in all {
        var i :| i in lists && b in lists[i];
        assert i in Exist(lists, b);
      }
    }
  }

  /** Counts the well replicas that have the blob and those that have not, until a mark is found. */
  method CountExist(lists: Listings, b: Bid) returns (marked: bool, exist: nat, notExist: nat)
    ensures marked <==> MarkedSomewhere(lists, b)
    ensures !marked ==> exist == |Exist(lists, b)| && exist + notExist == |lists|
  {
    marked, exist, notExist := false, 0, 0;
    var left := lists.Keys;
    ghost var found: set<nat> := {};
    while left != {}
      invariant left <= lists.Keys
      invariant forall i :: i in found <==> i in lists && i !in left && b in lists[i]
      invariant exist == |found| && exist + notExist + |left| == |lists|
      invariant forall i | i in lists && i !in left && b in lists[i] :: !lists[i][b].markDeleted
      decreases left
    {
      var i :| i in left;
      left := left - {i};
      if b !in lists[i] {
        notExist := notExist + 1;
      } else if lists[i][b].markDeleted {
        return true, exist, notExist;
      } else {
        exist := exist + 1;
        found := found + {i};
      }
    }
    assert found == Exist(lists, b);
  }

  /** The blobs that a repair or migration carries over, from the listings of the well replicas. */
  method GetBenchmarkBids(t: Tactic, lists: Listings) returns (r: Benchmark)
    requires t.N > 0 && t.PutQuorum <= t.N + t.M
    ensures r.NotEnoughReplicas? <==> |lists| < t.N + AllowFail(t)
    ensures !r.Panic?
    ensures r.Bids? ==> forall b :: b in r.bids <==> Carried(t, lists, b)
    ensures r.Bids? ==> forall b | b in r.bids :: SizeListed(lists, b, r.bids[b])
  {
    if |lists| < t.N + AllowFail(t) {
      return NotEnoughReplicas;
    }
    var all := MergeBids(lists);
    var left, bench: map<Bid, nat> := all.Keys, map[];
    while left != {}
      invariant left <= all.Keys
      invariant forall b :: b in bench <==> b in all && b !in left && Carried(t, lists, b)
      invariant forall b | b in bench :: SizeListed(lists, b, bench[b])
      decreases left
    {
      var b :| b in left;
      left := left - {b};
      var marked, exist, notExist := CountExist(lists, b);
      if marked {
        continue;
      }
      if exist >= t.N {
        bench := bench[b := all[b]];
        continue;
      }
      if notExist > AllowFail(t) {
        continue;
      }
      return Panic;
    }
    return Bids(bench);
  }

  /**
   * A blob stored on a write quorum of global shards and marked deleted nowhere is carried over,
   * whichever replicas fail to list.
   */
  lemma QuorumIsCarried(t: Tactic, lists: Listings, b: Bid, stored: set<nat>)
    requires t.N > 0 && t.PutQuorum <= t.N + t.M && |lists| >= t.N + AllowFail(t)
    requires forall i | i in lists :: i < t.N + t.M
    requires |Globals(t, stored)| >= t.PutQuorum
    requires forall i | i in lists && i in stored :: b in lists[i]
    requires !MarkedSomewhere(lists, b)
    ensures Carried(t, lists, b)
  {
    var s, w := Globals(t, stored), lists.Keys;
    BoundedSize(s + w, t.N + t.M);
    assert |s + w| + |s * w| == |s| + |w|;
    SubsetSize(s * w, Exist(lists, b));
  }

  /** Enough data and parity replicas list, each one the blob exactly if it stores it, unmarked. */
  ghost predicate ListsOf(t: Tactic, lists: Listings, b: Bid, stored: set<nat>) {
    && |lists| >= t.N + AllowFail(t) && (forall i | i in lists :: i < t.N + t.M)
    && (forall i | i in lists :: b in lists[i] <==> i in stored)
    && !MarkedSomewhere(lists, b)
  }

  lemma {:induction false} SubsetOfSize(s: set<nat>, k: nat) returns (sub: set<nat>)
    requires k <= |s|
    ensures sub <= s && |sub| == k
    decreases |s|
  {
    if k == |s| {
      sub := s;
    } else {
      var x :| x in s;
      sub := SubsetOfSize(s - {x}, k);
    }
  }

  /** The replicas that do not store the blob, filled up with as many that do as are needed. */
  lemma FewOfStored(t: Tactic, stored: set<nat>) returns (well: set<nat>)
    requires 0 < t.N <= t.PutQuorum <= t.N + t.M && |Globals(t, stored)| < t.PutQuorum
    ensures |well| >= t.N + AllowFail(t) && (forall i | i in well :: i < t.N + t.M) && |well * stored| < t.N
  {
    var all := set i: nat | i < t.N + t.M && InGlobal(t, i);
    FullSize(all, t.N + t.M);
    BoundedSize(all, t.N + t.M);
    var with, without := Globals(t, stored), all - stored;
    assert all == with + without && with !! without by {
      assert forall i | i in with :: InGlobal(t, i);
    }
    var k := t.N + AllowFail(t) - |without|;
    if k <= 0 {
      well := without;
      assert well * stored == {};
    } else {
      var some := SubsetOfSize(with, k);
      well := without + some;
      assert well * stored == some;
    }
  }

  predicate InGlobal(t: Tactic, i: nat) { i < t.N + t.M }

  /** Below the write quorum the replicas that list can be such that the blob is dropped. */
  lemma BelowQuorumIsDropped(t: Tactic, b: Bid, stored: set<nat>) returns (lists: Listings)
    requires 0 < t.N <= t.PutQuorum <= t.N + t.M && |Globals(t, stored)| < t.PutQuorum
    ensures ListsOf(t, lists, b, stored) && !Carried(t, lists, b)
  {
    var well := FewOfStored(t, stored);
    lists := map i | i in well :: if i in stored then map[b := Stat(1, false)] else map[];
    assert lists.Keys == well;
    assert Exist(lists, b) == well * stored;
  }

  /** A blob is carried over whichever replicas list, if and only if it is on a write quorum. */
  lemma CarriedExactly(t: Tactic, b: Bid, stored: set<nat>)
    requires 0 < t.N <= t.PutQuorum <= t.N + t.M
    ensures |Globals(t, stored)| >= t.PutQuorum <==>
      forall lists: Listings | ListsOf(t, lists, b, stored) :: Carried(t, lists, b)
  {
    hide Carried, MarkedSomewhere, Globals;
    if |Globals(t, stored)| >= t.PutQuorum {
      forall lists: Listings | ListsOf(t, lists, b, stored)
        ensures Carried(t, lists, b)
      {
        QuorumIsCarried(t, lists, b, stored);
      }
    } else {
      var lists := BelowQuorumIsDropped(t, b, stored);
    }
  }

  /** All shards but those of one zone. */
  ghost function OutsideZone(t: Tactic, down: nat): set<nat>
    requires t.AZCount > 0
  {
    set i: nat | i < t.Total() && i !in t.Zone(down)
  }

  lemma OutsideIsAcknowledged(t: Tactic, down: nat, quorum: nat)
    requires t.Valid() && t.AZCount >= 3 && down < t.AZCount
    ensures Acknowledged(t, OutsideZone(t, down), quorum)
  {
    var succ := OutsideZone(t, down);
    forall az: nat | az < t.AZCount
      ensures if az == down then ZoneDown(t, succ, az) else ZoneFine(t, succ, az)
    {
      ZoneIsSimple(t, az);
      forall i | i in t.Zone(az)
        ensures i in succ <==> az != down
      {
        ZonesPartition(t, az, i);
        ZonesPartition(t, down, i);
      }
    }
    assert OneZoneDown(t, succ, down);
  }

  lemma OutsideIsFew(t: Tactic, down: nat)
    requires t.Valid() && down < t.AZCount
    ensures |Globals(t, OutsideZone(t, down))| + t.ZoneN() + t.ZoneM() <= t.N + t.M
  {
    ZoneIsSimple(t, down);
    var zone := t.Zone(down)[..t.ZoneN() + t.ZoneM()];
    DistinctSize(zone);
    var outside := Globals(t, OutsideZone(t, down));
    hide Tactic.Zone;
    forall i | i in Members(zone)
      ensures i < t.N + t.M && i !in outside
    {
      var k :| 0 <= k < |zone| && zone[k] == i;
      assert i == t.Zone(down)[k];
      assert i in t.Zone(down);
    }
    BoundedSize(outside + Members(zone), t.N + t.M);
    assert |outside + Members(zone)| == |outside| + |Members(zone)|;
  }

  /** On every tactic of three zones or more, a put acknowledged with one zone lost is below the
      write quorum, so a repair can drop the blob. */
  lemma LostZoneCanBeDropped(k: nat, down: nat, b: Bid) returns (lists: Listings)
    requires k < |Tactics()| && Tactics()[k].AZCount >= 3 && down < Tactics()[k].AZCount
    ensures var t := Tactics()[k]; var succ := OutsideZone(t, down);
      Acknowledged(t, succ, t.PutQuorum) && ListsOf(t, lists, b, succ) && !Carried(t, lists, b)
  {
    var t := Tactics()[k];
    TacticsAreValid(k);
    OutsideIsAcknowledged(t, down, t.PutQuorum);
    OutsideIsFew(t, down);
    hide Globals, OutsideZone, Acknowledged, ListsOf, Carried;
    lists := BelowQuorumIsDropped(t, b, OutsideZone(t, down));
  }

  // ---- locking a volume ----

  function MinLockedMajority(t: Tactic): nat {
    t.M + t.L + 1
  }

  /** Whether enough chunks report that they are locked. */
  method MajorityLocked(t: Tactic, locked: nat -> Option<bool>) returns (ok: bool, ghost seen: set<nat>)
    ensures forall i :: i in seen <==> 0 <= i < t.Total() && locked(i) == Some(true)
    ensures ok <==> |seen| >= MinLockedMajority(t)
  {
    var count := 0;
    seen := {};
    for i := 0 to t.Total()
      invariant count == |seen|
      invariant forall j :: j in seen <==> 0 <= j < i && locked(j) == Some(true)
    {
      if locked(i) == Some(true) {
        count := count + 1;
        seen := seen + {i};
      }
    }
    ok := count >= MinLockedMajority(t);
  }

  /** The shards outside any one zone are enough to decode. */
  ghost predicate OutsideSuffices(t: Tactic)
    requires t.AZCount > 0
  {
    forall az: nat | az < t.AZCount :: t.Total() - |t.Zone(az)| >= t.N
  }

  /** While a majority is locked, no put is acknowledged. */
  lemma LockStopsWrites(t: Tactic, locked: set<nat>, succ: set<nat>, quorum: nat)
    requires t.Valid() && quorum > t.N && (t.AZCount >= 3 ==> OutsideSuffices(t))
    requires (forall i | i in locked || i in succ :: i < t.Total()) && locked !! succ
    requires |locked| >= MinLockedMajority(t)
    ensures !Acknowledged(t, succ, quorum)
  {
    BoundedSize(locked + succ, t.Total());
    assert |locked + succ| == |locked| + |succ|;
    SubsetSize(Globals(t, succ), succ);
    if t.AZCount >= 3 {
      if down: nat :| OneZoneDown(t, succ, down) {
        OthersWritten(t, succ, down);
      }
    }
  }

  lemma OthersWritten(t: Tactic, succ: set<nat>, down: nat)
    requires t.Valid() && OneZoneDown(t, succ, down)
    ensures |succ| >= t.Total() - |t.Zone(down)|
  {
    assert t.AZCount > 0;
    hide Tactic.Valid, OneZoneDown, Tactic.Zone;
    var all := succ + Members(t.Zone(down));
    forall i: nat | i < t.Total()
      ensures i in all
    {
      WrittenOrDown(t, succ, down, i);
    }
    FullSize(all, t.Total());
    DistinctSize(t.Zone(down));
    assert |all| <= |succ| + |Members(t.Zone(down))|;
  }

  lemma WrittenOrDown(t: Tactic, succ: set<nat>, down: nat, i: nat)
    requires t.Valid() && OneZoneDown(t, succ, down) && i < t.Total()
    ensures i in succ || i in t.Zone(down)
  {
    var az := t.ZoneOf(i);
    ZonesPartition(t, 0, i);
    ZonesPartition(t, az, i);
    hide Tactic.Valid, Tactic.Zone, Tactic.ZoneOf;
    assert az == down || ZoneFine(t, succ, az);
  }

  /** All tactics of the service qualify, with their own quorum or an allowed override. */
  lemma TacticsQualify(k: nat, override: Option<nat>)
    requires k < |Tactics()|
    requires override.Some? ==> override.value >= Tactics()[k].N + Tactics()[k].L + 1
    ensures var t := Tactics()[k];
      && t.Valid() && (t.AZCount >= 3 ==> OutsideSuffices(t))
      && (if override.Some? then override.value else t.PutQuorum) > t.N
      && t.PutQuorum <= t.N + t.M
  {
    TacticsAreValid(k);
    var t := Tactics()[k];
    forall az: nat | az < t.AZCount && t.AZCount >= 3
      ensures t.Total() - |t.Zone(az)| >= t.N
    {
      ZoneIsSimple(t, az);
    }
  }

  // ---- an acknowledged put can be read ----

  lemma TacticsSurviveZone(k: nat)
    requires k < |Tactics()| && Tactics()[k].AZCount >= 3
    ensures Tactics()[k].SurvivesZone()
  {
  }

  /** By quorum or with a zone lost, enough data and parity shards are stored to decode. */
  lemma AcknowledgedHoldsEnough(t: Tactic, succ: set<nat>, quorum: nat)
    requires t.Valid() && quorum >= t.N && (t.AZCount >= 3 ==> t.SurvivesZone()) && Acknowledged(t, succ, quorum)
    ensures |Globals(t, succ)| >= t.N
  {
    if |Globals(t, succ)| < quorum {
      var down: nat :| OneZoneDown(t, succ, down);
      GlobalsOutside(t, succ, down);
    }
  }

  lemma GlobalsOutside(t: Tactic, succ: set<nat>, down: nat)
    requires t.Valid() && OneZoneDown(t, succ, down)
    ensures |Globals(t, succ)| + t.ZoneN() + t.ZoneM() >= t.N + t.M
  {
    ZoneIsSimple(t, down);
    var zone := t.Zone(down)[..t.ZoneN() + t.ZoneM()];
    DistinctSize(zone);
    var all := Globals(t, succ) + Members(zone);
    forall i: nat | i < t.N + t.M
      ensures i in all
    {
      WrittenOrDown(t, succ, down, i);
      hide Tactic.Zone;
      if i in t.Zone(down) {
        var k :| 0 <= k < |t.Zone(down)| && t.Zone(down)[k] == i;
        assert zone[k] == i;
      }
    }
    hide Tactic.Zone;
    FullSize(all, t.N + t.M);
    assert |all| <= |Globals(t, succ)| + |Members(zone)|;
  }

  /** On every tactic, with its own quorum or an allowed other one, a blob whose put was acknowledged
      is read back while the shards that were written can be had, in whatever order they arrive. */
  lemma AcknowledgedIsRead(k: nat, override: Option<nat>, succ: set<nat>, c: R.Config, result: Option<seq<Bytes>>)
    requires k < |Tactics()| && Tactics()[k].AZCount > 0
    requires override.Some? ==> override.value >= Tactics()[k].N + Tactics()[k].L + 1
    requires Acknowledged(Tactics()[k], succ, if override.Some? then override.value else Tactics()[k].PutQuorum)
    requires c.n == Tactics()[k].N && c.Valid() && c.MDS() && c.empties <= Members(c.order)
    requires Globals(Tactics()[k], succ) <= c.Have() && R.EndsWith(c, result)
    ensures result.Some? && |result.value| == c.n && forall i: nat | i < c.n :: result.value[i] == c.truth(i)
  {
    var t := Tactics()[k];
    TacticsQualify(k, override);
    if t.AZCount >= 3 {
      TacticsSurviveZone(k);
    }
    hide Tactics, R.EndsWith, R.Config.Valid, R.Config.MDS;
    AcknowledgedHoldsEnough(t, succ, if override.Some? then override.value else t.PutQuorum);
    SubsetSize(Globals(t, succ), c.Have());
    R.EndIsExact(c, result);
  }
}
