/**
 * The blob id allocator: a current and a backup range of ids, and a refill loop that fetches the
 * next range when it is asked while idle.
 */
module BidAllocator {

  import opened Wrappers
  import opened LocationModel

  /** The ids lo .. hi, both included; empty when hi is lo - 1. */
  datatype Range = Range(lo: nat, hi: int)
  {
    function Size(): int { hi - lo + 1 }

    predicate Has(i: int) { lo <= i <= hi }

    ghost function Ids(): set<int> {
      set i | lo <= i <= hi && Has(i)
    }
  }

  /** What the refill loop does: wait, ask the cluster manager, or hold a range it got. */
  datatype Loop = Idle | Asking | Holding(scope: Range)

  /**
   * handed are the ids given to callers, fetched those got from the cluster manager; nums is the
   * number of ids fetched at a time.
   */
  datatype State = State(nums: nat, current: Option<Range>, backup: Option<Range>, loop: Loop,
                         handed: set<int>, fetched: set<int>)

  datatype Step = Alloc(count: nat) | Answer(scope: Option<Range>) | Install

  // ---- steps ----

  /** A request for more, at the end of Alloc: it gets through only when the loop waits. */
  function Asked(s: State): State {
    if s.backup.None? && s.loop.Idle? then s.(loop := Asking) else s
  }

  /** The ranges an allocation gives, or None when it fails. */
  function Allocated(s: State, count: nat): Option<seq<Range>> {
    if count > s.nums || s.current.None? then None
    else
      var c := s.current.value;
      if Wrap64(count + c.lo - 1) <= c.hi then Some([Range(c.lo, c.lo + count - 1)])
      else if s.backup.None? then None
      else Some([c, Range(s.backup.value.lo, s.backup.value.lo + (count - c.Size()) - 1)])
  }

  ghost function AllIds(ranges: seq<Range>): set<int> {
    if ranges == [] then {} else AllIds(ranges[..|ranges| - 1]) + ranges[|ranges| - 1].Ids()
  }

  function AllSize(ranges: seq<Range>): int {
    if ranges == [] then 0 else AllSize(ranges[..|ranges| - 1]) + ranges[|ranges| - 1].Size()
  }

  /** What is left of a range after its first count ids. */
  function Rest(r: Range, count: int): Range
    requires r.lo + count >= 0
  {
    Range(r.lo + count, r.hi)
  }

  ghost function AfterAlloc(s: State, count: nat): State {
    var given := Allocated(s, count);
    if given.None? then Asked(s)
    else
      var c := s.current.value;
      var s' := s.(handed := s.handed + AllIds(given.value));
      if |given.value| == 1 then
        if c.lo + count == c.hi + 1 then Asked(s'.(current := s.backup, backup := None))
        else Asked(s'.(current := Some(Rest(c, count))))
      else if s.backup.value.lo + (count - c.Size()) >= 0 then
        Asked(s'.(current := Some(Rest(s.backup.value, count - c.Size())), backup := None))
      else s'
  }

  predicate Enabled(s: State, step: Step) {
    match step
    case Alloc(count) => count < TWO_64
    case Answer(scope) => s.loop.Asking?
    case Install => s.loop.Holding?
  }

  /** A range with ids, and more than nums ids before the integers wrap around. */
  ghost predicate RangeOk(nums: nat, r: Range) {
    1 <= r.lo <= r.hi && r.hi + nums < TWO_64
  }

  /**
   * The test for the current range is made in 64 bits: it says whether the range has enough ids
   * exactly when the last id asked for is below 2^64.
   */
  lemma TestIsRightExactly(r: Range, count: nat)
    requires 1 <= r.lo <= r.hi < TWO_64 && count < TWO_64
    ensures (Wrap64(count + r.lo - 1) <= r.hi <==> count <= r.Size()) <==> count + r.lo - 1 < TWO_64
  {
  }

  /** The cluster manager gives nums ids that were never given before. */
  ghost predicate FreshScope(s: State, r: Range) {
    RangeOk(s.nums, r) && r.Size() == s.nums && r.Ids() !! s.fetched
  }

  ghost predicate Allowed(s: State, step: Step) {
    Enabled(s, step) && (step.Answer? && step.scope.Some? ==> FreshScope(s, step.scope.value))
  }

  ghost function Apply(s: State, step: Step): State
    requires Enabled(s, step)
  {
    match step
    case Alloc(count) => AfterAlloc(s, count)
    case Answer(None) => s.(loop := Idle)
    case Answer(Some(scope)) => s.(loop := Holding(scope), fetched := s.fetched + scope.Ids())
    case Install =>
      if s.current.Some? then s.(backup := Some(s.loop.scope), loop := Idle)
      else s.(current := Some(s.loop.scope), backup := None, loop := Idle)
  }

  // ---- invariant ----

  ghost function IdsOf(r: Option<Range>): set<int> {
    if r.Some? then r.value.Ids() else {}
  }

  ghost function Held(l: Loop): set<int> {
    if l.Holding? then l.scope.Ids() else {}
  }

  /** Each range at hand has ids, and a backup or a range being brought is whole. */
  ghost predicate RangesOk(s: State) {
    && 0 < s.nums < TWO_64
    && (s.current.Some? ==> RangeOk(s.nums, s.current.value))
    && (s.backup.Some? ==> s.current.Some? && RangeOk(s.nums, s.backup.value) && s.backup.value.Size() == s.nums)
    && (s.loop.Holding? ==> RangeOk(s.nums, s.loop.scope) && s.loop.scope.Size() == s.nums)
  }

  /** Every id fetched is handed out or at hand, in one place. */
  ghost predicate Conserved(s: State) {
    && s.fetched == s.handed + IdsOf(s.current) + IdsOf(s.backup) + Held(s.loop)
    && s.handed !! IdsOf(s.current) !! IdsOf(s.backup) !! Held(s.loop)
  }

  ghost predicate Inv(s: State) {
    && RangesOk(s) && Conserved(s)
    && (!s.loop.Idle? ==> s.backup.None?)
  }

  lemma IdsSplit(r: Range, count: nat)
    requires r.lo + count <= r.hi + 1
    ensures r.Ids() == Range(r.lo, r.lo + count - 1).Ids() + Rest(r, count).Ids()
    ensures Range(r.lo, r.lo + count - 1).Ids() !! Rest(r, count).Ids()
    ensures r.lo + count == r.hi + 1 ==> Rest(r, count).Ids() == {}
  {
  }

  lemma OneRange(r: Range)
    ensures AllIds([r]) == r.Ids() && AllSize([r]) == r.Size()
  {
    assert [r][..0] == [];
  }

  lemma TwoRanges(a: Range, b: Range)
    ensures AllIds([a, b]) == a.Ids() + b.Ids() && AllSize([a, b]) == a.Size() + b.Size()
  {
    assert [a, b][..1] == [a];
    OneRange(a);
  }

  /** What an allocation gives: as many ids as asked for, none handed out before, all from the ranges at hand. */
  lemma AllocIsExact(s: State, count: nat)
    requires Inv(s) && Allocated(s, count).Some? && count < TWO_64
    ensures AllSize(Allocated(s, count).value) == count
    ensures AllIds(Allocated(s, count).value) <= IdsOf(s.current) + IdsOf(s.backup)
    ensures AllIds(Allocated(s, count).value) !! s.handed
    ensures count > 0 ==> forall r | r in Allocated(s, count).value :: r.Size() > 0
  {
    var given, c := Allocated(s, count).value, s.current.value;
    TestIsRightExactly(c, count);
    hide Wrap64;
    if |given| == 1 {
      OneRange(given[0]);
      IdsSplit(c, count);
    } else {
      TwoRanges(given[0], given[1]);
      IdsSplit(s.backup.value, count - c.Size());
    }
  }

  lemma AskedKeeps(s: State)
    requires Inv(s)
    ensures Inv(Asked(s))
  {
  }

  /** The first branch: the current range has enough ids. */
  lemma AllocFromCurrent(s: State, count: nat)
    requires Inv(s) && Allocated(s, count).Some? && |Allocated(s, count).value| == 1 && count < TWO_64
    ensures Inv(AfterAlloc(s, count))
  {
    var c := s.current.value;
    TestIsRightExactly(c, count);
    OneRange(Allocated(s, count).value[0]);
    IdsSplit(c, count);
    hide Range.Ids, Range.Has, AllIds, Wrap64;
    var s' := s.(handed := s.handed + AllIds(Allocated(s, count).value));
    if c.lo + count == c.hi + 1 {
      var t := s'.(current := s.backup, backup := None);
      assert Conserved(t);
      AskedKeeps(t);
    } else {
      var t := s'.(current := Some(Rest(c, count)));
      assert Conserved(t);
      AskedKeeps(t);
    }
  }

  /** The second branch: all of the current range and the front of the backup. */
  lemma AllocFromBoth(s: State, count: nat)
    requires Inv(s) && Allocated(s, count).Some? && |Allocated(s, count).value| == 2 && count < TWO_64
    ensures Inv(AfterAlloc(s, count))
  {
    hide Range.Ids, Range.Has, AllIds, Wrap64;
    var c, b := s.current.value, s.backup.value;
    TestIsRightExactly(c, count);
    var more := count - c.Size();
    TwoRanges(c, Range(b.lo, b.lo + more - 1));
    IdsSplit(b, more);
    var t := s.(handed := s.handed + AllIds(Allocated(s, count).value), current := Some(Rest(b, more)), backup := None);
    assert Conserved(t) by {
      MoveIds(s.handed, c.Ids(), b.Ids(), Held(s.loop), s.fetched, Range(b.lo, b.lo + more - 1).Ids(),
              Rest(b, more).Ids());
    }
    AskedKeeps(t);
  }

  /** Handing out one part and the front of another keeps everything in one place. */
  lemma MoveIds(handed: set<int>, c: set<int>, b: set<int>, held: set<int>, fetched: set<int>, front: set<int>,
                rest: set<int>)
    requires fetched == handed + c + b + held && handed !! c !! b !! held
    requires b == front + rest && front !! rest
    ensures fetched == (handed + (c + front)) + rest + {} + held
    ensures (handed + (c + front)) !! rest !! {} !! held
  {
  }

  lemma AnswerKeeps(s: State, scope: Range)
    requires Inv(s) && s.loop.Asking? && FreshScope(s, scope)
    ensures Inv(Apply(s, Answer(Some(scope))))
  {
    hide Range.Ids, Range.Has;
  }

  /** A refill finds no live backup, so no id is lost. */
  lemma InstallKeeps(s: State)
    requires Inv(s) && s.loop.Holding?
    ensures s.backup.None? && Inv(Apply(s, Install))
  {
    hide Range.Ids, Range.Has;
  }

  lemma StepKeepsInv(s: State, step: Step)
    requires Inv(s) && Allowed(s, step)
    ensures Inv(Apply(s, step))
  {
    match step
    case Alloc(count) =>
      if Allocated(s, count).None? {
        AskedKeeps(s);
      } else if |Allocated(s, count).value| == 1 {
        AllocFromCurrent(s, count);
      } else {
        AllocFromBoth(s, count);
      }
    case Answer(None) =>
    case Answer(Some(scope)) => AnswerKeeps(s, scope);
    case Install => InstallKeeps(s);
  }

  // ---- every interleaving ----

  ghost predicate IsRun(s: State, steps: seq<Step>)
    decreases |steps|
  {
    steps == [] || (Allowed(s, steps[0]) && IsRun(Apply(s, steps[0]), steps[1..]))
  }

  ghost function Exec(s: State, steps: seq<Step>): State
    requires IsRun(s, steps)
    decreases |steps|
  {
    if steps == [] then s else Exec(Apply(s, steps[0]), steps[1..])
  }

  /** The ids a run hands out, step by step. */
  ghost function Given(s: State, steps: seq<Step>): seq<set<int>>
    requires IsRun(s, steps)
    decreases |steps|
  {
    if steps == [] then [] else [GivenBy(s, steps[0])] + Given(Apply(s, steps[0]), steps[1..])
  }

  ghost function GivenBy(s: State, step: Step): set<int> {
    if step.Alloc? && Allocated(s, step.count).Some? then AllIds(Allocated(s, step.count).value) else {}
  }

  lemma HandedGrows(s: State, step: Step)
    requires Inv(s) && Allowed(s, step)
    ensures Apply(s, step).handed == s.handed + GivenBy(s, step)
    ensures GivenBy(s, step) !! s.handed
  {
    if step.Alloc? && Allocated(s, step.count).Some? {
      AllocIsExact(s, step.count);
    }
  }

  /** Over every run nothing is handed out twice, and nothing fetched is lost. */
  lemma {:induction false} RunIsSafe(s: State, steps: seq<Step>)
    requires Inv(s) && IsRun(s, steps)
    ensures Inv(Exec(s, steps)) && |Given(s, steps)| == |steps|
    ensures forall i | 0 <= i < |steps| :: Given(s, steps)[i] !! s.handed
    ensures forall i, j | 0 <= i < j < |steps| :: Given(s, steps)[i] !! Given(s, steps)[j]
    decreases |steps|
  {
    if steps != [] {
      var s' := Apply(s, steps[0]);
      StepKeepsInv(s, steps[0]);
      HandedGrows(s, steps[0]);
      RunIsSafe(s', steps[1..]);
      hide Inv, Apply, Allowed, GivenBy;
      var rest := Given(s', steps[1..]);
      assert forall i | 0 < i < |steps| :: Given(s, steps)[i] == rest[i - 1];
    }
  }

  /** After the first range was fetched. */
  ghost predicate IsInit(s: State, scope: Range) {
    && s == State(s.nums, Some(scope), None, Idle, {}, scope.Ids())
    && 0 < s.nums < TWO_64 && RangeOk(s.nums, scope) && scope.Size() == s.nums
  }

  lemma InitHasInv(s: State, scope: Range)
    requires IsInit(s, scope)
    ensures Inv(s)
  {
  }

  ghost function AtHand(s: State): set<int> {
    IdsOf(s.current) + IdsOf(s.backup) + Held(s.loop)
  }

  ghost function Union(sets: seq<set<int>>): set<int> {
    if sets == [] then {} else sets[0] + Union(sets[1..])
  }

  /** Over every run, the ids handed out are those given by its allocations, a failed one giving none,
      and each id fetched is handed out or at hand, never both. */
  lemma {:induction false} RunIsConserving(s: State, steps: seq<Step>)
    requires Inv(s) && IsRun(s, steps)
    ensures var e := Exec(s, steps);
      e.handed == s.handed + Union(Given(s, steps)) && e.fetched == e.handed + AtHand(e) && e.handed !! AtHand(e)
    decreases |steps|
  {
    if steps != [] {
      StepKeepsInv(s, steps[0]);
      HandedGrows(s, steps[0]);
      RunIsConserving(Apply(s, steps[0]), steps[1..]);
      hide Inv, Apply, Allowed, GivenBy;
      assert Given(s, steps)[1..] == Given(Apply(s, steps[0]), steps[1..]);
    }
  }

  /** When an allocation fails: too many asked for, or too few ids at hand. */
  lemma AllocFailsExactly(s: State, count: nat)
    requires Inv(s) && count < TWO_64
    ensures Allocated(s, count).None? <==>
      count > s.nums || s.current.None? || (count > s.current.value.Size() && s.backup.None?)
  {
    if s.current.Some? {
      TestIsRightExactly(s.current.value, count);
    }
  }

  // ---- splitting ranges into slices ----

  function TotalCount(blobs: seq<Slice>): nat {
    if blobs == [] then 0 else TotalCount(blobs[..|blobs| - 1]) + blobs[|blobs| - 1].count
  }

  /** The whole of each range. */
  function WholeSlices(rets: seq<Range>, vid: nat): seq<Slice>
    requires forall r | r in rets :: r.Size() > 0
  {
    seq(|rets|, k requires 0 <= k < |rets| => assert rets[k] in rets; Slice(rets[k].lo, vid, rets[k].Size()))
  }

  lemma {:induction false} PrefixSize(rets: seq<Range>, k: nat)
    requires k <= |rets| && forall r | r in rets :: r.Size() > 0
    ensures AllSize(rets[..k]) <= AllSize(rets)
    ensures k < |rets| ==> AllSize(rets[..k + 1]) == AllSize(rets[..k]) + rets[k].Size() && rets[k].Size() > 0
    decreases |rets| - k
  {
    if k == |rets| {
      assert rets[..k] == rets;
    } else {
      PrefixSize(rets, k + 1);
      assert rets[..k + 1][..k] == rets[..k];
      assert rets[k] in rets;
    }
  }

  lemma CountMore(blobs: seq<Slice>, s: Slice)
    ensures TotalCount(blobs + [s]) == TotalCount(blobs) + s.count
  {
    assert (blobs + [s])[..|blobs|] == blobs;
  }

  /** How many ids of range k are taken for blobN blobs. */
  function Taken(rets: seq<Range>, blobN: nat, k: nat): nat
    requires k < |rets| && forall r | r in rets :: r.Size() > 0
  {
    var before := AllSize(rets[..k]);
    assert rets[k] in rets;
    if before >= blobN then 0 else if blobN - before < rets[k].Size() then blobN - before else rets[k].Size()
  }

  /** The counts of the slices from the first k ranges fit into 32 bits. */
  ghost predicate CountsFit(rets: seq<Range>, blobN: nat, k: nat)
    requires k <= |rets| && forall r | r in rets :: r.Size() > 0
  {
    forall j | 0 <= j < k :: Taken(rets, blobN, j) < TWO_32
  }

  /** Where the splitting stands before range k. */
  ghost predicate Splitting(rets: seq<Range>, vid: nat, blobN: nat, k: nat, left: nat, blobs: seq<Slice>)
    requires k <= |rets| && forall r | r in rets :: r.Size() > 0
  {
    && left == (if AllSize(rets[..k]) < blobN then blobN - AllSize(rets[..k]) else 0)
    && TotalCount(blobs) <= blobN - left && (TotalCount(blobs) == blobN - left <==> CountsFit(rets, blobN, k))
    && (CountsFit(rets, blobN, k) ==>
          && (forall s | s in blobs :: s.count > 0)
          && (AllSize(rets[..k]) <= blobN ==> blobs == WholeSlices(rets[..k], vid)))
  }

  lemma TakenNext(rets: seq<Range>, blobN: nat, k: nat, left: nat)
    requires k < |rets| && (forall r | r in rets :: r.Size() > 0) && left > 0
    requires left == (if AllSize(rets[..k]) < blobN then blobN - AllSize(rets[..k]) else 0)
    ensures rets[k].Size() > 0
    ensures var count := if left < rets[k].Size() then left else rets[k].Size();
      && (CountsFit(rets, blobN, k + 1) <==> CountsFit(rets, blobN, k) && count < TWO_32)
      && left - count == (if AllSize(rets[..k + 1]) < blobN then blobN - AllSize(rets[..k + 1]) else 0)
      && (AllSize(rets[..k + 1]) <= blobN ==> AllSize(rets[..k]) <= blobN && count == rets[k].Size())
  {
    hide AllSize;
    PrefixSize(rets, k);
    var count := if left < rets[k].Size() then left else rets[k].Size();
    assert count == Taken(rets, blobN, k);
    hide Taken;
  }

  lemma WholeNext(rets: seq<Range>, vid: nat, k: nat)
    requires k < |rets| && forall r | r in rets :: r.Size() > 0
    ensures (forall r | r in rets[..k] :: r.Size() > 0)
    ensures (forall r | r in rets[..k + 1] :: r.Size() > 0) && rets[k].Size() > 0
    ensures WholeSlices(rets[..k + 1], vid) == WholeSlices(rets[..k], vid) + [Slice(rets[k].lo, vid, rets[k].Size())]
  {
    assert rets[k] in rets;
    assert forall r | r in rets[..k + 1] :: r in rets;
    assert forall r | r in rets[..k] :: r in rets;
  }

  lemma SplitOne(rets: seq<Range>, vid: nat, blobN: nat, k: nat, left: nat, blobs: seq<Slice>)
    requires k < |rets| && (forall r | r in rets :: r.Size() > 0) && left > 0
    requires Splitting(rets, vid, blobN, k, left, blobs)
    ensures rets[k].Size() > 0
    ensures var count := if left < rets[k].Size() then left else rets[k].Size();
      Splitting(rets, vid, blobN, k + 1, left - count, blobs + [Slice(rets[k].lo, vid, count % TWO_32)])
  {
    hide AllSize, CountsFit, WholeSlices, TotalCount;
    TakenNext(rets, blobN, k, left);
    WholeNext(rets, vid, k);
    var count := if left < rets[k].Size() then left else rets[k].Size();
    CountMore(blobs, Slice(rets[k].lo, vid, count % TWO_32));
    CutCount(count);
  }

  lemma CutCount(count: nat)
    ensures count % TWO_32 <= count && (count % TWO_32 == count <==> count < TWO_32)
  {
  }

  /** Takes blobN ids from the ranges in order; it falls short exactly when they are fewer.  The
      slices then have all of them exactly if each count fits into 32 bits. */
  method SplitBlobs(rets: seq<Range>, vid: nat, blobN: nat) returns (r: Result<seq<Slice>>)
    requires forall x | x in rets :: x.Size() > 0
    ensures r.Ok? <==> AllSize(rets) >= blobN
    ensures r.Ok? ==> |r.value| <= |rets|
    ensures r.Ok? ==> (TotalCount(r.value) == blobN <==> CountsFit(rets, blobN, |rets|))
    ensures r.Ok? && CountsFit(rets, blobN, |rets|) ==> forall s | s in r.value :: s.count > 0
    ensures r.Ok? && CountsFit(rets, blobN, |rets|) && AllSize(rets) == blobN ==> r.value == WholeSlices(rets, vid)
  {
    hide Splitting, AllSize, TotalCount, WholeSlices, CountsFit;
    var left: nat, blobs: seq<Slice> := blobN, [];
    var k := 0;
    StartSplit(rets, vid, blobN);
    while k < |rets| && left > 0
      invariant 0 <= |blobs| == k <= |rets| && Splitting(rets, vid, blobN, k, left, blobs)
    {
      SplitOne(rets, vid, blobN, k, left, blobs);
      var size := rets[k].Size();
      var count := if left < size then left else size;
      left := left - count;
      blobs := blobs + [Slice(rets[k].lo, vid, count % TWO_32)];
      k := k + 1;
    }
    EndSplit(rets, vid, blobN, k, left, blobs);
    if left > 0 {
      return Err("no enough blob ids from allocator");
    }
    return Ok(blobs);
  }

  /** Fewer than 2^32 blobs always fit; 2^32 of them from one range do not. */
  lemma SmallCountsFit(rets: seq<Range>, blobN: nat)
    requires forall r | r in rets :: r.Size() > 0
    ensures blobN < TWO_32 ==> CountsFit(rets, blobN, |rets|)
    ensures !CountsFit([Range(1, TWO_32)], TWO_32, 1)
  {
    forall j | 0 <= j < |rets|
      ensures AllSize(rets[..j]) >= 0
    {
      LaterIsMore(rets, 0, j);
      assert rets[..0] == [];
    }
    var one := [Range(1, TWO_32)];
    assert one[..0] == [];
    assert Taken(one, TWO_32, 0) == TWO_32;
  }

  lemma StartSplit(rets: seq<Range>, vid: nat, blobN: nat)
    requires forall r | r in rets :: r.Size() > 0
    ensures Splitting(rets, vid, blobN, 0, blobN, [])
  {
    assert rets[..0] == [];
  }

  lemma EndSplit(rets: seq<Range>, vid: nat, blobN: nat, k: nat, left: nat, blobs: seq<Slice>)
    requires k <= |rets| && (forall r | r in rets :: r.Size() > 0) && (k == |rets| || left == 0)
    requires Splitting(rets, vid, blobN, k, left, blobs)
    ensures left == 0 <==> AllSize(rets) >= blobN
    ensures left == 0 ==> (TotalCount(blobs) == blobN <==> CountsFit(rets, blobN, |rets|))
    ensures left == 0 && CountsFit(rets, blobN, |rets|) ==> forall s | s in blobs :: s.count > 0
    ensures left == 0 && CountsFit(rets, blobN, |rets|) && AllSize(rets) == blobN ==> blobs == WholeSlices(rets, vid)
  {
    hide AllSize, TotalCount, WholeSlices;
    PrefixSize(rets, k);
    assert rets[..|rets|] == rets;
    if left == 0 {
      forall j | k <= j < |rets|
        ensures Taken(rets, blobN, j) == 0
      {
        LaterIsMore(rets, k, j);
      }
    }
    if AllSize(rets) == blobN && left == 0 {
      NothingAfter(rets, k, blobN);
    }
  }

  lemma {:induction false} LaterIsMore(rets: seq<Range>, k: nat, j: nat)
    requires k <= j <= |rets| && forall r | r in rets :: r.Size() > 0
    ensures AllSize(rets[..k]) <= AllSize(rets[..j])
    decreases j - k
  {
    if k < j {
      PrefixSize(rets, k);
      LaterIsMore(rets, k + 1, j);
    }
  }

  lemma NothingAfter(rets: seq<Range>, k: nat, blobN: nat)
    requires k <= |rets| && (forall r | r in rets :: r.Size() > 0)
    requires AllSize(rets) == blobN && AllSize(rets[..k]) >= blobN
    ensures k == |rets|
  {
    if k < |rets| {
      PrefixSize(rets, k);
      PrefixSize(rets, k + 1);
    }
  }

  // ---- the allocator ----

  /** The first answer that is not an error. */
  function FirstOf(answers: seq<Option<Range>>): Option<Range> {
    if answers == [] then None else if answers[0].Some? then answers[0] else FirstOf(answers[1..])
  }

  class BidMgr {
    const nums: nat
    var current: Option<Range>
    var backup: Option<Range>
    var loop: Loop
    ghost var handed: set<int>
    ghost var fetched: set<int>

    ghost function Abs(): State
      reads this
    {
      State(nums, current, backup, loop, handed, fetched)
    }

    constructor (nums: nat, scope: Range)
      requires 0 < nums < TWO_64 && RangeOk(nums, scope) && scope.Size() == nums
      ensures IsInit(Abs(), scope) && this.nums == nums && Inv(Abs())
    {
      this.nums := nums;
      current, backup, loop := Some(scope), None, Idle;
      handed, fetched := {}, scope.Ids();
    }

    /** The request at the end of Alloc; it is dropped when the loop is busy. */
    method AskForMore()
      modifies this`loop
      ensures Abs() == Asked(old(Abs()))
    {
      if backup.None? && loop.Idle? {
        loop := Asking;
      }
    }

    /** Takes count ids, from the current range or from both. */
    method Take(count: nat) returns (ranges: seq<Range>)
      requires Allocated(Abs(), count).Some? && Inv(Abs()) && count < TWO_64
      modifies this`current, this`backup, this`handed
      ensures ranges == Allocated(old(Abs()), count).value && Asked(Abs()) == AfterAlloc(old(Abs()), count)
      ensures handed == old(handed) + AllIds(ranges)
    {
      hide Conserved, AllIds, AllSize, IdsOf;
      var c := current.value;
      TestIsRightExactly(c, count);
      if Wrap64(count + c.lo - 1) <= c.hi {
        var br := Range(c.lo, c.lo + count - 1);
        handed := handed + AllIds([br]);
        current := Some(Rest(c, count));
        if current.value.Size() == 0 {
          current, backup := backup, None;
        }
        return [br];
      }
      var b, more := backup.value, count - c.Size();
      var br2 := Range(b.lo, b.lo + more - 1);
      handed := handed + AllIds([c, br2]);
      current, backup := Some(Rest(b, more)), None;
      return [c, br2];
    }

    method Alloc(count: nat) returns (r: Result<seq<Range>>)
      requires Inv(Abs()) && count < TWO_64
      modifies this
      ensures Inv(Abs()) && Abs() == Apply(old(Abs()), Step.Alloc(count))
      ensures r.Ok? <==> Allocated(old(Abs()), count).Some?
      ensures r.Ok? ==> r.value == Allocated(old(Abs()), count).value && AllSize(r.value) == count
      ensures r.Ok? ==> AllIds(r.value) !! old(handed) && handed == old(handed) + AllIds(r.value)
    {
      hide Inv, AllIds, AllSize;
      ghost var s := Abs();
      StepKeepsInv(s, Step.Alloc(count));
      if count > nums {
        AskForMore();
        return Err("illegal arguments");
      }
      if current.None? {
        AskForMore();
        return Err("alloc bid from cm");
      }
      if Wrap64(count + current.value.lo - 1) > current.value.hi && backup.None? {
        AskForMore();
        return Err("alloc bid from cm");
      }
      AllocIsExact(s, count);
      var ranges := Take(count);
      AskForMore();
      return Ok(ranges);
    }

    /** The loop's call to the cluster manager returns; three failed tries give up. */
    method Answered(answers: seq<Option<Range>>)
      requires Inv(Abs()) && loop.Asking? && |answers| == 3
      requires forall a | a in answers && a.Some? :: FreshScope(Abs(), a.value)
      modifies this`loop, this`fetched
      ensures Inv(Abs()) && Abs() == Apply(old(Abs()), Answer(FirstOf(answers)))
    {
      ghost var s := Abs();
      for try := 0 to 3
        invariant Abs() == s && FirstOf(answers) == FirstOf(answers[try..])
      {
        if answers[try].Some? {
          assert answers[try] in answers;
          AnswerKeeps(s, answers[try].value);
          loop := Holding(answers[try].value);
          fetched := fetched + loop.scope.Ids();
          return;
        }
      }
      StepKeepsInv(s, Answer(None));
      loop := Idle;
    }

    /** The range that was brought becomes the backup, or the current range if there is none. */
    method InstallScope()
      requires Inv(Abs()) && loop.Holding?
      modifies this`current, this`backup, this`loop
      ensures Inv(Abs()) && Abs() == Apply(old(Abs()), Install)
    {
      InstallKeeps(Abs());
      var scope := loop.scope;
      loop := Idle;
      if current.Some? {
        backup := Some(scope);
        return;
      }
      current, backup := Some(scope), None;
    }
  }

  /** The ids for a number of blobs as slices of a volume: splitting them never falls short, and
      below 2^32 blobs the slices have just the ids that were handed out. */
  method AllocBlobs(mgr: BidMgr, vid: nat, count: nat) returns (r: Result<seq<Slice>>)
    requires Inv(mgr.Abs()) && 0 < count < TWO_64
    modifies mgr
    ensures Inv(mgr.Abs()) && mgr.Abs() == Apply(old(mgr.Abs()), Step.Alloc(count))
    ensures r.Ok? <==> Allocated(old(mgr.Abs()), count).Some?
    ensures r.Ok? ==> |r.value| <= 2 && (count < TWO_32 ==> TotalCount(r.value) == count)
    ensures r.Ok? && count < TWO_32 ==> Some(r.value) == SlicesGiven(old(mgr.Abs()), vid, count)
  {
    hide Inv, AllSize, AllIds, TotalCount, WholeSlices, CountsFit, Apply;
    ghost var s := mgr.Abs();
    var rets := mgr.Alloc(count);
    if rets.Err? {
      return Err(rets.error);
    }
    AllocIsExact(s, count);
    SmallCountsFit(rets.value, count);
    r := SplitBlobs(rets.value, vid, count);
  }

  /** The slices of an allocation. */
  ghost function SlicesGiven(s: State, vid: nat, count: nat): Option<seq<Slice>> {
    var given := Allocated(s, count);
    if given.Some? && forall r | r in given.value :: r.Size() > 0 then Some(WholeSlices(given.value, vid)) else None
  }
}
