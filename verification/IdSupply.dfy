/**
 * The ids of an upload come from the allocators: whichever of them serves each request, and
 * whatever else they hand out meanwhile, the slices that the client gets are as it needs them.
 */
module IdSupply {

  import opened Wrappers
  import opened Arithmetic
  import opened LocationModel
  import opened LocationCodec
  import opened UploadTokens
  import opened PartUpload
  import B = BidAllocator

  // ---- the slices of one allocation ----

  /** Consecutive ids below 2^64, in order and none twice. */
  lemma SliceHolds(r: B.Range, vid: nat)
    requires r.Size() > 0 && r.hi < TWO_64
    ensures var refs := SliceRefs(Slice(r.lo, vid, r.Size()), r.Size());
      && |refs| == r.Size() && DistinctBids(refs) && forall ref | ref in refs :: ref.bid as int in r.Ids()
  {
    var refs := SliceRefs(Slice(r.lo, vid, r.Size()), r.Size());
    forall i | 0 <= i < |refs|
      ensures refs[i].bid == r.lo + i && refs[i].bid as int in r.Ids()
    {
      assert Wrap64(r.lo + i) == r.lo + i;
      assert r.Has(r.lo + i);
    }
  }

  lemma {:induction false} SlicesHold(rets: seq<B.Range>, vid: nat)
    requires forall r | r in rets :: r.Size() > 0 && r.hi < TWO_64
    ensures |Refs(B.WholeSlices(rets, vid))| == B.AllSize(rets)
    ensures forall ref | ref in Refs(B.WholeSlices(rets, vid)) :: ref.bid as int in B.AllIds(rets)
  {
    if rets != [] {
      var n := |rets| - 1;
      assert rets[n] in rets;
      assert forall r | r in rets[..n] :: r in rets;
      SlicesHold(rets[..n], vid);
      SliceHolds(rets[n], vid);
      assert B.WholeSlices(rets, vid)[..n] == B.WholeSlices(rets[..n], vid);
    }
  }

  /** Two ranges with no id in common make slices with no id twice. */
  lemma TwoAreDistinct(a: B.Range, b: B.Range, vid: nat)
    requires a.Size() > 0 && b.Size() > 0 && a.hi < TWO_64 && b.hi < TWO_64 && a.Ids() !! b.Ids()
    ensures DistinctBids(Refs(B.WholeSlices([a, b], vid)))
  {
    SliceHolds(a, vid);
    SliceHolds(b, vid);
    OneIsDistinct(a, vid);
    var slices := B.WholeSlices([a, b], vid);
    var front, back := SliceRefs(slices[0], slices[0].count), SliceRefs(slices[1], slices[1].count);
    assert slices[..1] == B.WholeSlices([a], vid);
    hide SliceRefs, Refs, B.Range.Ids, B.WholeSlices;
    assert Refs(slices) == front + back by {
      TwoRefs(slices);
    }
    forall i, j | 0 <= i < |front| && 0 <= j < |back|
      ensures front[i].bid != back[j].bid
    {
      assert front[i] in front && back[j] in back;
    }
  }

  lemma TwoRefs(slices: seq<Slice>)
    requires |slices| == 2
    ensures Refs(slices) == SliceRefs(slices[0], slices[0].count) + SliceRefs(slices[1], slices[1].count)
  {
    assert slices[..1][..0] == [];
    assert Refs(slices[..1]) == SliceRefs(slices[0], slices[0].count);
  }

  lemma OneIsDistinct(a: B.Range, vid: nat)
    requires a.Size() > 0 && a.hi < TWO_64
    ensures DistinctBids(Refs(B.WholeSlices([a], vid)))
  {
    SliceHolds(a, vid);
    var slices := B.WholeSlices([a], vid);
    assert slices[..0] == [];
    assert Refs(slices) == SliceRefs(slices[0], slices[0].count);
  }

  /** Where the ranges of an allocation lie. */
  lemma RangesGiven(s: B.State, count: nat)
    requires B.Inv(s) && B.Allocated(s, count).Some? && 0 < count < TWO_64
    ensures var rets := B.Allocated(s, count).value;
      && 1 <= |rets| <= 2 && (forall r | r in rets :: r.Size() > 0 && r.hi < TWO_64 && r.Size() <= s.nums)
      && (|rets| == 2 ==> rets[0].Ids() !! rets[1].Ids()) && B.AllSize(rets) == count
  {
    B.AllocIsExact(s, count);
    B.TestIsRightExactly(s.current.value, count);
    if |B.Allocated(s, count).value| == 2 {
      B.IdsSplit(s.backup.value, count - s.current.value.Size());
    }
  }

  /** An allocation for the blobs of an object is as an upload needs it. */
  lemma AllocIsGood(env: Env, s: B.State, vid: nat, size: nat)
    requires B.Inv(s) && s.nums < TWO_32 && vid < TWO_32 && env.blobSize > 0 && 0 < size
    requires size + env.blobSize <= TWO_64
    requires B.SlicesGiven(s, vid, BlobCount(size, env.blobSize)).Some?
    ensures env.GoodAlloc(size, B.SlicesGiven(s, vid, BlobCount(size, env.blobSize)).value)
  {
    var count := BlobCount(size, env.blobSize);
    CountIsRight(size, env.blobSize);
    RangesGiven(s, count);
    var rets := B.Allocated(s, count).value;
    SlicesHold(rets, vid);
    if |rets| == 1 {
      assert rets == [rets[0]];
      OneIsDistinct(rets[0], vid);
    } else {
      assert rets == [rets[0], rets[1]];
      TwoAreDistinct(rets[0], rets[1], vid);
    }
    hide BlobCount, Refs, B.Inv, Times, B.Allocated;
    SlicesAreOk(rets, vid);
  }

  lemma SlicesAreOk(rets: seq<B.Range>, vid: nat)
    requires vid < TWO_32 && forall r | r in rets :: r.Size() > 0 && r.hi < TWO_64 && r.Size() < TWO_32
    ensures SlicesOk(B.WholeSlices(rets, vid))
  {
    forall k | 0 <= k < |rets|
      ensures rets[k] in rets
    {
    }
  }

  /** The count is the least with room for the object. */
  lemma CountIsRight(size: nat, blobSize: nat)
    requires 0 < size && 0 < blobSize
    ensures var n := BlobCount(size, blobSize);
      0 < n <= size && Times(n - 1, blobSize) < size <= Times(n, blobSize)
  {
    var n := BlobCount(size, blobSize);
    DivBounds(size + blobSize - 1, blobSize, n);
    hide Quotient;
    if n == 0 {
      TimesZero(blobSize);
    } else {
      TimesNext(n - 1, blobSize);
      AtLeastCount(n - 1, blobSize);
    }
  }

  lemma AtLeastCount(n: nat, d: nat)
    requires d > 0
    ensures n <= Times(n, d)
  {
    assert Times(n, d) == n + n * (d - 1);
  }

  // ---- all allocations of an upload ----

  datatype Run = Run(start: B.State, steps: seq<B.Step>)

  /** A run of an allocator from its start; it fetches fewer than 2^32 ids at a time. */
  ghost predicate IsService(r: Run) {
    B.IsRun(r.start, r.steps) && r.start.nums < TWO_32 && exists scope :: B.IsInit(r.start, scope)
  }

  ghost function StateAt(s: B.State, steps: seq<B.Step>, i: nat): B.State
    requires B.IsRun(s, steps) && i <= |steps|
    decreases i
  {
    if i == 0 then s else StateAt(B.Apply(s, steps[0]), steps[1..], i - 1)
  }

  lemma {:induction false} StepAt(s: B.State, steps: seq<B.Step>, i: nat)
    requires B.Inv(s) && B.IsRun(s, steps) && i < |steps|
    ensures B.Inv(StateAt(s, steps, i)) && StateAt(s, steps, i).nums == s.nums
    ensures |B.Given(s, steps)| == |steps| && B.Given(s, steps)[i] == B.GivenBy(StateAt(s, steps, i), steps[i])
    decreases i
  {
    B.RunIsSafe(s, steps);
    B.StepKeepsInv(s, steps[0]);
    SameNums(s, steps[0]);
    if i > 0 {
      hide B.Inv, B.Apply, B.Allowed, B.GivenBy;
      StepAt(B.Apply(s, steps[0]), steps[1..], i - 1);
    }
  }

  lemma SameNums(s: B.State, step: B.Step)
    requires B.Enabled(s, step)
    ensures B.Apply(s, step).nums == s.nums
  {
  }

  /** All ids that the allocator has got. */
  ghost function Fetched(r: Run): set<int>
    requires IsService(r)
  {
    B.Exec(r.start, r.steps).fetched
  }

  /** The allocators have no ids in common, since the cluster manager gives no range twice. */
  ghost predicate Apart(runs: seq<Run>)
    requires forall k | 0 <= k < |runs| :: IsService(runs[k])
  {
    forall k, l | 0 <= k < |runs| && 0 <= l < |runs| && k != l ::
      Fetched(runs[k]) !! Fetched(runs[l])
  }

  /** Request number a is step at(a) of allocator who(a), and is answered with its slices. */
  datatype Service = Service(runs: seq<Run>, who: nat -> nat, at: nat -> nat, vid: nat -> nat)
  {
    ghost predicate Valid() {
      && (forall k | 0 <= k < |runs| :: IsService(runs[k])) && Apart(runs)
      && (forall a: nat :: who(a) < |runs|)
      && (forall a: nat, b: nat | a != b && who(a) == who(b) :: at(a) != at(b))
      && forall a: nat :: vid(a) < TWO_32
    }

    function Of(a: nat): Run
      requires who(a) < |runs|
    {
      runs[who(a)]
    }

    ghost predicate Answers(a: nat, count: nat, blobs: seq<Slice>) {
      && who(a) < |runs| && B.IsRun(Of(a).start, Of(a).steps)
      && at(a) < |Of(a).steps| && Of(a).steps[at(a)] == B.Alloc(count)
      && B.SlicesGiven(StateAt(Of(a).start, Of(a).steps, at(a)), vid(a), count) == Some(blobs)
    }

    /** Every allocation that succeeds is such an answer. */
    ghost predicate Serves(env: Env) {
      forall size: nat, a: nat | env.alloc(size, a).Some? ::
        0 < size && size + env.blobSize <= TWO_64 && Answers(a, BlobCount(size, env.blobSize), env.alloc(size, a).value)
    }
  }

  /** The ids of an answer are those that the step of the allocator gives. */
  lemma AnswerIsGiven(v: Service, a: nat, count: nat, blobs: seq<Slice>)
    requires v.Valid() && v.Answers(a, count, blobs) && 0 < count < TWO_64
    ensures v.who(a) < |v.runs|
    ensures var run := v.Of(a);
      && B.Inv(run.start) && |B.Given(run.start, run.steps)| == |run.steps|
      && forall bid | bid in Bids(blobs) :: bid as int in B.Given(run.start, run.steps)[v.at(a)]
  {
    var run := v.Of(a);
    assert IsService(run);
    var scope :| B.IsInit(run.start, scope);
    B.InitHasInv(run.start, scope);
    StepAt(run.start, run.steps, v.at(a));
    var s := StateAt(run.start, run.steps, v.at(a));
    RangesGiven(s, count);
    SlicesHold(B.Allocated(s, count).value, v.vid(a));
  }

  lemma {:induction false} InUnion(sets: seq<set<int>>, i: nat)
    requires i < |sets|
    ensures sets[i] <= B.Union(sets)
  {
    if i > 0 {
      InUnion(sets[1..], i - 1);
    }
  }

  /** The answers to two requests have no id in common. */
  lemma AnswersAreApart(v: Service, a: nat, b: nat, m: nat, n: nat, blobs: seq<Slice>, others: seq<Slice>)
    requires v.Valid() && a != b && v.Answers(a, m, blobs) && v.Answers(b, n, others) && 0 < m < TWO_64
    requires 0 < n < TWO_64
    ensures Bids(blobs) !! Bids(others)
  {
    AnswerIsGiven(v, a, m, blobs);
    AnswerIsGiven(v, b, n, others);
    var x, y := v.Of(a), v.Of(b);
    B.RunIsSafe(x.start, x.steps);
    hide B.Given, B.Inv, Bids;
    var i, j := v.at(a), v.at(b);
    if v.who(a) == v.who(b) {
      assert i < j || j < i;
      assert B.Given(x.start, x.steps)[i] !! B.Given(x.start, x.steps)[j];
    } else {
      assert x == v.runs[v.who(a)] && y == v.runs[v.who(b)];
      B.RunIsConserving(x.start, x.steps);
      B.RunIsConserving(y.start, y.steps);
      InUnion(B.Given(x.start, x.steps), i);
      InUnion(B.Given(y.start, y.steps), j);
    }
    forall bid | bid in Bids(blobs)
      ensures bid !in Bids(others)
    {
      assert bid as int in B.Given(x.start, x.steps)[i];
    }
  }

  /** What an upload demands of the allocations is what the allocators give. */
  lemma ServedIsValid(env: Env, v: Service)
    requires env.clusterId < TWO_32 && env.codeMode < 256 && 0 < env.blobSize < TWO_32 && IsSum(env.sum)
    requires v.Valid() && v.Serves(env)
    ensures env.Valid()
  {
    hide IsSum, Bids, BlobCount, Service.Valid, Service.Answers, Env.GoodAlloc;
    forall size: nat, a: nat | 0 < size < TWO_64 && env.alloc(size, a).Some?
      ensures env.GoodAlloc(size, env.alloc(size, a).value)
    {
      ServedIsGood(env, v, size, a);
    }
    forall size: nat, size': nat, a: nat, a': nat | a != a' && env.alloc(size, a).Some? && env.alloc(size', a').Some?
      ensures Bids(env.alloc(size, a).value) !! Bids(env.alloc(size', a').value)
    {
      CountIsRight(size, env.blobSize);
      CountIsRight(size', env.blobSize);
      AnswersAreApart(v, a, a', BlobCount(size, env.blobSize), BlobCount(size', env.blobSize),
                      env.alloc(size, a).value, env.alloc(size', a').value);
    }
  }

  lemma ServedIsGood(env: Env, v: Service, size: nat, a: nat)
    requires 0 < env.blobSize && v.Valid() && v.Serves(env) && env.alloc(size, a).Some?
    ensures env.GoodAlloc(size, env.alloc(size, a).value)
  {
    hide Env.GoodAlloc, BlobCount;
    var run := v.Of(a);
    assert IsService(run);
    var scope :| B.IsInit(run.start, scope);
    B.InitHasInv(run.start, scope);
    StepAt(run.start, run.steps, v.at(a));
    AllocIsGood(env, StateAt(run.start, run.steps, v.at(a)), v.vid(a), size);
  }
}
