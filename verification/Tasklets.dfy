/** Splitting the blobs of a chunk into tasklets that fit a buffer, and laying a tasklet out in one. */
module Tasklets {

  import opened Wrappers

  datatype Info = Info(bid: nat, size: nat)

  predicate SortedByBid(bids: seq<Info>) {
    forall i, j | 0 <= i < j < |bids| :: bids[i].bid <= bids[j].bid
  }

  function TotalSize(bids: seq<Info>): nat {
    if bids == [] then 0 else TotalSize(bids[..|bids| - 1]) + bids[|bids| - 1].size
  }

  lemma TotalOfMore(bids: seq<Info>, b: Info)
    ensures TotalSize(bids + [b]) == TotalSize(bids) + b.size
  {
    assert (bids + [b])[..|bids|] == bids;
  }

  // ---- splitting ----

  datatype Split = Tasks(tasks: seq<seq<Info>>) | NoLimit | TooBig | Mismatch

  /** Tasklet k has a blob, fits, and its first blob did not fit the one before. */
  ghost predicate GreedyAt(tasks: seq<seq<Info>>, limit: nat, k: nat)
    requires k < |tasks|
  {
    && tasks[k] != [] && TotalSize(tasks[k]) <= limit
    && (k > 0 ==> TotalSize(tasks[k - 1]) + tasks[k][0].size > limit)
  }

  ghost predicate Greedy(tasks: seq<seq<Info>>, limit: nat) {
    forall k: nat | k < |tasks| :: GreedyAt(tasks, limit, k)
  }

  /** The tasklets so far and the one being filled hold the first blobs. */
  ghost predicate Filling(front: seq<Info>, limit: nat, tasks: seq<seq<Info>>, task: seq<Info>) {
    && Concat(tasks) + task == front && TotalSize(task) <= limit
    && if task == [] then tasks == [] else Greedy(tasks + [task], limit)
  }

  /** The blob goes into the tasklet being filled. */
  lemma FillMore(front: seq<Info>, limit: nat, tasks: seq<seq<Info>>, task: seq<Info>, b: Info)
    requires Filling(front, limit, tasks, task) && TotalSize(task) + b.size <= limit
    ensures Filling(front + [b], limit, tasks, task + [b])
  {
    TotalOfMore(task, b);
    assert Concat(tasks) + (task + [b]) == Concat(tasks) + task + [b];
    var before, after := tasks + [task], tasks + [task + [b]];
    hide TotalSize, Concat;
    forall k: nat | k < |after|
      ensures GreedyAt(after, limit, k)
    {
      if task != [] {
        assert GreedyAt(before, limit, k);
        assert k < |tasks| ==> after[k] == before[k];
      }
    }
  }

  /** The blob starts a new tasklet. */
  lemma FillNext(front: seq<Info>, limit: nat, tasks: seq<seq<Info>>, task: seq<Info>, b: Info)
    requires Filling(front, limit, tasks, task) && TotalSize(task) + b.size > limit && b.size <= limit
    ensures task != [] && Filling(front + [b], limit, tasks + [task], [b])
  {
    TotalOfMore([], b);
    assert [] + [b] == [b];
    assert (tasks + [task])[..|tasks|] == tasks;
    assert Concat(tasks + [task]) + [b] == Concat(tasks) + task + [b];
    var before, after := tasks + [task], tasks + [task] + [[b]];
    hide TotalSize, Concat;
    forall k: nat | k < |after|
      ensures GreedyAt(after, limit, k)
    {
      if k < |before| {
        assert GreedyAt(before, limit, k);
        assert after[k] == before[k];
      }
    }
  }

  ghost predicate IsSplit(bids: seq<Info>, limit: nat, tasks: seq<seq<Info>>) {
    && SortedByBid(Concat(tasks)) && multiset(Concat(tasks)) == multiset(bids)
    && Greedy(tasks, limit)
  }

  function CountAll(tasks: seq<seq<Info>>): nat {
    if tasks == [] then 0 else CountAll(tasks[..|tasks| - 1]) + |tasks[|tasks| - 1]|
  }

  lemma {:induction false} CountIsLength(tasks: seq<seq<Info>>)
    ensures CountAll(tasks) == |Concat(tasks)|
  {
    if tasks != [] {
      CountIsLength(tasks[..|tasks| - 1]);
    }
  }

  /**
   * Cuts the list into tasklets, each as long as the limit allows.  sorted is the list after
   * sorting by blob id.
   */
  method BidsSplit(bids: seq<Info>, sorted: seq<Info>, limit: nat) returns (r: Split)
    requires SortedByBid(sorted) && multiset(sorted) == multiset(bids)
    ensures r.NoLimit? <==> limit == 0 && bids != []
    ensures r.TooBig? <==> limit > 0 && exists b :: b in bids && b.size > limit
    ensures !r.Mismatch?
    ensures r.Tasks? ==> IsSplit(bids, limit, r.tasks)
  {
    hide Greedy, TotalSize, SortedByBid, Filling, Concat;
    SameMembers(bids, sorted);
    if bids == [] {
      NothingToSplit(limit);
      return Tasks([]);
    }
    if limit == 0 {
      return NoLimit;
    }
    var tasks: seq<seq<Info>>, task: seq<Info>, size := [], [], 0;
    StartFilling(limit);
    for k := 0 to |sorted|
      invariant size == TotalSize(task) && Filling(sorted[..k], limit, tasks, task)
      invariant forall j | 0 <= j < k :: sorted[j].size <= limit
    {
      var b := sorted[k];
      assert b in sorted;
      if b.size > limit {
        return TooBig;
      }
      assert sorted[..k + 1] == sorted[..k] + [b];
      TotalOfMore(task, b);
      if size + b.size > limit {
        FillNext(sorted[..k], limit, tasks, task, b);
        tasks := tasks + [task];
        task, size := [], 0;
        TotalOfMore(task, b);
        StartFilling(limit);
      } else {
        FillMore(sorted[..k], limit, tasks, task, b);
      }
      size := size + b.size;
      task := task + [b];
      assert [] + [b] == [b];
    }
    assert sorted[..|sorted|] == sorted;
    Filled(sorted, limit, tasks, task);
    tasks := tasks + [task];
    var count := CountBids(tasks);
    assert |sorted| == |multiset(sorted)| == |multiset(bids)| == |bids|;
    if count != |bids| {
      return Mismatch;
    }
    return Tasks(tasks);
  }

  method CountBids(tasks: seq<seq<Info>>) returns (count: nat)
    ensures count == |Concat(tasks)|
  {
    count := 0;
    for k := 0 to |tasks|
      invariant count == CountAll(tasks[..k])
    {
      assert tasks[..k + 1][..k] == tasks[..k];
      count := count + |tasks[k]|;
    }
    assert tasks[..|tasks|] == tasks;
    CountIsLength(tasks);
  }

  lemma SameMembers(a: seq<Info>, b: seq<Info>)
    requires multiset(a) == multiset(b)
    ensures forall x :: x in a <==> x in b
  {
    assert forall x :: x in a <==> x in multiset(a);
    assert forall x :: x in b <==> x in multiset(b);
  }

  lemma StartFilling(limit: nat)
    ensures TotalSize([]) == 0 && Filling([], limit, [], [])
  {
  }

  lemma NothingToSplit(limit: nat)
    ensures IsSplit([], limit, [])
  {
  }

  lemma Filled(front: seq<Info>, limit: nat, tasks: seq<seq<Info>>, task: seq<Info>)
    requires Filling(front, limit, tasks, task) && front != []
    ensures Concat(tasks + [task]) == front && Greedy(tasks + [task], limit)
  {
    assert (tasks + [task])[..|tasks|] == tasks;
  }

  // ---- laying out a tasklet ----

  /** Where a blob's bytes go in the buffer. */
  datatype Region = Region(start: nat, end: nat)

  /** Region j is inside the buffer, as long as its blob, and apart from every earlier one. */
  ghost predicate IsLayout(bids: seq<Info>, regions: seq<Region>, length: nat) {
    && |regions| == |bids|
    && (forall j | 0 <= j < |bids| :: regions[j].start + bids[j].size == regions[j].end <= length)
    && forall i, j | 0 <= i < j < |bids| :: regions[i].end <= regions[j].start
  }

  /** The blobs one after the other; None when the buffer is too short. */
  method PlanningDataLayout(bids: seq<Info>, length: nat) returns (r: Option<seq<Region>>)
    ensures r.None? <==> TotalSize(bids) > length
    ensures r.Some? ==> IsLayout(bids, r.value, length)
  {
    hide IsLayout, TotalSize;
    NoLayout();
    assert bids[..0] == [];
    var total := 0;
    for k := 0 to |bids|
      invariant total == TotalSize(bids[..k])
    {
      assert bids[..k + 1] == bids[..k] + [bids[k]];
      TotalOfMore(bids[..k], bids[k]);
      total := total + bids[k].size;
    }
    assert bids[..|bids|] == bids;
    if total > length {
      return None;
    }
    var offset, regions: seq<Region> := 0, [];
    for k := 0 to |bids|
      invariant offset == TotalSize(bids[..k]) <= length && |regions| == k
      invariant IsLayout(bids[..k], regions, offset)
    {
      assert bids[..k + 1] == bids[..k] + [bids[k]];
      TotalOfMore(bids[..k], bids[k]);
      FrontIsLess(bids, k + 1);
      LayoutMore(bids[..k], regions, offset, bids[k]);
      regions := regions + [Region(offset, offset + bids[k].size)];
      offset := offset + bids[k].size;
    }
    LayoutLonger(bids, regions, offset, length);
    return Some(regions);
  }

  lemma NoLayout()
    ensures IsLayout([], [], 0) && TotalSize([]) == 0
  {
  }

  lemma LayoutMore(bids: seq<Info>, regions: seq<Region>, offset: nat, b: Info)
    requires IsLayout(bids, regions, offset)
    ensures IsLayout(bids + [b], regions + [Region(offset, offset + b.size)], offset + b.size)
  {
  }

  lemma LayoutLonger(bids: seq<Info>, regions: seq<Region>, offset: nat, length: nat)
    requires IsLayout(bids, regions, offset) && offset <= length
    ensures IsLayout(bids, regions, length)
  {
  }

  lemma {:induction false} FrontIsLess(bids: seq<Info>, k: nat)
    requires k <= |bids|
    ensures TotalSize(bids[..k]) <= TotalSize(bids)
    decreases |bids| - k
  {
    if k == |bids| {
      assert bids[..k] == bids;
    } else {
      FrontIsLess(bids, k + 1);
      assert bids[..k + 1] == bids[..k] + [bids[k]];
      TotalOfMore(bids[..k], bids[k]);
    }
  }

  /** A tasklet always fits the buffer it was made for, so its layout does not fail. */
  lemma TaskletFits(bids: seq<Info>, limit: nat, tasks: seq<seq<Info>>, k: nat)
    requires IsSplit(bids, limit, tasks) && k < |tasks|
    ensures tasks[k] != [] && TotalSize(tasks[k]) <= limit
  {
    assert GreedyAt(tasks, limit, k);
  }

  /** Splits the blobs and lays each tasklet out in a buffer of the limit's length. */
  method LayOutTasklets(bids: seq<Info>, sorted: seq<Info>, limit: nat) returns (r: Split, layouts: seq<seq<Region>>)
    requires SortedByBid(sorted) && multiset(sorted) == multiset(bids)
    ensures r.Tasks? <==> bids == [] || (limit > 0 && forall b | b in bids :: b.size <= limit)
    ensures r.Tasks? ==> IsSplit(bids, limit, r.tasks) && |layouts| == |r.tasks|
    ensures r.Tasks? ==> forall k | 0 <= k < |layouts| :: IsLayout(r.tasks[k], layouts[k], limit)
  {
    hide IsLayout, IsSplit, SortedByBid;
    layouts := [];
    r := BidsSplit(bids, sorted, limit);
    if !r.Tasks? {
      return;
    }
    for k := 0 to |r.tasks|
      invariant |layouts| == k && forall j | 0 <= j < k :: IsLayout(r.tasks[j], layouts[j], limit)
    {
      TaskletFits(bids, limit, r.tasks, k);
      var layout := PlanningDataLayout(r.tasks[k], limit);
      layouts := layouts + [layout.value];
    }
  }
}
