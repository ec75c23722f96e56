/**
 * Reading one blob from its shards (access readOneBlob) as a step system.
 *
 * A launcher starts the first reads at once and each further one for a token; the reader takes
 * results in any order, and after each decides whether it is done, broken, or wants one more.
 */
module ReadBlob {

  import opened Wrappers
  import opened Counting

  /**
   * order lists the shards that may be read, nearest first; the first `first` are read at once.
   * empties are the data shards past the end of the blob, known to be zeros.
   */
  datatype Config = Config(n: nat, m: nat, order: seq<nat>, first: nat, empties: set<nat>, readable: set<nat>,
                           zero: Bytes, truth: nat -> Bytes, code: seq<Option<Bytes>> -> seq<Bytes>)
  {
    ghost predicate Valid() {
      && Distinct(order) && (forall i | i in order :: i < n + m)
      && n <= first <= |order|
      && (forall i | i in empties :: i < n && truth(i) == zero) && |empties| < n
    }

    /** Any n true shards of the n + m decode to all of them. */
    ghost predicate MDS() {
      forall got: map<nat, Bytes> | AllTrue(got) && |got.Keys| >= n ::
        |code(Part(got))| == n + m && forall i: nat | i < n + m :: code(Part(got))[i] == truth(i)
    }

    ghost predicate AllTrue(got: map<nat, Bytes>) {
      forall i | i in got :: i < n + m && got[i] == truth(i)
    }

    function Part(got: map<nat, Bytes>): seq<Option<Bytes>> {
      seq(n + m, i requires 0 <= i => if i in got then Some(got[i]) else None)
    }

    /** The shards a read can bring or that need no read. */
    ghost function Have(): set<nat> {
      empties + Members(order) * readable
    }
  }

  datatype Outcome = Running | Success | Failure

  /**
   * pos is how far the launcher is in the order; good and bad are the results received so far;
   * bufs are the shard buffers that were filled.
   */
  datatype State = State(pos: nat, inflight: set<nat>, tokens: nat, good: set<nat>, bad: set<nat>,
                         bufs: map<nat, Bytes>, outcome: Outcome)

  datatype Step = Skip | Launch | Deliver(i: nat)

  datatype Verdict = Wait | Whole | TooManyBad | Rebuild | Exhausted | Next

  predicate DataWhole(good: set<nat>, n: nat) {
    forall i: nat | i < n :: i in good
  }

  /** What the reader concludes from the results so far. */
  function Conclude(good: set<nat>, bad: set<nat>, n: nat, m: nat, listed: nat): Verdict {
    var received := |good| + |bad|;
    if received < n then Wait
    else if DataWhole(good, n) then Whole
    else if |bad| > m then TooManyBad
    else if received >= n + |bad| then Rebuild
    else if received >= listed then Exhausted
    else Next
  }

  function Init(c: Config): State {
    State(0, {}, 0, c.empties, {}, map i | i in c.empties :: c.zero, Running)
  }

  predicate Enabled(c: Config, s: State, step: Step) {
    && s.outcome == Running
    && match step
       case Skip => s.pos < |c.order| && c.order[s.pos] in c.empties
       case Launch => s.pos < |c.order| && c.order[s.pos] !in c.empties && (s.pos < c.first || s.tokens > 0)
       case Deliver(i) => i in s.inflight
  }

  /** Decoding from the good shards fills the other data shards. */
  function Rebuilt(c: Config, s: State): map<nat, Bytes> {
    var word := c.code(c.Part(map i | i in s.bufs && i in s.good :: s.bufs[i]));
    s.bufs + map i: nat | i < c.n && i < |word| && i !in s.good :: word[i]
  }

  function Delivered(c: Config, s: State, i: nat): State {
    if i in c.readable then
      s.(inflight := s.inflight - {i}, good := s.good + {i}, bufs := s.bufs[i := c.truth(i)])
    else
      s.(inflight := s.inflight - {i}, bad := s.bad + {i})
  }

  function Judged(c: Config, s: State): State {
    match Conclude(s.good, s.bad, c.n, c.m, |c.order|)
    case Wait => s
    case Whole => s.(outcome := Success)
    case TooManyBad => s.(outcome := Failure)
    case Rebuild => s.(outcome := Success, bufs := Rebuilt(c, s))
    case Exhausted => s.(outcome := Failure)
    case Next => s.(tokens := s.tokens + 1)
  }

  function Apply(c: Config, s: State, step: Step): State
    requires Enabled(c, s, step)
  {
    match step
    case Skip => s.(pos := s.pos + 1)
    case Launch =>
      s.(pos := s.pos + 1, inflight := s.inflight + {c.order[s.pos]},
         tokens := if s.pos < c.first then s.tokens else s.tokens - 1)
    case Deliver(i) => Judged(c, Delivered(c, s, i))
  }

  ghost predicate IsRun(c: Config, s: State, steps: seq<Step>)
    decreases |steps|
  {
    steps == [] || (Enabled(c, s, steps[0]) && IsRun(c, Apply(c, s, steps[0]), steps[1..]))
  }

  ghost function Exec(c: Config, s: State, steps: seq<Step>): State
    requires IsRun(c, s, steps)
    decreases |steps|
  {
    if steps == [] then s else Exec(c, Apply(c, s, steps[0]), steps[1..])
  }

  // ---- invariant ----

  /** Up to pos each listed shard was read, is being read or is empty; from pos on none was. */
  ghost predicate Accounted(c: Config, s: State) {
    && s.pos <= |c.order|
    && c.empties <= s.good
    && (forall k | 0 <= k < s.pos :: c.order[k] in s.good || c.order[k] in s.bad || c.order[k] in s.inflight)
    && (forall k | s.pos <= k < |c.order| && c.order[k] !in c.empties ::
          c.order[k] !in s.good && c.order[k] !in s.bad && c.order[k] !in s.inflight)
    && (forall i | i in s.inflight :: i in c.order && i !in s.good && i !in s.bad)
    && (forall i | i in s.good :: i in c.empties || (i in c.order && i in c.readable))
    && (forall i | i in s.bad :: i in c.order && i !in c.empties && i !in c.readable)
  }

  ghost predicate Truthful(c: Config, s: State) {
    forall i | i in s.good :: i in s.bufs && s.bufs[i] == c.truth(i)
  }

  /** Each token was sent for a result; once n results are in, a read is under way or a token waits. */
  ghost predicate Live(c: Config, s: State) {
    && s.tokens + |c.empties| <= |s.good| + |s.bad|
    && (s.outcome == Running ==>
          && (|s.good| + |s.bad| < c.n || Conclude(s.good, s.bad, c.n, c.m, |c.order|) == Next)
          && (|s.good| + |s.bad| >= c.n ==> s.tokens + |s.inflight| > 0))
  }

  ghost predicate Right(c: Config, s: State) {
    forall i: nat | i < c.n :: i in s.bufs && s.bufs[i] == c.truth(i)
  }

  ghost predicate Decided(c: Config, s: State) {
    && (s.outcome == Success ==> |s.good| >= c.n && Right(c, s))
    && (s.outcome == Failure ==> |s.bad| > c.m || (|s.good| + |s.bad| >= |c.order| && |s.good| < c.n))
  }

  ghost predicate Inv(c: Config, s: State) {
    Accounted(c, s) && Truthful(c, s) && Live(c, s) && Decided(c, s)
  }

  lemma InitHasInv(c: Config)
    requires c.Valid()
    ensures Inv(c, Init(c))
  {
  }

  lemma MoveKeeps(c: Config, s: State, step: Step)
    requires c.Valid() && Inv(c, s) && Enabled(c, s, step) && !step.Deliver?
    ensures Inv(c, Apply(c, s, step))
    ensures |Apply(c, s, step).inflight| <= |s.inflight| + 1
  {
    hide Conclude;
  }

  lemma DeliveredAccounted(c: Config, s: State, i: nat)
    requires Accounted(c, s) && i in s.inflight
    ensures Accounted(c, Delivered(c, s, i))
  {
    var d := Delivered(c, s, i);
    assert forall j | j in s.inflight :: j == i || j in d.inflight;
    if i in c.readable {
      assert d.good == s.good + {i} && d.bad == s.bad;
    } else {
      assert d.good == s.good && d.bad == s.bad + {i};
    }
  }

  lemma DeliveredSizes(c: Config, s: State, i: nat)
    requires Accounted(c, s) && i in s.inflight
    ensures |Delivered(c, s, i).good| + |Delivered(c, s, i).bad| == |s.good| + |s.bad| + 1
    ensures |Delivered(c, s, i).inflight| == |s.inflight| - 1
    ensures Delivered(c, s, i).tokens == s.tokens && Delivered(c, s, i).outcome == s.outcome
  {
    assert i !in s.good && i !in s.bad;
    hide Accounted;
  }

  lemma DeliveredTruthful(c: Config, s: State, i: nat)
    requires Truthful(c, s)
    ensures Truthful(c, Delivered(c, s, i))
  {
  }

  /** The verdict changes neither the results nor the good buffers. */
  lemma JudgedKeeps(c: Config, d: State)
    requires Accounted(c, d) && Truthful(c, d)
    ensures Accounted(c, Judged(c, d)) && Truthful(c, Judged(c, d))
  {
    hide Conclude;
  }

  lemma RebuiltIsTrue(c: Config, s: State)
    requires c.Valid() && c.MDS() && Accounted(c, s) && Truthful(c, s) && |s.good| >= c.n
    ensures Right(c, s.(outcome := Success, bufs := Rebuilt(c, s)))
  {
    var got := map i | i in s.bufs && i in s.good :: s.bufs[i];
    assert got.Keys == s.good;
    assert c.AllTrue(got);
  }

  lemma JudgedDecides(c: Config, d: State)
    requires c.Valid() && c.MDS() && Accounted(c, d) && Truthful(c, d)
    requires d.outcome == Running && d.tokens + |c.empties| < |d.good| + |d.bad|
    ensures Live(c, Judged(c, d)) && Decided(c, Judged(c, d))
  {
    hide Config.Valid, Config.MDS, Accounted, Truthful, Rebuilt, DataWhole, Right;
    match Conclude(d.good, d.bad, c.n, c.m, |c.order|)
    case Whole =>
      WholeIsRight(c, d);
    case Rebuild => RebuiltIsTrue(c, d);
    case _ =>
  }

  lemma DeliverKeeps(c: Config, s: State, i: nat)
    requires c.Valid() && c.MDS() && Inv(c, s) && Enabled(c, s, Deliver(i))
    ensures Inv(c, Apply(c, s, Deliver(i)))
  {
    var d := Delivered(c, s, i);
    DeliveredAccounted(c, s, i);
    DeliveredSizes(c, s, i);
    DeliveredTruthful(c, s, i);
    hide Config.Valid, Config.MDS, Accounted, Truthful, Decided, Delivered, Judged, Conclude;
    JudgedKeeps(c, d);
    JudgedDecides(c, d);
  }

  lemma WholeIsRight(c: Config, d: State)
    requires Truthful(c, d) && DataWhole(d.good, c.n)
    ensures Right(c, d.(outcome := Success)) && |d.good| >= c.n
  {
    FullSize(d.good, c.n);
  }

  lemma StepKeepsInv(c: Config, s: State, step: Step)
    requires c.Valid() && c.MDS() && Inv(c, s) && Enabled(c, s, step)
    ensures Inv(c, Apply(c, s, step))
  {
    hide Inv, Apply, Config.Valid, Config.MDS;
    if step.Deliver? {
      DeliverKeeps(c, s, step.i);
    } else {
      MoveKeeps(c, s, step);
    }
  }

  lemma {:induction false} RunKeepsInv(c: Config, s: State, steps: seq<Step>)
    requires c.Valid() && c.MDS() && Inv(c, s) && IsRun(c, s, steps)
    ensures Inv(c, Exec(c, s, steps))
    decreases |steps|
  {
    hide Inv, Apply, Config.Valid, Config.MDS;
    if steps != [] {
      StepKeepsInv(c, s, steps[0]);
      RunKeepsInv(c, Apply(c, s, steps[0]), steps[1..]);
    }
  }

  // ---- theorems over every run ----

  ghost predicate Reached(c: Config, s: State) {
    exists steps :: IsRun(c, Init(c), steps) && Exec(c, Init(c), steps) == s
  }

  lemma ReachedHasInv(c: Config, s: State)
    requires c.Valid() && c.MDS() && Reached(c, s)
    ensures Inv(c, s)
  {
    InitHasInv(c);
    var steps :| IsRun(c, Init(c), steps) && Exec(c, Init(c), steps) == s;
    RunKeepsInv(c, Init(c), steps);
  }

  /** A read that reports success has every data shard right, whatever the order of arrival. */
  lemma SuccessIsRight(c: Config, s: State)
    requires c.Valid() && c.MDS() && Reached(c, s) && s.outcome == Success
    ensures Right(c, s) && |c.Have()| >= c.n
  {
    ReachedHasInv(c, s);
    hide Config.MDS, Reached, Live, Right;
    SubsetSize(s.good, c.Have());
  }

  /** When every empty shard is listed, a read that fails has too few shards to be read. */
  lemma FailureIsRight(c: Config, s: State)
    requires c.Valid() && c.MDS() && Reached(c, s) && s.outcome == Failure && c.empties <= Members(c.order)
    ensures |c.Have()| < c.n
  {
    ReachedHasInv(c, s);
    if |s.bad| > c.m {
      TooFewLeft(c, s);
    } else {
      AllRead(c, s);
    }
  }

  lemma TooFewLeft(c: Config, s: State)
    requires c.Valid() && Accounted(c, s) && |s.bad| > c.m
    ensures |c.Have()| < c.n
  {
    assert c.Have() !! s.bad;
    assert forall i | i in c.Have() + s.bad :: i < c.n + c.m;
    BoundedSize(c.Have() + s.bad, c.n + c.m);
    assert |c.Have() + s.bad| == |c.Have()| + |s.bad|;
  }

  lemma AllRead(c: Config, s: State)
    requires c.Valid() && Accounted(c, s) && |s.good| + |s.bad| >= |c.order| && c.empties <= Members(c.order)
    ensures s.good == c.Have()
  {
    hide Config.MDS;
    DistinctSize(c.order);
    assert s.good !! s.bad;
    assert |s.good + s.bad| == |s.good| + |s.bad|;
    SubsetSize(s.good + s.bad, Members(c.order));
    assert forall i | i in c.order :: i in s.good + s.bad;
  }

  /** The send on the token channel finds room. */
  lemma SendNeverBlocks(c: Config, s: State, i: nat)
    requires c.Valid() && c.MDS() && Reached(c, s) && Enabled(c, s, Deliver(i))
    requires var d := Delivered(c, s, i); Conclude(d.good, d.bad, c.n, c.m, |c.order|) == Next
    ensures s.tokens < |c.order|
  {
    ReachedHasInv(c, s);
    DeliveredSizes(c, s, i);
  }

  lemma AllResults(c: Config, s: State)
    requires Distinct(c.order) && Accounted(c, s) && s.inflight == {}
    ensures |s.good| + |s.bad| >= s.pos
  {
    DistinctSize(c.order[..s.pos]);
    forall i | i in c.order[..s.pos]
      ensures i in s.good + s.bad
    {
      var k :| 0 <= k < s.pos && c.order[k] == i;
    }
    SubsetSize(Members(c.order[..s.pos]), s.good + s.bad);
  }

  lemma AllDelivered(c: Config, s: State)
    requires c.Valid() && Inv(c, s) && s.outcome == Running && s.inflight == {} && s.pos >= c.first
    ensures s.pos < |c.order| && s.tokens > 0
  {
    AllResults(c, s);
    hide Config.MDS, Accounted, Truthful, Distinct, DataWhole;
  }

  /** Some step is always possible until the outcome is known. */
  lemma NeverStuck(c: Config, s: State) returns (step: Step)
    requires c.Valid() && c.MDS() && Reached(c, s) && s.outcome == Running
    ensures Enabled(c, s, step)
  {
    ReachedHasInv(c, s);
    if s.inflight != {} {
      var i :| i in s.inflight;
      step := Deliver(i);
    } else {
      if s.pos >= c.first {
        AllDelivered(c, s);
      }
      step := if c.order[s.pos] in c.empties then Skip else Launch;
    }
  }

  ghost function Measure(c: Config, s: State): int {
    2 * (|c.order| - s.pos) + |s.inflight|
  }

  lemma DeliverDescends(c: Config, s: State, i: nat)
    requires Accounted(c, s) && Enabled(c, s, Deliver(i))
    ensures Measure(c, Apply(c, s, Deliver(i))) == Measure(c, s) - 1
  {
    hide Accounted, Conclude, Rebuilt, DataWhole;
    DeliveredSizes(c, s, i);
    JudgedMoves(c, Delivered(c, s, i));
    hide Judged;
  }

  /** The verdict launches and delivers nothing. */
  lemma JudgedMoves(c: Config, d: State)
    ensures Judged(c, d).pos == d.pos && Judged(c, d).inflight == d.inflight && Judged(c, d).good == d.good
  {
    hide Conclude, Rebuilt;
  }

  lemma StepDescends(c: Config, s: State, step: Step)
    requires c.Valid() && Inv(c, s) && Enabled(c, s, step)
    ensures Measure(c, Apply(c, s, step)) < Measure(c, s)
  {
    if step.Deliver? {
      DeliverDescends(c, s, step.i);
    } else {
      MoveKeeps(c, s, step);
      hide Inv, Config.Valid;
    }
  }

  /** Every run is bounded. */
  lemma {:induction false} RunsAreShort(c: Config, s: State, steps: seq<Step>)
    requires c.Valid() && c.MDS() && Inv(c, s) && IsRun(c, s, steps)
    ensures |steps| <= Measure(c, s)
    decreases |steps|
  {
    hide Inv, Apply, Config.Valid, Config.MDS;
    if steps != [] {
      MeasureIsNat(c, s);
      StepDescends(c, s, steps[0]);
      StepKeepsInv(c, s, steps[0]);
      RunsAreShort(c, Apply(c, s, steps[0]), steps[1..]);
    } else {
      MeasureIsNat(c, s);
    }
  }

  lemma MeasureIsNat(c: Config, s: State)
    requires Inv(c, s)
    ensures Measure(c, s) >= 0
  {
  }

  /**
   * The whole read, when every empty shard is listed: each run is at most two steps a listed
   * shard, and one that cannot go on has succeeded, with the right data, exactly when n shards
   * can be had.
   */
  lemma ReadIsExact(c: Config, steps: seq<Step>)
    requires c.Valid() && c.MDS() && IsRun(c, Init(c), steps) && c.empties <= Members(c.order)
    ensures |steps| <= 2 * |c.order|
    ensures var s := Exec(c, Init(c), steps);
      (forall step :: !Enabled(c, s, step)) ==>
        && s.outcome == (if |c.Have()| >= c.n then Success else Failure)
        && (s.outcome == Success ==> Right(c, s))
  {
    InitHasInv(c);
    RunsAreShort(c, Init(c), steps);
    var s := Exec(c, Init(c), steps);
    assert Reached(c, s);
    hide Config.Valid, Config.MDS, Reached, Inv, IsRun, Exec, Enabled, Right;
    if s.outcome == Running {
      var step := NeverStuck(c, s);
    } else if s.outcome == Success {
      SuccessIsRight(c, s);
    } else {
      FailureIsRight(c, s);
    }
  }

  /** A run that cannot go on ends with this: the data shards, or nothing. */
  ghost predicate EndsWith(c: Config, result: Option<seq<Bytes>>) {
    exists steps :: IsRun(c, Init(c), steps) && IsEnd(c, Exec(c, Init(c), steps), result)
  }

  ghost predicate IsEnd(c: Config, s: State, result: Option<seq<Bytes>>) {
    && (forall step :: !Enabled(c, s, step)) && (result.Some? <==> s.outcome == Success)
    && (result.Some? ==>
          |result.value| == c.n && forall i: nat | i < c.n :: i in s.bufs && result.value[i] == s.bufs[i])
  }

  /** However a read ends, what it brings are the data shards, and only if n shards can be had; when
      every empty shard is listed, always if they can. */
  lemma EndIsExact(c: Config, result: Option<seq<Bytes>>)
    requires c.Valid() && c.MDS() && EndsWith(c, result)
    ensures result.Some? ==> |result.value| == c.n && forall i: nat | i < c.n :: result.value[i] == c.truth(i)
    ensures result.Some? ==> |c.Have()| >= c.n
    ensures c.empties <= Members(c.order) && |c.Have()| >= c.n ==> result.Some?
  {
    hide Config.Valid, Config.MDS;
    var steps :| IsRun(c, Init(c), steps) && IsEnd(c, Exec(c, Init(c), steps), result);
    assert Reached(c, Exec(c, Init(c), steps));
    if result.Some? {
      SuccessIsRight(c, Exec(c, Init(c), steps));
    }
    if c.empties <= Members(c.order) {
      ReadIsExact(c, steps);
    }
  }

  /** And it does end. */
  lemma ReadEnds(c: Config) returns (result: Option<seq<Bytes>>)
    requires c.Valid() && c.MDS()
    ensures EndsWith(c, result)
  {
    InitHasInv(c);
    assert IsRun(c, Init(c), []) && Exec(c, Init(c), []) == Init(c);
    assert Reached(c, Init(c));
    var steps := RunToEnd(c, Init(c));
    hide Config.Valid, Config.MDS;
    var s := Exec(c, Init(c), steps);
    assert Reached(c, s);
    result := None;
    if s.outcome == Success {
      SuccessIsRight(c, s);
      result := Some(seq(c.n, i requires 0 <= i < c.n => s.bufs[i]));
    }
    assert IsEnd(c, s, result);
  }

  lemma {:induction false} RunToEnd(c: Config, s: State) returns (steps: seq<Step>)
    requires c.Valid() && c.MDS() && Reached(c, s) && Inv(c, s)
    ensures IsRun(c, s, steps) && Exec(c, s, steps).outcome != Running
    decreases if Measure(c, s) < 0 then 0 else Measure(c, s)
  {
    if s.outcome != Running {
      steps := [];
    } else {
      var step := NeverStuck(c, s);
      StepDescends(c, s, step);
      StepKeepsInv(c, s, step);
      hide Config.Valid, Config.MDS, Inv, Enabled, Apply;
      MeasureIsNat(c, Apply(c, s, step));
      ReachedOn(c, s, step);
      var rest := RunToEnd(c, Apply(c, s, step));
      OneMore(c, s, step, rest);
      steps := [step] + rest;
    }
  }

  lemma ReachedOn(c: Config, s: State, step: Step)
    requires Reached(c, s) && Enabled(c, s, step)
    ensures Reached(c, Apply(c, s, step))
  {
    var steps :| IsRun(c, Init(c), steps) && Exec(c, Init(c), steps) == s;
    StepAtEnd(c, Init(c), steps, step);
  }

  lemma {:induction false} StepAtEnd(c: Config, s: State, steps: seq<Step>, step: Step)
    requires IsRun(c, s, steps) && Enabled(c, Exec(c, s, steps), step)
    ensures IsRun(c, s, steps + [step]) && Exec(c, s, steps + [step]) == Apply(c, Exec(c, s, steps), step)
    decreases |steps|
  {
    hide Enabled, Apply;
    if steps == [] {
      assert steps + [step] == [step] + [];
      OneMore(c, s, step, []);
    } else {
      StepAtEnd(c, Apply(c, s, steps[0]), steps[1..], step);
      assert steps + [step] == [steps[0]] + (steps[1..] + [step]);
      OneMore(c, s, steps[0], steps[1..] + [step]);
    }
  }

  // ---- the hypothesis is exact ----

  /** The listed shards before p that need a read. */
  ghost function Front(c: Config, p: nat): set<nat>
    requires p <= |c.order|
  {
    set j | 0 <= j < p && c.order[j] !in c.empties :: c.order[j]
  }

  /** Just so many of the first listed shards cannot be read that n - 1 of the listed ones can. */
  ghost predicate Spoiled(c: Config, p: nat) {
    && p <= |c.order| && |Front(c, p)| == |c.order| - c.n + 1
    && forall i | i in c.order :: i in c.readable <==> i !in Front(c, p)
  }

  lemma FrontNext(c: Config, p: nat)
    requires c.Valid() && p < |c.order|
    ensures |Front(c, p + 1)| == |Front(c, p)| + if c.order[p] in c.empties then 0 else 1
  {
    hide Config.MDS;
    if c.order[p] in c.empties {
      assert Front(c, p + 1) == Front(c, p);
    } else {
      assert Front(c, p + 1) == Front(c, p) + {c.order[p]};
      assert c.order[p] !in Front(c, p);
    }
  }

  lemma {:induction false} FrontOfSize(c: Config, from: nat, size: nat) returns (p: nat)
    requires c.Valid() && from <= |c.order| && |Front(c, from)| <= size <= |Front(c, |c.order|)|
    ensures p <= |c.order| && |Front(c, p)| == size
    decreases |c.order| - from
  {
    if |Front(c, from)| == size {
      p := from;
    } else {
      FrontNext(c, from);
      p := FrontOfSize(c, from + 1, size);
    }
  }

  /** With an empty shard that is not listed, enough of the listed ones need a read. */
  lemma FrontIsLarge(c: Config, e: nat)
    requires c.Valid() && e in c.empties && e !in c.order
    ensures |c.order| - c.n + 1 <= |Front(c, |c.order|)|
  {
    DistinctSize(c.order);
    var listed := Members(c.order) * c.empties;
    assert Members(c.order) == Front(c, |c.order|) + listed;
    assert Front(c, |c.order|) !! listed;
    SubsetSize(listed, c.empties - {e});
  }

  lemma SpoiledHasEnough(c: Config, p: nat, e: nat)
    requires c.Valid() && Spoiled(c, p) && e in c.empties && e !in c.order
    ensures |c.Have()| >= c.n
  {
    DistinctSize(c.order);
    var front := Front(c, p);
    assert forall i | i in front :: i in c.order;
    assert |Members(c.order) - front| == |Members(c.order)| - |front| by {
      SubsetSize(front, Members(c.order));
      assert Members(c.order) == (Members(c.order) - front) + front;
    }
    SubsetSize((Members(c.order) - front) + {e}, c.Have());
  }

  /** A shard that is launched and delivered at once does not make n good ones. */
  lemma TooFewGood(c: Config, s: State, p: nat)
    requires c.Valid() && Inv(c, s) && s.outcome == Running && s.inflight == {} && Spoiled(c, p)
    requires s.pos < |c.order| && c.order[s.pos] !in c.empties
    ensures var i := c.order[s.pos]; |s.good| + (if i in c.readable then 1 else 0) < c.n
  {
    var i := c.order[s.pos];
    if i in Front(c, p) {
      assert i !in c.readable;
      var q :| 0 <= q < p && c.order[q] == i;
      assert s.pos == q;
      forall g | g in s.good
        ensures g in c.empties
      {
        OnlyEmptiesBefore(c, s, p, g);
      }
      SubsetSize(s.good, c.empties);
    } else {
      forall f | f in Front(c, p)
        ensures f in s.bad
      {
        var q :| 0 <= q < p && c.order[q] == f;
        FrontIsBad(c, s, p, q);
      }
      SubsetSize(Front(c, p), s.bad);
      assert |s.good| + |s.bad| < |c.order|;
    }
  }

  lemma OnlyEmptiesBefore(c: Config, s: State, p: nat, g: nat)
    requires Accounted(c, s) && s.pos <= p && Spoiled(c, p) && g in s.good
    ensures g in c.empties
  {
  }

  lemma FrontIsBad(c: Config, s: State, p: nat, q: nat)
    requires c.Valid() && Accounted(c, s) && s.inflight == {} && Spoiled(c, p)
    requires q < p && c.order[q] in Front(c, p) && s.pos < |c.order|
    requires c.order[s.pos] !in Front(c, p) && c.order[s.pos] !in c.empties
    ensures c.order[q] in s.bad
  {
    assert p <= s.pos;
    assert c.order[q] !in c.readable;
    var r :| 0 <= r < p && c.order[r] !in c.empties && c.order[r] == c.order[q];
  }

  /** Launching each shard and waiting for it, the read fails. */
  lemma {:induction false} SpoiledFails(c: Config, s: State, p: nat) returns (steps: seq<Step>)
    requires c.Valid() && c.MDS() && Inv(c, s) && s.outcome == Running && s.inflight == {} && Spoiled(c, p)
    ensures IsRun(c, s, steps) && Exec(c, s, steps).outcome == Failure
    decreases |c.order| - s.pos
  {
    if s.pos >= c.first {
      AllDelivered(c, s);
    }
    assert s.pos < |c.order|;
    var i := c.order[s.pos];
    if i in c.empties {
      StepKeepsInv(c, s, Skip);
      var rest := SpoiledFails(c, Apply(c, s, Skip), p);
      OneMore(c, s, Skip, rest);
      steps := [Skip] + rest;
    } else {
      StepKeepsInv(c, s, Launch);
      TooFewGood(c, s, p);
      var s1 := Apply(c, s, Launch);
      assert s1.inflight == {i};
      var s2 := LaunchedAlone(c, s, s1, i);
      var rest: seq<Step> := [];
      if s2.outcome == Running {
        rest := SpoiledFails(c, s2, p);
      }
      OneMore(c, s1, Deliver(i), rest);
      OneMore(c, s, Launch, [Deliver(i)] + rest);
      steps := [Launch] + ([Deliver(i)] + rest);
    }
  }

  lemma LaunchedAlone(c: Config, s: State, s1: State, i: nat) returns (s2: State)
    requires c.Valid() && c.MDS() && Inv(c, s1) && s1.outcome == Running && s1.inflight == {i}
    requires s1.good == s.good && |s.good| + (if i in c.readable then 1 else 0) < c.n
    ensures Enabled(c, s1, Deliver(i)) && s2 == Apply(c, s1, Deliver(i)) && Inv(c, s2)
    ensures s2.inflight == {} && s2.pos == s1.pos && s2.outcome != Success
  {
    hide Config.Valid, Config.MDS, Accounted, Truthful, Live, Judged, Right;
    s2 := Apply(c, s1, Deliver(i));
    StepKeepsInv(c, s1, Deliver(i));
    JudgedMoves(c, Delivered(c, s1, i));
  }

  lemma OneMore(c: Config, s: State, step: Step, rest: seq<Step>)
    requires Enabled(c, s, step) && IsRun(c, Apply(c, s, step), rest)
    ensures IsRun(c, s, [step] + rest) && Exec(c, s, [step] + rest) == Exec(c, Apply(c, s, step), rest)
  {
    assert ([step] + rest)[1..] == rest;
  }

  /** A run that cannot go on and has not succeeded, with the right data, exactly if it could. */
  ghost predicate EndsWrong(c: Config, steps: seq<Step>) {
    && IsRun(c, Init(c), steps)
    && var s := Exec(c, Init(c), steps);
       && (forall step :: !Enabled(c, s, step))
       && (s.outcome != (if |c.Have()| >= c.n then Success else Failure) || (s.outcome == Success && !Right(c, s)))
  }

  /** With an empty shard that is not listed, for some shards that can be read the read gives up
      although n shards can be had: it counts that shard against the listed ones. */
  lemma UnlistedEmptyGivesUp(c: Config, e: nat) returns (readable: set<nat>, steps: seq<Step>)
    requires c.Valid() && c.MDS() && e in c.empties && e !in c.order
    ensures EndsWrong(c.(readable := readable), steps)
    ensures Exec(c.(readable := readable), Init(c.(readable := readable)), steps).outcome == Failure
  {
    FrontIsLarge(c, e);
    assert Front(c, 0) == {};
    var p := FrontOfSize(c, 0, |c.order| - c.n + 1);
    readable := Members(c.order) - Front(c, p);
    var c' := c.(readable := readable);
    SameShape(c, c');
    assert Front(c', p) == Front(c, p);
    SpoiledHasEnough(c', p, e);
    InitHasInv(c');
    steps := SpoiledFails(c', Init(c'), p);
  }

  lemma SameShape(c: Config, c': Config)
    requires c.Valid() && c.MDS() && c' == c.(readable := c'.readable)
    ensures c'.Valid() && c'.MDS()
  {
    forall got: map<nat, Bytes> | c'.AllTrue(got) && |got.Keys| >= c.n
      ensures |c.code(c'.Part(got))| == c.n + c.m
      ensures forall i: nat | i < c.n + c.m :: c.code(c'.Part(got))[i] == c.truth(i)
    {
      assert c.AllTrue(got);
      assert c.Part(got) == c'.Part(got);
    }
  }

  /** For every code, list of shards and set of empty ones: all reads end right, whichever shards
      can be read, if and only if every empty shard is listed. */
  lemma ListingIsExact(c: Config)
    requires c.Valid() && c.MDS()
    ensures c.empties <= Members(c.order) <==>
      forall readable: set<nat>, steps: seq<Step> :: !EndsWrong(c.(readable := readable), steps)
  {
    hide Config.Valid, Config.MDS;
    if c.empties <= Members(c.order) {
      forall readable: set<nat>, steps: seq<Step>
        ensures !EndsWrong(c.(readable := readable), steps)
      {
        var c' := c.(readable := readable);
        SameShape(c, c');
        if IsRun(c', Init(c'), steps) {
          ReadIsExact(c', steps);
        }
      }
    } else {
      var e :| e in c.empties && e !in Members(c.order);
      var readable, steps := UnlistedEmptyGivesUp(c, e);
    }
  }

  // ---- the reader's own loops ----

  function Good(received: map<nat, bool>): set<nat> {
    set i | i in received && received[i]
  }

  function Bad(received: map<nat, bool>): set<nat> {
    set i | i in received && !received[i]
  }

  method CountBad(received: map<nat, bool>) returns (count: nat)
    ensures count == |Bad(received)|
  {
    count := 0;
    var keys := received.Keys;
    ghost var done: set<nat> := {};
    while keys != {}
      invariant keys <= received.Keys
      invariant count == |done| && done == Bad(received) - keys
      decreases keys
    {
      var i :| i in keys;
      keys := keys - {i};
      if !received[i] {
        count := count + 1;
        done := done + {i};
      }
    }
  }

  lemma GoodAndBad(received: map<nat, bool>)
    ensures |received| == |Good(received)| + |Bad(received)|
  {
    assert received.Keys == Good(received) + Bad(received);
  }

  /** Whether no data shard is among the bad ones. */
  method DataReceived(received: map<nat, bool>, n: nat) returns (whole: bool)
    ensures whole <==> DataWhole(Good(received), n)
  {
    var missing := [];
    for i := 0 to n
      invariant missing == [] <==> DataWhole(Good(received), i)
    {
      assert i in Good(received) <==> i in received && received[i];
      if !(i in received && received[i]) {
        missing := missing + [i];
      }
    }
    whole := missing == [];
  }

  /** The verdict as the reader computes it, from its map of results. */
  method Judge(received: map<nat, bool>, n: nat, m: nat, listed: nat) returns (v: Verdict)
    ensures v == Conclude(Good(received), Bad(received), n, m, listed)
  {
    GoodAndBad(received);
    if |received| < n {
      return Wait;
    }
    var whole := DataReceived(received, n);
    hide Good, Bad, DataWhole;
    if whole {
      return Whole;
    }
    var badShards := CountBad(received);
    if badShards > m {
      return TooManyBad;
    }
    if |received| >= n + badShards {
      return Rebuild;
    }
    if |received| >= listed {
      return Exhausted;
    }
    return Next;
  }

  // ---- the order of the shards ----

  datatype Host = Host(sameZone: bool, punished: bool)

  function Distance(h: Host): nat {
    if h.punished then if h.sameZone then 2 else 3
    else if h.sameZone then 0 else 1
  }

  /** The shards at one distance, by index; those whose host is unknown are in none. */
  function Bucket(host: nat -> Option<Host>, total: nat, d: nat): seq<nat> {
    if total == 0 then []
    else
      var rest := Bucket(host, total - 1, d);
      if host(total - 1).Some? && Distance(host(total - 1).value) == d then rest + [total - 1] else rest
  }

  lemma {:induction false} BucketFacts(host: nat -> Option<Host>, total: nat, d: nat)
    ensures Distinct(Bucket(host, total, d))
    ensures forall i :: i in Bucket(host, total, d) <==> 0 <= i < total && host(i).Some? && Distance(host(i).value) == d
  {
    if total > 0 {
      BucketFacts(host, total - 1, d);
    }
  }

  lemma {:induction false} CountsOfDistinct(s: seq<nat>)
    requires Distinct(s)
    ensures forall x: nat :: multiset(s)[x] <= 1
  {
    if s != [] {
      var n := |s| - 1;
      CountsOfDistinct(s[..n]);
      assert s == s[..n] + [s[n]];
      assert s[n] !in s[..n];
      assert s[n] !in multiset(s[..n]);
    }
  }

  lemma TwiceInList(t: seq<nat>, i: nat, j: nat)
    requires i < j < |t| && t[i] == t[j]
    ensures multiset(t)[t[i]] >= 2
  {
    assert t == t[..j] + t[j..];
    assert t[..j][i] in multiset(t[..j]) && t[j..][0] in multiset(t[j..]);
    assert multiset(t) == multiset(t[..j]) + multiset(t[j..]);
  }

  /** Shuffling keeps a list free of repetition, and its members. */
  lemma ShuffledFacts(s: seq<nat>, t: seq<nat>)
    requires Distinct(s) && multiset(s) == multiset(t)
    ensures Distinct(t) && forall i :: i in t <==> i in s
  {
    CountsOfDistinct(s);
    forall i, j | 0 <= i < j < |t|
      ensures t[i] != t[j]
    {
      if t[i] == t[j] {
        TwiceInList(t, i, j);
      }
    }
    assert forall i :: i in t <==> i in multiset(t);
    assert forall i :: i in s <==> i in multiset(s);
  }

  /** Every shard with a known host nearer than d, nearest first and none twice. */
  ghost predicate Nearest(host: nat -> Option<Host>, total: nat, d: nat, order: seq<nat>) {
    && Distinct(order)
    && (forall i :: i in order <==> 0 <= i < total && host(i).Some? && Distance(host(i).value) < d)
    && forall j, k | 0 <= j < k < |order| && host(order[j]).Some? && host(order[k]).Some? ::
         Distance(host(order[j]).value) <= Distance(host(order[k]).value)
  }

  lemma NextNearest(host: nat -> Option<Host>, total: nat, d: nat, order: seq<nat>, more: seq<nat>)
    requires Nearest(host, total, d, order) && Distinct(more)
    requires forall i :: i in more <==> 0 <= i < total && host(i).Some? && Distance(host(i).value) == d
    ensures Nearest(host, total, d + 1, order + more)
  {
    forall j, k | 0 <= j < k < |order + more|
      ensures (order + more)[j] != (order + more)[k]
    {
      if j < |order| <= k {
        assert order[j] in order && more[k - |order|] in more;
      }
    }
    forall j, k | 0 <= j < k < |order + more| && host((order + more)[j]).Some? && host((order + more)[k]).Some?
      ensures Distance(host((order + more)[j]).value) <= Distance(host((order + more)[k]).value)
    {
      if j < |order| {
        assert order[j] in order;
      } else {
        assert more[j - |order|] in more;
      }
      if k >= |order| {
        assert more[k - |order|] in more;
      }
    }
  }

  /** The list of shards to read: near ones before far ones, punished ones last, each group shuffled. */
  method GenSortedVuidByIDC(total: nat, host: nat -> Option<Host>, shuffle: seq<nat> -> seq<nat>)
    returns (order: seq<nat>)
    requires forall s: seq<nat> :: multiset(shuffle(s)) == multiset(s)
    ensures Nearest(host, total, 4, order)
    ensures (forall i: nat | i < total :: host(i).Some?) ==> |order| == total
  {
    order := [];
    for d := 0 to 4
      invariant Nearest(host, total, d, order)
    {
      var bucket := Bucket(host, total, d);
      BucketFacts(host, total, d);
      ShuffledFacts(bucket, shuffle(bucket));
      NextNearest(host, total, d, order, shuffle(bucket));
      order := order + shuffle(bucket);
    }
    if forall i: nat | i < total :: host(i).Some? {
      DistinctSize(order);
      FullSize(Members(order), total);
      BoundedSize(Members(order), total);
    }
  }
}
