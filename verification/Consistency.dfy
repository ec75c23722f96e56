/** Waiting until all requests begun so far have ended (the blobnode's consistency controller). */
module Consistency {

  /**
   * pending holds the timestamps of the requests under way, in the order they began; waiting the
   * anchors of the synchronizations under way; returned the anchors of those that are over.
   */
  datatype State = State(pending: seq<nat>, time: nat, waiting: set<nat>, returned: set<nat>)

  datatype Step = Begin | End(k: nat) | SyncStart | SyncReturn(anchor: nat)

  /** The front of the list is all that a waiting synchronization looks at. */
  predicate FrontPassed(pending: seq<nat>, anchor: nat) {
    pending == [] || pending[0] > anchor
  }

  predicate Enabled(s: State, step: Step) {
    match step
    case Begin => true
    case End(k) => k < |s.pending|
    case SyncStart => true
    case SyncReturn(anchor) => anchor in s.waiting && FrontPassed(s.pending, anchor)
  }

  function Apply(s: State, step: Step): State
    requires Enabled(s, step)
  {
    match step
    case Begin => s.(pending := s.pending + [s.time + 1], time := s.time + 1)
    case End(k) => s.(pending := s.pending[..k] + s.pending[k + 1..])
    case SyncStart => s.(waiting := s.waiting + {s.time})
    case SyncReturn(anchor) => s.(returned := s.returned + {anchor})
  }

  ghost predicate Ascending(pending: seq<nat>) {
    forall i, j | 0 <= i < j < |pending| :: pending[i] < pending[j]
  }

  ghost predicate Quiet(pending: seq<nat>, anchor: nat) {
    forall t | t in pending :: t > anchor
  }

  ghost predicate Inv(s: State) {
    && Ascending(s.pending) && (forall t | t in s.pending :: t <= s.time)
    && (forall a | a in s.waiting || a in s.returned :: a <= s.time)
    && (forall a | a in s.returned :: Quiet(s.pending, a))
  }

  /** In an ascending list the front tells about all. */
  lemma FrontSuffices(pending: seq<nat>, anchor: nat)
    requires Ascending(pending)
    ensures FrontPassed(pending, anchor) <==> Quiet(pending, anchor)
  {
    if pending != [] {
      assert pending[0] in pending;
    }
  }

  lemma Added(pending: seq<nat>, time: nat)
    requires Ascending(pending) && forall t | t in pending :: t <= time
    ensures Ascending(pending + [time + 1])
  {
    var more := pending + [time + 1];
    forall i, j | 0 <= i < j < |more|
      ensures more[i] < more[j]
    {
      assert pending[i] in pending;
    }
  }

  lemma Removed(pending: seq<nat>, k: nat)
    requires Ascending(pending) && k < |pending|
    ensures var rest := pending[..k] + pending[k + 1..];
      Ascending(rest) && forall t | t in rest :: t in pending
  {
  }

  lemma BeginKeeps(s: State)
    requires Inv(s)
    ensures Inv(Apply(s, Begin))
  {
    Added(s.pending, s.time);
    hide Ascending;
  }

  lemma EndKeeps(s: State, k: nat)
    requires Inv(s) && k < |s.pending|
    ensures Inv(Apply(s, End(k)))
  {
    var rest := s.pending[..k] + s.pending[k + 1..];
    Removed(s.pending, k);
    hide Ascending;
    forall a | a in s.returned
      ensures Quiet(rest, a)
    {
      assert Quiet(s.pending, a);
    }
  }

  lemma StepKeepsInv(s: State, step: Step)
    requires Inv(s) && Enabled(s, step)
    ensures Inv(Apply(s, step))
  {
    hide Ascending, Quiet;
    match step
    case Begin => BeginKeeps(s);
    case End(k) => EndKeeps(s, k);
    case SyncStart =>
    case SyncReturn(anchor) => FrontSuffices(s.pending, anchor);
  }

  ghost predicate IsRun(s: State, steps: seq<Step>)
    decreases |steps|
  {
    steps == [] || (Enabled(s, steps[0]) && IsRun(Apply(s, steps[0]), steps[1..]))
  }

  ghost function Exec(s: State, steps: seq<Step>): State
    requires IsRun(s, steps)
    decreases |steps|
  {
    if steps == [] then s else Exec(Apply(s, steps[0]), steps[1..])
  }

  /** Over every run: requests stay ordered, and what a synchronization has waited for stays ended. */
  lemma {:induction false} RunIsQuiet(s: State, steps: seq<Step>)
    requires Inv(s) && IsRun(s, steps)
    ensures Inv(Exec(s, steps)) && s.returned <= Exec(s, steps).returned
    decreases |steps|
  {
    if steps != [] {
      StepKeepsInv(s, steps[0]);
      RunIsQuiet(Apply(s, steps[0]), steps[1..]);
    }
  }

  /** From the start, once Synchronize has returned T no request begun at or before T is pending, ever. */
  lemma SynchronizeIsQuiet(before: seq<Step>, anchor: nat, after: seq<Step>)
    requires var s0 := State([], 0, {}, {});
      && IsRun(s0, before) && Enabled(Exec(s0, before), SyncReturn(anchor))
      && IsRun(Apply(Exec(s0, before), SyncReturn(anchor)), after)
    ensures var s := Apply(Exec(State([], 0, {}, {}), before), SyncReturn(anchor));
      Quiet(Exec(s, after).pending, anchor)
  {
    var s0 := State([], 0, {}, {});
    RunIsQuiet(s0, before);
    var s := Apply(Exec(s0, before), SyncReturn(anchor));
    StepKeepsInv(Exec(s0, before), SyncReturn(anchor));
    RunIsQuiet(s, after);
    assert anchor in s.returned;
  }

  class ConsistencyController {
    var reqs: seq<nat>
    var timestamp: nat
    ghost var waiting: set<nat>
    ghost var returned: set<nat>

    ghost function Abs(): State
      reads this
    {
      State(reqs, timestamp, waiting, returned)
    }

    constructor ()
      ensures Abs() == State([], 0, {}, {}) && Inv(Abs())
    {
      reqs, timestamp, waiting, returned := [], 0, {}, {};
    }

    method BeginRequest() returns (elem: nat)
      requires Inv(Abs())
      modifies this`reqs, this`timestamp
      ensures Inv(Abs()) && Abs() == Apply(old(Abs()), Begin)
      ensures elem == timestamp && elem !in old(reqs)
    {
      StepKeepsInv(Abs(), Begin);
      timestamp := timestamp + 1;
      elem := timestamp;
      reqs := reqs + [elem];
    }

    /** Takes the request off the list, wherever it is. */
    method EndRequest(elem: nat)
      requires Inv(Abs()) && elem in reqs
      modifies this`reqs
      ensures Inv(Abs())
      ensures exists k: nat :: k < |old(reqs)| && old(reqs)[k] == elem && Abs() == Apply(old(Abs()), End(k))
      ensures elem !in reqs
    {
      var k := 0;
      while reqs[k] != elem
        invariant 0 <= k < |reqs| && elem in reqs[k..]
      {
        k := k + 1;
      }
      StepKeepsInv(Abs(), End(k));
      reqs := reqs[..k] + reqs[k + 1..];
    }

    method CurrentTime() returns (anchor: nat)
      requires Inv(Abs())
      modifies this`waiting
      ensures anchor == timestamp && Inv(Abs()) && Abs() == Apply(old(Abs()), SyncStart)
    {
      anchor := timestamp;
      waiting := waiting + {anchor};
    }

    /** One look at the list: done, or wait for the next request to end. */
    method Check(anchor: nat) returns (done: bool)
      requires Inv(Abs()) && anchor in waiting
      modifies this`returned
      ensures Inv(Abs())
      ensures done <==> Quiet(old(reqs), anchor)
      ensures done <==> FrontPassed(old(reqs), anchor)
      ensures done ==> Abs() == Apply(old(Abs()), SyncReturn(anchor))
      ensures !done ==> Abs() == old(Abs())
    {
      FrontSuffices(reqs, anchor);
      if reqs != [] && reqs[0] <= anchor {
        return false;
      }
      StepKeepsInv(Abs(), SyncReturn(anchor));
      returned := returned + {anchor};
      return true;
    }
  }
}
