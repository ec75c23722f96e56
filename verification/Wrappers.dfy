/** The result shapes and the byte type shared by every module. */
module Wrappers {

  datatype Option<+T> = None | Some(value: T)

  datatype Result<+T> = Ok(value: T) | Err(error: string)

  newtype byte = x: int | 0 <= x < 256

  type Bytes = seq<byte>

  function Concat<T>(parts: seq<seq<T>>): seq<T> {
    if parts == [] then [] else Concat(parts[..|parts| - 1]) + parts[|parts| - 1]
  }

  lemma {:induction false} ConcatAppend<T>(a: seq<seq<T>>, b: seq<seq<T>>)
    ensures Concat(a + b) == Concat(a) + Concat(b)
  {
    if b == [] {
      assert a + b == a;
    } else {
      assert (a + b)[..|a + b| - 1] == a + b[..|b| - 1];
      ConcatAppend(a, b[..|b| - 1]);
    }
  }

  /** The parts before position k make a prefix, and part k comes next. */
  lemma ConcatSplit<T>(parts: seq<seq<T>>, k: nat)
    requires k < |parts|
    ensures |Concat(parts[..k])| + |parts[k]| == |Concat(parts[..k + 1])| <= |Concat(parts)|
    ensures Concat(parts[..k]) <= Concat(parts)
    ensures Concat(parts)[|Concat(parts[..k])|..|Concat(parts[..k + 1])|] == parts[k]
  {
    assert parts == parts[..k + 1] + parts[k + 1..];
    ConcatAppend(parts[..k + 1], parts[k + 1..]);
    assert parts[..k + 1][..k] == parts[..k];
    assert Concat(parts[..k + 1]) == Concat(parts[..k]) + parts[k];
  }
}
