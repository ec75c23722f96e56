/** Locations of stored objects, and the list of blobs a location stands for. */
module LocationModel {

  import opened Arithmetic

  const TWO_32: nat := 0x1_0000_0000
  const TWO_64: nat := 0x1_0000_0000_0000_0000

  function Wrap64(x: int): nat {
    x % TWO_64
  }

  /** count consecutive blob ids of one volume. */
  datatype Slice = Slice(minBid: nat, vid: nat, count: nat)
  {
    predicate Fits() {
      minBid < TWO_64 && vid < TWO_32 && count < TWO_32
    }
  }

  datatype Location = Location(clusterId: nat, codeMode: nat, size: nat, blobSize: nat, crc: nat, blobs: seq<Slice>)
  {
    /** Every field fits its integer width. */
    predicate Fits() {
      && clusterId < TWO_32 && codeMode < 256 && size < TWO_64 && blobSize < TWO_32 && crc < TWO_32
      && forall s | s in blobs :: s.Fits()
    }

    /** There are just as many blobs as the size needs. */
    ghost predicate WellFormed() {
      var n := |Refs(blobs)|;
      blobSize > 0 && size <= Times(n, blobSize) && (n > 0 ==> Times(n - 1, blobSize) < size)
    }
  }

  datatype Ref = Ref(vid: nat, bid: nat)

  function SliceRefs(s: Slice, count: nat): seq<Ref> {
    seq(count, i requires 0 <= i => Ref(s.vid, Wrap64(s.minBid + i)))
  }

  /** The blobs of a location, in order. */
  function Refs(blobs: seq<Slice>): seq<Ref> {
    if blobs == [] then []
    else Refs(blobs[..|blobs| - 1]) + SliceRefs(blobs[|blobs| - 1], blobs[|blobs| - 1].count)
  }

  lemma {:induction false} RefsAppend(a: seq<Slice>, b: seq<Slice>)
    ensures Refs(a + b) == Refs(a) + Refs(b)
  {
    if b == [] {
      assert a + b == a;
    } else {
      assert (a + b)[..|a + b| - 1] == a + b[..|b| - 1];
      RefsAppend(a, b[..|b| - 1]);
    }
  }

  lemma RefsNext(blobs: seq<Slice>, k: nat)
    requires k < |blobs|
    ensures Refs(blobs[..k + 1]) == Refs(blobs[..k]) + SliceRefs(blobs[k], blobs[k].count)
  {
    assert blobs[..k + 1][..k] == blobs[..k];
  }

  /** Blob j of slice k in the list of all blobs. */
  lemma RefsAt(blobs: seq<Slice>, k: nat, j: nat)
    requires k < |blobs| && j <= blobs[k].count
    ensures |Refs(blobs[..k])| + j <= |Refs(blobs)|
    ensures j < blobs[k].count ==>
      && |Refs(blobs[..k])| + j < |Refs(blobs)|
      && Refs(blobs)[|Refs(blobs[..k])| + j] == Ref(blobs[k].vid, Wrap64(blobs[k].minBid + j))
  {
    RefsSplit(blobs, k);
    hide Refs, Wrap64;
  }

  lemma RefsSplit(blobs: seq<Slice>, k: nat)
    requires k < |blobs|
    ensures Refs(blobs) == Refs(blobs[..k]) + SliceRefs(blobs[k], blobs[k].count) + Refs(blobs[k + 1..])
  {
    hide Refs, SliceRefs;
    RefsNext(blobs, k);
    RefsAppend(blobs[..k + 1], blobs[k + 1..]);
    assert blobs == blobs[..k + 1] + blobs[k + 1..];
  }

  datatype Blob = Blob(bid: nat, vid: nat, size: nat)

  function SumSizes(blobs: seq<Blob>): nat {
    if blobs == [] then 0 else SumSizes(blobs[..|blobs| - 1]) + blobs[|blobs| - 1].size
  }

  lemma {:induction false} SameSizes(blobs: seq<Blob>, size: nat)
    requires forall b | b in blobs :: b.size == size
    ensures SumSizes(blobs) == Times(|blobs|, size)
  {
    if blobs != [] {
      SameSizes(blobs[..|blobs| - 1], size);
      assert blobs[|blobs| - 1] in blobs;
      TimesNext(|blobs| - 1, size);
    }
  }

  /** The last blob of an object has what is left, the others are full. */
  function BlobSize(loc: Location, k: nat, count: nat): nat {
    if k == count - 1 && loc.blobSize > 0 && Modulo(loc.size, loc.blobSize) > 0 then Modulo(loc.size, loc.blobSize)
    else loc.blobSize
  }

  function RefsOf(blobs: seq<Blob>): seq<Ref> {
    seq(|blobs|, i requires 0 <= i < |blobs| => Ref(blobs[i].vid, blobs[i].bid))
  }

  lemma AppendBlob(blobs: seq<Blob>, front: seq<Ref>, s: Slice, j: nat, size: nat)
    requires RefsOf(blobs) == front + SliceRefs(s, j)
    ensures RefsOf(blobs + [Blob(Wrap64(s.minBid + j), s.vid, size)]) == front + SliceRefs(s, j + 1)
  {
    var b := Blob(Wrap64(s.minBid + j), s.vid, size);
    assert SliceRefs(s, j + 1) == SliceRefs(s, j) + [Ref(b.vid, b.bid)];
    assert RefsOf(blobs + [b]) == RefsOf(blobs) + [Ref(b.vid, b.bid)];
  }

  /** The blobs with their sizes: all full but the last, which holds the rest of the object. */
  method Spread(loc: Location) returns (blobs: seq<Blob>)
    ensures RefsOf(blobs) == Refs(loc.blobs)
    ensures forall k | 0 <= k < |blobs| :: blobs[k].size == BlobSize(loc, k, |blobs|)
    ensures loc.WellFormed() ==> SumSizes(blobs) == loc.size
  {
    blobs := [];
    for k := 0 to |loc.blobs|
      invariant RefsOf(blobs) == Refs(loc.blobs[..k])
      invariant forall b | b in blobs :: b.size == loc.blobSize
    {
      var s := loc.blobs[k];
      assert SliceRefs(s, 0) == [];
      for j := 0 to s.count
        invariant RefsOf(blobs) == Refs(loc.blobs[..k]) + SliceRefs(s, j)
        invariant forall b | b in blobs :: b.size == loc.blobSize
      {
        AppendBlob(blobs, Refs(loc.blobs[..k]), s, j, loc.blobSize);
        blobs := blobs + [Blob(Wrap64(s.minBid + j), s.vid, loc.blobSize)];
      }
      RefsNext(loc.blobs, k);
    }
    assert loc.blobs[..|loc.blobs|] == loc.blobs;
    SameSizes(blobs, loc.blobSize);
    assert forall k | 0 <= k < |blobs| :: blobs[k] in blobs;
    if |blobs| > 0 && loc.blobSize > 0 {
      ghost var full := blobs;
      var last := Modulo(loc.size, loc.blobSize);
      if last > 0 {
        blobs := blobs[|blobs| - 1 := blobs[|blobs| - 1].(size := last)];
      }
      assert |RefsOf(full)| == |full|;
      if loc.WellFormed() {
        LastSize(loc, full, blobs);
      }
    }
  }

  lemma LastSize(loc: Location, full: seq<Blob>, blobs: seq<Blob>)
    requires loc.WellFormed() && |full| == |Refs(loc.blobs)| > 0 && SumSizes(full) == Times(|full|, loc.blobSize)
    requires full[|full| - 1].size == loc.blobSize
    requires var last := Modulo(loc.size, loc.blobSize);
      blobs == if last > 0 then full[|full| - 1 := full[|full| - 1].(size := last)] else full
    ensures SumSizes(blobs) == loc.size
  {
    hide Refs, Times, Modulo;
    var n := |full| - 1;
    assert blobs[..n] == full[..n];
    TimesNext(n, loc.blobSize);
    Remainder(loc.size, loc.blobSize, if loc.size == Times(n + 1, loc.blobSize) then n + 1 else n);
  }
}
