/** Upload tokens: what the service issues for an allocated location and which part each one admits. */
module UploadTokens {

  import opened Wrappers
  import opened Arithmetic
  import opened LocationModel

  /** Admits parts of one size for the ids [minBid, minBid + count) of one volume. */
  datatype Token = Token(clusterId: nat, vid: nat, minBid: nat, count: nat, size: nat)
  {
    predicate Admits(cluster: nat, volume: nat, bid: nat, len: nat) {
      clusterId == cluster && vid == volume && minBid <= bid < minBid + count && size == len
    }
  }

  /** Slices as they are allocated: not empty, and with ids that do not wrap around. */
  predicate SlicesOk(blobs: seq<Slice>) {
    forall s | s in blobs :: s.Fits() && s.count > 0 && s.minBid + s.count <= TWO_64
  }

  function LastSize(loc: Location): nat {
    Modulo(loc.size, loc.blobSize)
  }

  function FullToken(loc: Location, i: nat): Token
    requires i < |loc.blobs| && loc.blobs[i].count > 0
  {
    var s := loc.blobs[i];
    var count := if i == |loc.blobs| - 1 && LastSize(loc) > 0 then s.count - 1 else s.count;
    Token(loc.clusterId, s.vid, s.minBid, count, loc.blobSize)
  }

  function LastToken(loc: Location): Token
    requires loc.blobs != [] && loc.blobs[|loc.blobs| - 1].count > 0
  {
    var s := loc.blobs[|loc.blobs| - 1];
    Token(loc.clusterId, s.vid, s.minBid + s.count - 1, 1, LastSize(loc))
  }

  function FullTokens(loc: Location, k: nat): seq<Token>
    requires k <= |loc.blobs| && SlicesOk(loc.blobs)
  {
    if k == 0 || loc.size < loc.blobSize then [] else FullTokens(loc, k - 1) + [FullToken(loc, k - 1)]
  }

  /** A token for each slice, unless all is less than a blob, and one for a last blob that is not full. */
  function TokensOf(loc: Location): seq<Token>
    requires SlicesOk(loc.blobs)
  {
    FullTokens(loc, |loc.blobs|) + if loc.blobs != [] && LastSize(loc) > 0 then [LastToken(loc)] else []
  }

  method GenTokens(loc: Location) returns (tokens: seq<Token>)
    requires SlicesOk(loc.blobs) && loc.blobSize > 0
    ensures tokens == TokensOf(loc)
  {
    tokens := [];
    var hasMultiBlobs := loc.size >= loc.blobSize;
    var lastSize := Modulo(loc.size, loc.blobSize);
    for idx := 0 to |loc.blobs|
      invariant idx < |loc.blobs| ==> tokens == FullTokens(loc, idx)
      invariant idx == |loc.blobs| ==> tokens == TokensOf(loc)
    {
      var blob := loc.blobs[idx];
      if hasMultiBlobs {
        var count := blob.count;
        if idx == |loc.blobs| - 1 && lastSize > 0 {
          count := count - 1;
        }
        tokens := tokens + [Token(loc.clusterId, blob.vid, blob.minBid, count, loc.blobSize)];
      }
      if idx == |loc.blobs| - 1 && lastSize > 0 {
        tokens := tokens + [Token(loc.clusterId, blob.vid, blob.minBid + blob.count - 1, 1, lastSize)];
      }
    }
  }

  lemma {:induction false} FullTokenAt(loc: Location, k: nat, i: nat)
    requires k <= |loc.blobs| && SlicesOk(loc.blobs) && loc.size >= loc.blobSize
    ensures |FullTokens(loc, k)| == k
    ensures i < k ==> FullTokens(loc, k)[i] == FullToken(loc, i)
    decreases k
  {
    if k > 0 {
      FullTokenAt(loc, k - 1, if i < k - 1 then i else 0);
      FullTokenAt(loc, k - 1, i);
    }
  }

  // ---- walking over the blobs of a location ----

  /** Blob number c of slice j is blob number q of all. */
  ghost predicate At(blobs: seq<Slice>, j: nat, c: nat, q: nat) {
    && j <= |blobs| && q == |Refs(blobs[..j])| + c
    && if j < |blobs| then c < blobs[j].count else c == 0
  }

  lemma AtRef(blobs: seq<Slice>, j: nat, c: nat, q: nat)
    requires SlicesOk(blobs) && At(blobs, j, c, q)
    ensures q <= |Refs(blobs)|
    ensures q < |Refs(blobs)| <==> j < |blobs|
    ensures j < |blobs| ==> Refs(blobs)[q] == Ref(blobs[j].vid, blobs[j].minBid + c)
  {
    if j < |blobs| {
      assert blobs[j] in blobs;
      RefsAt(blobs, j, c);
    } else {
      assert blobs[..j] == blobs;
    }
  }

  /** The next blob, as the code steps to it. */
  lemma AtNext(blobs: seq<Slice>, j: nat, c: nat, q: nat)
    requires SlicesOk(blobs) && At(blobs, j, c, q) && j < |blobs|
    ensures if c + 1 == blobs[j].count then At(blobs, j + 1, 0, q + 1) else At(blobs, j, c + 1, q + 1)
  {
    hide Refs;
    RefsNext(blobs, j);
    if j + 1 < |blobs| {
      assert blobs[j + 1] in blobs;
    }
  }

  lemma AtFirst(blobs: seq<Slice>)
    requires SlicesOk(blobs)
    ensures At(blobs, 0, 0, 0)
  {
    if blobs != [] {
      assert blobs[0] in blobs;
    }
  }

  /** The size of part q of an object. */
  function PartSize(size: nat, blobSize: nat, q: nat): nat
    requires Times(q, blobSize) <= size
  {
    var rest := size - Times(q, blobSize);
    if rest < blobSize then rest else blobSize
  }

  /** The token the client takes for a part at slice j. */
  function Chosen(tokens: seq<Token>, restSize: nat, blobSize: nat, j: nat, size: nat): Option<Token> {
    var i := if restSize > blobSize && size < blobSize then j + 1 else j;
    if i < |tokens| then Some(tokens[i]) else None
  }

  lemma PartialIsLast(loc: Location, q: nat)
    requires loc.WellFormed() && q < |Refs(loc.blobs)|
    ensures Times(q, loc.blobSize) < loc.size && PartSize(loc.size, loc.blobSize, q) <= loc.blobSize
    ensures PartSize(loc.size, loc.blobSize, q) < loc.blobSize <==>
      q == |Refs(loc.blobs)| - 1 && LastSize(loc) > 0
    ensures PartSize(loc.size, loc.blobSize, q) < loc.blobSize ==>
      PartSize(loc.size, loc.blobSize, q) == LastSize(loc)
  {
    hide Refs, Wrap64;
    var n, d := |Refs(loc.blobs)|, loc.blobSize;
    TimesMonotone(q, n - 1, d);
    assert Times(n, d) == Times(n - 1, d) + d;
    if loc.size == Times(n, d) {
      Remainder(loc.size, d, n);
    } else {
      Remainder(loc.size, d, n - 1);
    }
    if q < n - 1 {
      TimesMonotone(q + 1, n - 1, d);
      assert Times(q + 1, d) == Times(q, d) + d;
    }
  }

  lemma LastAt(blobs: seq<Slice>, j: nat, c: nat, q: nat)
    requires SlicesOk(blobs) && At(blobs, j, c, q) && j < |blobs|
    ensures q < |Refs(blobs)|
    ensures q == |Refs(blobs)| - 1 <==> j == |blobs| - 1 && c == blobs[j].count - 1
  {
    hide At, Refs;
    AtRef(blobs, j, c, q);
    AtNext(blobs, j, c, q);
    if c + 1 == blobs[j].count {
      AtRef(blobs, j + 1, 0, q + 1);
    } else {
      AtRef(blobs, j, c + 1, q + 1);
    }
  }

  lemma {:induction false} SlicesCount(blobs: seq<Slice>, j: nat)
    requires SlicesOk(blobs) && j <= |blobs|
    ensures |Refs(blobs[..j])| >= j
  {
    if j > 0 {
      SlicesCount(blobs, j - 1);
      RefsNext(blobs, j - 1);
      assert blobs[j - 1] in blobs;
    }
  }

  /** An object smaller than a blob is one blob, with one token. */
  lemma SmallAdmits(loc: Location, j: nat, c: nat, q: nat)
    requires loc.WellFormed() && SlicesOk(loc.blobs) && At(loc.blobs, j, c, q) && j < |loc.blobs|
    requires loc.size < loc.blobSize
    ensures j == c == q == 0 && |loc.blobs| == 1 && loc.blobs[0].count == 1
    ensures TokensOf(loc) == [LastToken(loc)] && LastSize(loc) == loc.size > 0
  {
    var n := |Refs(loc.blobs)|;
    LastAt(loc.blobs, j, c, q);
    if n > 1 {
      TimesMonotone(1, n - 1, loc.blobSize);
    }
    SlicesCount(loc.blobs, j);
    SlicesCount(loc.blobs, |loc.blobs|);
    assert loc.blobs[..|loc.blobs|] == loc.blobs;
    Remainder(loc.size, loc.blobSize, 0);
    assert FullTokens(loc, |loc.blobs|) == [];
  }

  lemma LargeAdmits(loc: Location, j: nat, c: nat, q: nat)
    requires loc.WellFormed() && SlicesOk(loc.blobs) && At(loc.blobs, j, c, q) && j < |loc.blobs|
    requires loc.size >= loc.blobSize
    ensures q < |Refs(loc.blobs)| && Times(q, loc.blobSize) < loc.size
    ensures var size := PartSize(loc.size, loc.blobSize, q);
      var t := Chosen(TokensOf(loc), loc.size, loc.blobSize, j, size);
      t.Some? && t.value.Admits(loc.clusterId, loc.blobs[j].vid, loc.blobs[j].minBid + c, size)
  {
    hide Refs, Times, At, Location.WellFormed, LastSize, PartSize, FullTokens;
    LastAt(loc.blobs, j, c, q);
    PartialIsLast(loc, q);
    FullTokenAt(loc, |loc.blobs|, j);
    AtBound(loc.blobs, j, c, q);
    var size := PartSize(loc.size, loc.blobSize, q);
    if size < loc.blobSize {
      NotOneBlob(loc);
    }
  }

  lemma AtBound(blobs: seq<Slice>, j: nat, c: nat, q: nat)
    requires At(blobs, j, c, q) && j < |blobs|
    ensures c < blobs[j].count
  {
  }

  lemma NotOneBlob(loc: Location)
    requires loc.size >= loc.blobSize > 0 && LastSize(loc) > 0
    ensures loc.size > loc.blobSize
  {
    if loc.size == loc.blobSize {
      Remainder(loc.size, loc.blobSize, 1);
    }
  }

  /** The token taken for a part admits that part. */
  lemma ChosenAdmits(loc: Location, j: nat, c: nat, q: nat)
    requires loc.WellFormed() && SlicesOk(loc.blobs) && At(loc.blobs, j, c, q) && j < |loc.blobs|
    ensures q < |Refs(loc.blobs)| && Times(q, loc.blobSize) < loc.size
    ensures var size := PartSize(loc.size, loc.blobSize, q);
      var t := Chosen(TokensOf(loc), loc.size, loc.blobSize, j, size);
      t.Some? && t.value.Admits(loc.clusterId, loc.blobs[j].vid, loc.blobs[j].minBid + c, size)
  {
    if loc.size < loc.blobSize {
      SmallAdmits(loc, j, c, q);
      LastAt(loc.blobs, j, c, q);
    } else {
      LargeAdmits(loc, j, c, q);
    }
  }
}
