/**
 * Reading a byte range of an object (access Get): cutting the range into pieces of blobs, and
 * writing each piece out of its shards or by reads of the data shards alone.
 */
module RangeRead {

  import opened Wrappers
  import opened Arithmetic
  import opened CodeMode
  import opened Counting
  import opened LocationModel
  import opened ReadBlob

  lemma SliceOfSlice(s: Bytes, a: nat, b: nat, i: nat, j: nat)
    requires a <= b <= |s| && i <= j <= b - a
    ensures s[a..b][i..j] == s[a + i..a + j]
  {
    assert forall x | 0 <= x < j - i :: s[a..b][i..j][x] == s[a..b][i + x];
  }

  lemma JoinSlices(s: Bytes, a: nat, b: nat, c: nat)
    requires a <= b <= c <= |s|
    ensures s[a..b] + s[b..c] == s[a..c]
  {
  }

  // ---- cutting the range ----

  /** The bytes [offset, offset + readSize) of one blob of blobSize bytes. */
  datatype Piece = Piece(vid: nat, bid: nat, blobSize: nat, offset: nat, readSize: nat)

  /** The range [from, to) and blob k have bytes in common. */
  ghost predicate Touches(loc: Location, k: nat, from: nat, to: nat) {
    k < |Refs(loc.blobs)| && from < Times(k + 1, loc.blobSize) && Times(k, loc.blobSize) < to && from < to
  }

  /** What the range [from, to) and blob k have in common. */
  ghost function PieceAt(loc: Location, k: nat, from: nat, to: nat): Piece
    requires Touches(loc, k, from, to)
  {
    var start, next := Times(k, loc.blobSize), Times(k + 1, loc.blobSize);
    var ref := Refs(loc.blobs)[k];
    assert start <= next by { TimesMonotone(k, k + 1, loc.blobSize); }
    Piece(ref.vid, ref.bid, Min(Wrap64(loc.size - start), loc.blobSize),
          Max(from, start) - start, Min(to, next) - Max(from, start))
  }

  ghost predicate IsPieceAt(loc: Location, k: nat, from: nat, to: nat, piece: Piece) {
    Touches(loc, k, from, to) && piece == PieceAt(loc, k, from, to)
  }

  ghost predicate Cut(loc: Location, from: nat, to: nat, first: nat, pieces: seq<Piece>) {
    forall j | 0 <= j < |pieces| :: IsPieceAt(loc, first + j, from, to, pieces[j])
  }

  /** Blob first is the one that holds byte from. */
  ghost predicate StartsIn(loc: Location, from: nat, first: nat) {
    Times(first, loc.blobSize) <= from < Times(first + 1, loc.blobSize)
  }

  /** The pieces are those of the blob where the range starts and of the next ones, up to its end. */
  ghost predicate Pieces(loc: Location, from: nat, to: nat, first: nat, pieces: seq<Piece>) {
    StartsIn(loc, from, first) && Cut(loc, from, to, first, pieces) && to <= Times(first + |pieces|, loc.blobSize)
  }

  /** Where the cutting stands before blob idx. */
  ghost predicate Progress(loc: Location, from: nat, to: nat, first: nat, idx: nat, remain: nat, offset: nat,
                           pieces: seq<Piece>) {
    if idx <= first then
      remain == to - from && offset == from - Times(first, loc.blobSize) && pieces == []
    else
      && Cut(loc, from, to, first, pieces) && |pieces| == idx - first
      && offset == 0 && remain == Max(to, Times(idx, loc.blobSize)) - Times(idx, loc.blobSize)
  }

  lemma FirstBlob(loc: Location, from: nat)
    requires loc.blobSize > 0
    ensures StartsIn(loc, from, Quotient(from, loc.blobSize))
    ensures Times(Quotient(from, loc.blobSize), loc.blobSize) + Modulo(from, loc.blobSize) == from
  {
    hide Times, Quotient, Modulo;
    QuotientFacts(from, loc.blobSize);
    TimesNext(Quotient(from, loc.blobSize), loc.blobSize);
  }

  /** The next piece, as the code computes it, is what the range and the blob have in common. */
  lemma NextPiece(loc: Location, from: nat, to: nat, first: nat, idx: nat, remain: nat, offset: nat, pieces: seq<Piece>)
    requires loc.blobSize > 0 && from < to && idx < |Refs(loc.blobs)| && remain > 0 && idx >= first
    requires StartsIn(loc, from, first) && Progress(loc, from, to, first, idx, remain, offset, pieces)
    ensures offset < loc.blobSize && Touches(loc, idx, from, to)
    ensures var p := PieceAt(loc, idx, from, to);
      && p.offset == offset && p.readSize == Min(remain, loc.blobSize - offset)
      && remain - p.readSize == Max(to, Times(idx + 1, loc.blobSize)) - Times(idx + 1, loc.blobSize)
  {
    TimesNext(idx, loc.blobSize);
    if idx > first {
      TimesMonotone(first + 1, idx, loc.blobSize);
    }
    hide Times, Wrap64, Refs, Cut;
  }

  lemma CutMore(loc: Location, from: nat, to: nat, first: nat, pieces: seq<Piece>)
    requires Cut(loc, from, to, first, pieces) && Touches(loc, first + |pieces|, from, to)
    ensures Cut(loc, from, to, first, pieces + [PieceAt(loc, first + |pieces|, from, to)])
  {
  }

  lemma Covered(loc: Location, from: nat, to: nat, first: nat, idx: nat, remain: nat, offset: nat, pieces: seq<Piece>)
    requires from < to && idx <= |Refs(loc.blobs)| && StartsIn(loc, from, first)
    requires Progress(loc, from, to, first, idx, remain, offset, pieces)
    ensures remain == 0 ==> Pieces(loc, from, to, first, pieces) && to <= Times(|Refs(loc.blobs)|, loc.blobSize)
    ensures remain > 0 && idx == |Refs(loc.blobs)| ==> to > Times(|Refs(loc.blobs)|, loc.blobSize)
  {
    TimesMonotone(idx, |Refs(loc.blobs)|, loc.blobSize);
    if idx <= first {
      TimesMonotone(idx, first, loc.blobSize);
    }
    hide Times, Refs, Cut;
  }

  /** What is done at one blob. */
  method CutOne(loc: Location, vid: nat, bid: nat, idx: nat, first: nat, remain: nat, blobOffset: nat,
                pieces: seq<Piece>, ghost from: nat, ghost to: nat)
    returns (remain': nat, blobOffset': nat, pieces': seq<Piece>)
    requires loc.blobSize > 0 && from < to && remain > 0 && StartsIn(loc, from, first)
    requires idx < |Refs(loc.blobs)| && Refs(loc.blobs)[idx] == Ref(vid, bid)
    requires Progress(loc, from, to, first, idx, remain, blobOffset, pieces)
    ensures Progress(loc, from, to, first, idx + 1, remain', blobOffset', pieces')
  {
    hide StartsIn, Progress, Wrap64, Refs, Times;
    remain', blobOffset', pieces' := remain, blobOffset, pieces;
    if idx >= first {
      NextPiece(loc, from, to, first, idx, remain, blobOffset, pieces);
      var size := Min(remain, loc.blobSize - blobOffset);
      if size > 0 {
        var piece := Piece(vid, bid, Min(Wrap64(loc.size - Times(idx, loc.blobSize)), loc.blobSize), blobOffset, size);
        Taken(loc, from, to, first, idx, remain, blobOffset, pieces, piece);
        pieces' := pieces + [piece];
      }
      blobOffset' := 0;
      remain' := remain - size;
    } else {
      Skipped(loc, from, to, first, idx, remain, blobOffset, pieces);
    }
  }

  /** Cuts the range into pieces, walking over the blobs of the location. */
  method GenLocationBlobs(loc: Location, readSize: nat, offset: nat) returns (r: Result<seq<Piece>>)
    requires loc.Fits() && readSize < TWO_64 && offset < TWO_64
    ensures r.Ok? <==>
      && Wrap64(offset + readSize) <= loc.size && loc.blobSize > 0
      && (readSize == 0 || offset + readSize <= Times(|Refs(loc.blobs)|, loc.blobSize))
    ensures r.Ok? && readSize == 0 ==> r.value == []
    ensures r.Ok? && readSize > 0 ==> Pieces(loc, offset, offset + readSize, Quotient(offset, loc.blobSize), r.value)
  {
    if Wrap64(offset + readSize) > loc.size {
      return Err("range out of file size");
    }
    if loc.blobSize == 0 {
      return Err("blob size");
    }
    if readSize == 0 {
      return Ok([]);
    }
    var remain, first, blobOffset: nat := readSize, Quotient(offset, loc.blobSize), Modulo(offset, loc.blobSize);
    FirstBlob(loc, offset);
    hide StartsIn, Progress, Pieces, Cut, Quotient, Modulo, PieceAt, Times, Wrap64, Refs, Touches, Location.Fits,
         Max, IsPieceAt;
    ghost var to := offset + readSize;
    var idx := 0;
    var pieces: seq<Piece> := [];
    Begin(loc, offset, to, first);
    for s := 0 to |loc.blobs|
      invariant idx == |Refs(loc.blobs[..s])|
      invariant Progress(loc, offset, to, first, idx, remain, blobOffset, pieces)
    {
      for ii := 0 to loc.blobs[s].count
        invariant idx == |Refs(loc.blobs[..s])| + ii
        invariant Progress(loc, offset, to, first, idx, remain, blobOffset, pieces)
      {
        RefsAt(loc.blobs, s, ii);
        if remain <= 0 {
          Covered(loc, offset, to, first, idx, remain, blobOffset, pieces);
          return Ok(pieces);
        }
        remain, blobOffset, pieces :=
          CutOne(loc, loc.blobs[s].vid, Wrap64(loc.blobs[s].minBid + ii), idx, first, remain, blobOffset, pieces,
                 offset, to);
        idx := idx + 1;
      }
      RefsNext(loc.blobs, s);
      assert |SliceRefs(loc.blobs[s], loc.blobs[s].count)| == loc.blobs[s].count;
    }
    assert loc.blobs[..|loc.blobs|] == loc.blobs;
    Covered(loc, offset, to, first, idx, remain, blobOffset, pieces);
    if remain > 0 {
      return Err("no enough data to read");
    }
    return Ok(pieces);
  }

  lemma Begin(loc: Location, from: nat, to: nat, first: nat)
    requires from < to && StartsIn(loc, from, first)
    ensures Progress(loc, from, to, first, 0, to - from, from - Times(first, loc.blobSize), [])
    ensures Refs([]) == []
  {
  }

  lemma Skipped(loc: Location, from: nat, to: nat, first: nat, idx: nat, remain: nat, offset: nat, pieces: seq<Piece>)
    requires idx < first && Progress(loc, from, to, first, idx, remain, offset, pieces)
    ensures Progress(loc, from, to, first, idx + 1, remain, offset, pieces)
  {
  }

  lemma Taken(loc: Location, from: nat, to: nat, first: nat, idx: nat, remain: nat, offset: nat, pieces: seq<Piece>,
              piece: Piece)
    requires loc.blobSize > 0 && from < to && idx < |Refs(loc.blobs)| && remain > 0 && idx >= first
    requires StartsIn(loc, from, first) && Progress(loc, from, to, first, idx, remain, offset, pieces)
    requires offset < loc.blobSize
    requires var ref := Refs(loc.blobs)[idx];
      piece == Piece(ref.vid, ref.bid, Min(Wrap64(loc.size - Times(idx, loc.blobSize)), loc.blobSize), offset,
                     Min(remain, loc.blobSize - offset))
    ensures Progress(loc, from, to, first, idx + 1, remain - piece.readSize, 0, pieces + [piece])
    ensures piece.readSize > 0
  {
    NextPiece(loc, from, to, first, idx, remain, offset, pieces);
    assert piece == PieceAt(loc, idx, from, to);
    assert idx == first + |pieces| && Cut(loc, from, to, first, pieces);
    CutMore(loc, from, to, first, pieces);
  }

  // ---- the cut of a well-formed location ----

  /** The bytes of blob k of an object. */
  ghost function BlobBytes(data: Bytes, blobSize: nat, k: nat): Bytes
    requires Times(k, blobSize) <= |data|
  {
    data[Times(k, blobSize)..Max(Times(k, blobSize), Min(Times(k + 1, blobSize), |data|))]
  }

  /** A well-formed location accepts exactly the ranges inside the object. */
  lemma AcceptsExactly(loc: Location, readSize: nat, offset: nat)
    requires loc.Fits() && loc.WellFormed() && readSize < TWO_64 && offset < TWO_64
    requires Times(|Refs(loc.blobs)|, loc.blobSize) < TWO_64
    ensures
      (Wrap64(offset + readSize) <= loc.size &&
       (readSize == 0 || offset + readSize <= Times(|Refs(loc.blobs)|, loc.blobSize)))
      <==> offset + readSize <= loc.size
  {
  }

  /** A piece lies inside its blob and is not empty. */
  lemma PieceInBounds(loc: Location, data: Bytes, from: nat, to: nat, k: nat, p: Piece)
    requires loc.blobSize > 0 && |data| == loc.size < TWO_64 && to <= loc.size && IsPieceAt(loc, k, from, to, p)
    ensures Times(k, loc.blobSize) < loc.size && p.blobSize == |BlobBytes(data, loc.blobSize, k)|
    ensures 0 < p.readSize && p.offset + p.readSize <= p.blobSize
    ensures BlobBytes(data, loc.blobSize, k)[p.offset..p.offset + p.readSize] ==
      data[Max(from, Times(k, loc.blobSize))..Min(to, Times(k + 1, loc.blobSize))]
  {
    hide Times, Refs, Wrap64;
    TimesNext(k, loc.blobSize);
    NoWrap(loc.size - Times(k, loc.blobSize));
    var start, end := Times(k, loc.blobSize), Min(Times(k + 1, loc.blobSize), |data|);
    assert BlobBytes(data, loc.blobSize, k) == data[start..end];
    SliceOfSlice(data, start, end, p.offset, p.offset + p.readSize);
  }

  lemma NoWrap(x: nat)
    requires x < TWO_64
    ensures Wrap64(x) == x
  {
  }

  /** The bytes of the pieces, given the blob where the first one is. */
  ghost function PieceBytes(data: Bytes, blobSize: nat, first: nat, pieces: seq<Piece>): seq<Bytes> {
    seq(|pieces|, j requires 0 <= j < |pieces| => BytesOf(data, blobSize, first + j, pieces[j]))
  }

  ghost function BytesOf(data: Bytes, blobSize: nat, k: nat, p: Piece): Bytes {
    if Times(k, blobSize) <= |data| && p.offset + p.readSize <= |BlobBytes(data, blobSize, k)| then
      BlobBytes(data, blobSize, k)[p.offset..p.offset + p.readSize]
    else []
  }

  /** How much of the range lies before blob k. */
  ghost function UpTo(loc: Location, from: nat, to: nat, k: nat): nat {
    Max(from, Min(to, Times(k, loc.blobSize)))
  }

  lemma Reach(loc: Location, from: nat, to: nat, first: nat, pieces: seq<Piece>)
    requires loc.blobSize > 0 && from < to && StartsIn(loc, from, first) && Cut(loc, from, to, first, pieces)
    ensures from <= UpTo(loc, from, to, first + |pieces|) <= to
    ensures pieces == [] ==> UpTo(loc, from, to, first) == from
    ensures pieces != [] ==>
      var k := first + |pieces| - 1;
      && Cut(loc, from, to, first, pieces[..|pieces| - 1])
      && IsPieceAt(loc, k, from, to, pieces[|pieces| - 1])
      && Max(from, Times(k, loc.blobSize)) == UpTo(loc, from, to, k)
      && Min(to, Times(k + 1, loc.blobSize)) == UpTo(loc, from, to, k + 1)
      && UpTo(loc, from, to, k) <= UpTo(loc, from, to, k + 1)
  {
    if pieces != [] {
      var k := first + |pieces| - 1;
      TimesNext(k, loc.blobSize);
      assert IsPieceAt(loc, k, from, to, pieces[|pieces| - 1]);
    }
    hide Times, Refs, PieceAt;
  }

  /** The first pieces are the front of the range. */
  lemma {:induction false} FrontOfRange(loc: Location, data: Bytes, from: nat, to: nat, first: nat, pieces: seq<Piece>)
    requires loc.blobSize > 0 && |data| == loc.size < TWO_64 && from < to <= loc.size
    requires StartsIn(loc, from, first) && Cut(loc, from, to, first, pieces)
    ensures from <= UpTo(loc, from, to, first + |pieces|) <= to
    ensures Concat(PieceBytes(data, loc.blobSize, first, pieces)) == data[from..UpTo(loc, from, to, first + |pieces|)]
    decreases |pieces|
  {
    hide Times, Refs, Cut, IsPieceAt, Min, Max, StartsIn, BlobBytes, UpTo, PieceBytes, Concat, BytesOf;
    Reach(loc, from, to, first, pieces);
    NoPieces(data, loc.blobSize, first);
    if pieces != [] {
      FrontOfRange(loc, data, from, to, first, pieces[..|pieces| - 1]);
      LastPiece(loc, data, from, to, first, pieces);
    }
  }

  lemma LastPiece(loc: Location, data: Bytes, from: nat, to: nat, first: nat, pieces: seq<Piece>)
    requires loc.blobSize > 0 && |data| == loc.size < TWO_64 && from < to <= loc.size && pieces != []
    requires StartsIn(loc, from, first) && Cut(loc, from, to, first, pieces)
    requires var n := |pieces| - 1;
      && from <= UpTo(loc, from, to, first + n) <= to
      && Concat(PieceBytes(data, loc.blobSize, first, pieces[..n])) == data[from..UpTo(loc, from, to, first + n)]
    ensures from <= UpTo(loc, from, to, first + |pieces|) <= to
    ensures Concat(PieceBytes(data, loc.blobSize, first, pieces)) == data[from..UpTo(loc, from, to, first + |pieces|)]
  {
    hide Times, Refs, Cut, IsPieceAt, Min, Max, StartsIn, BlobBytes, UpTo;
    var n := |pieces| - 1;
    Reach(loc, from, to, first, pieces);
    PieceInBounds(loc, data, from, to, first + n, pieces[n]);
    var all := PieceBytes(data, loc.blobSize, first, pieces);
    assert all[..n] == PieceBytes(data, loc.blobSize, first, pieces[..n]);
    assert all[n] == BytesOf(data, loc.blobSize, first + n, pieces[n]);
    JoinSlices(data, from, UpTo(loc, from, to, first + n), UpTo(loc, from, to, first + n + 1));
  }

  /** The pieces of a range inside the object, put together, are the bytes of the range. */
  lemma PiecesAreRange(loc: Location, data: Bytes, from: nat, to: nat, first: nat, pieces: seq<Piece>)
    requires loc.blobSize > 0 && |data| == loc.size < TWO_64 && from < to <= loc.size
    requires Pieces(loc, from, to, first, pieces)
    ensures Concat(PieceBytes(data, loc.blobSize, first, pieces)) == data[from..to]
  {
    FrontOfRange(loc, data, from, to, first, pieces);
  }

  // ---- the shards of one blob ----

  /** Data shard i: the i-th stretch of the blob, padded with zeros. */
  function ShardAt(data: Bytes, size: nat, i: nat): Bytes {
    seq(size, x requires 0 <= x => if Times(i, size) + x < |data| then data[Times(i, size) + x] else 0)
  }

  function DataShards(data: Bytes, n: nat, size: nat): seq<Bytes> {
    seq(n, i requires 0 <= i => ShardAt(data, size, i))
  }

  function Padded(data: Bytes, len: nat): Bytes {
    seq(len, x requires 0 <= x => if x < |data| then data[x] else 0)
  }

  lemma {:induction false} ShardsConcat(data: Bytes, n: nat, size: nat)
    ensures Concat(DataShards(data, n, size)) == Padded(data, Times(n, size))
  {
    if n > 0 {
      ShardsConcat(data, n - 1, size);
      TimesNext(n - 1, size);
      assert DataShards(data, n, size)[..n - 1] == DataShards(data, n - 1, size);
    }
  }

  /** The size of a shard: an even share of the blob, but not under the tactic's minimum. */
  function ShardSize(t: Tactic, blobSize: nat): nat
    requires t.N > 0
  {
    Max(Quotient(blobSize + t.N - 1, t.N), t.MinShardSize)
  }

  lemma ShardsHoldBlob(t: Tactic, blobSize: nat)
    requires t.N > 0 && blobSize > 0
    ensures ShardSize(t, blobSize) > 0 && blobSize <= Times(t.N, ShardSize(t, blobSize))
  {
    hide Times, Quotient, Modulo;
    var q, size := Quotient(blobSize + t.N - 1, t.N), ShardSize(t, blobSize);
    QuotientFacts(blobSize + t.N - 1, t.N);
    if q == 0 {
      TimesZero(t.N);
    }
    TimesMonotone(q, size, t.N);
    TimesCommutes(size, t.N);
  }

  /** The data shards that hold no byte of the blob. */
  method EmptyDataShardIndexes(dataSize: nat, shardSize: nat, n: nat) returns (empties: set<nat>)
    requires shardSize > 0
    ensures forall i: nat :: i in empties <==> i < n && Times(i, shardSize) >= dataSize
    ensures dataSize > 0 ==> 0 !in empties
  {
    hide Times, Quotient, Modulo;
    var firstEmpty := Quotient(dataSize + shardSize - 1, shardSize);
    QuotientFacts(dataSize + shardSize - 1, shardSize);
    TimesZero(shardSize);
    empties := {};
    var i := firstEmpty;
    while i < n
      invariant firstEmpty <= i && (i <= n || i == firstEmpty)
      invariant forall j :: j in empties <==> firstEmpty <= j < i
    {
      empties := empties + {i};
      i := i + 1;
    }
    forall j: nat
      ensures Times(j, shardSize) >= dataSize <==> j >= firstEmpty
    {
      if j >= firstEmpty {
        TimesMonotone(firstEmpty, j, shardSize);
      } else {
        TimesMonotone(j + 1, firstEmpty, shardSize);
        TimesNext(j, shardSize);
      }
    }
  }

  /** An empty data shard is all zeros, so it need not be read. */
  lemma EmptyShardIsZero(data: Bytes, size: nat, i: nat)
    requires Times(i, size) >= |data|
    ensures ShardAt(data, size, i) == Padded([], size)
  {
  }

  // ---- writing a piece ----

  /** out is the stretch [offset, done) of the shards. */
  ghost predicate Copied(shards: seq<Bytes>, offset: nat, done: nat, out: Bytes) {
    offset <= done <= |Concat(shards)| && out == Concat(shards)[offset..done]
  }

  lemma NoneCopied(shards: seq<Bytes>, offset: nat)
    requires offset <= |Concat(shards)|
    ensures Copied(shards, offset, offset, [])
  {
  }

  /** One more stretch, out of shard i. */
  lemma CopyPart(shards: seq<Bytes>, offset: nat, done: nat, out: Bytes, i: nat, off: nat, n: nat)
    requires i < |shards| && Copied(shards, offset, done, out)
    requires |Concat(shards[..i])| + off == done && off + n <= |shards[i]|
    ensures Copied(shards, offset, done + n, out + shards[i][off..off + n])
  {
    hide Concat;
    ConcatSplit(shards, i);
    var whole, at := Concat(shards), |Concat(shards[..i])|;
    SliceOfSlice(whole, at, at + |shards[i]|, off, off + n);
    JoinSlices(whole, offset, done, done + n);
  }

  lemma AllCopied(shards: seq<Bytes>, offset: nat, done: nat, out: Bytes)
    requires Copied(shards, offset, done, out)
    ensures offset <= done <= |Concat(shards)| && out == Concat(shards)[offset..done]
  {
  }

  /** Writes a stretch of the shards, buffer by buffer. */
  method WriteShards(shards: seq<Bytes>, offset: nat, readSize: nat) returns (out: Bytes)
    requires offset + readSize <= |Concat(shards)|
    ensures out == Concat(shards)[offset..offset + readSize]
  {
    hide Concat, Copied;
    out := [];
    var idx, off, toRead := 0, offset, readSize;
    NoneCopied(shards, offset);
    assert shards[..0] == [] && shards[..|shards|] == shards;
    ConcatNone();
    while toRead > 0
      invariant 0 <= idx <= |shards| && 0 <= toRead <= readSize && 0 <= off
      invariant toRead > 0 ==> |Concat(shards[..idx])| + off == offset + (readSize - toRead)
      invariant Copied(shards, offset, offset + (readSize - toRead), out)
      decreases |shards| - idx
    {
      ConcatSplit(shards, idx);
      var buf := shards[idx];
      if off >= |buf| {
        off := off - |buf|;
        idx := idx + 1;
      } else {
        var n := Min(toRead, |buf| - off);
        CopyPart(shards, offset, offset + (readSize - toRead), out, idx, off, n);
        out := out + buf[off..off + n];
        idx := idx + 1;
        off := 0;
        toRead := toRead - n;
      }
    }
    AllCopied(shards, offset, offset + readSize, out);
  }

  lemma ConcatNone()
    ensures Concat<byte>([]) == []
  {
  }

  lemma {:induction false} ConcatSize(shards: seq<Bytes>, size: nat)
    requires forall s | s in shards :: |s| == size
    ensures |Concat(shards)| == Times(|shards|, size)
  {
    if shards != [] {
      var n := |shards| - 1;
      ConcatSize(shards[..n], size);
      assert shards[n] in shards;
      TimesNext(n, size);
    }
  }

  /** Data shard i has bytes of the stretch [offset, offset + readSize). */
  ghost predicate Needs(size: nat, offset: nat, readSize: nat, i: nat) {
    Times(i, size) < offset + readSize && offset < Times(i + 1, size)
  }

  /** The needed shards before i can be read. */
  ghost predicate NeededUp(size: nat, offset: nat, readSize: nat, up: nat -> bool, i: nat) {
    forall k: nat | k < i && Needs(size, offset, readSize, k) :: up(k)
  }

  lemma FirstNeeded(shards: seq<Bytes>, size: nat, offset: nat, readSize: nat, up: nat -> bool)
    requires size > 0 && readSize > 0 && (forall s | s in shards :: |s| == size)
    requires offset + readSize <= |Concat(shards)|
    ensures Times(Quotient(offset, size), size) + Modulo(offset, size) == offset && Modulo(offset, size) < size
    ensures Quotient(offset, size) < |shards|
    ensures NeededUp(size, offset, readSize, up, Quotient(offset, size))
  {
    hide Times, Concat, Quotient, Modulo;
    var first := Quotient(offset, size);
    QuotientFacts(offset, size);
    ConcatSize(shards, size);
    if first >= |shards| {
      TimesMonotone(|shards|, first, size);
    }
    forall k: nat | k < first
      ensures !Needs(size, offset, readSize, k)
    {
      TimesMonotone(k + 1, first, size);
    }
  }

  /** A shard that is reached while bytes are left is needed. */
  lemma NeededNext(size: nat, offset: nat, readSize: nat, up: nat -> bool, i: nat, n: nat)
    requires NeededUp(size, offset, readSize, up, i) && i < n
    requires Times(i, size) < offset + readSize && offset < Times(i + 1, size)
    ensures up(i) ==> NeededUp(size, offset, readSize, up, i + 1)
    ensures !up(i) ==> !NeededUp(size, offset, readSize, up, n)
  {
    assert Needs(size, offset, readSize, i);
  }

  lemma NoneNeededAfter(size: nat, offset: nat, readSize: nat, up: nat -> bool, i: nat, n: nat)
    requires offset + readSize <= Times(i, size) && NeededUp(size, offset, readSize, up, i)
    ensures NeededUp(size, offset, readSize, up, n)
  {
    hide Times;
    forall k: nat | k >= i
      ensures !Needs(size, offset, readSize, k)
    {
      TimesMonotone(i, k, size);
    }
  }

  lemma CopyMore(shards: seq<Bytes>, size: nat, offset: nat, done: nat, out: Bytes, i: nat, off: nat, n: nat)
    requires i < |shards| && (forall s | s in shards :: |s| == size) && Copied(shards, offset, done, out)
    requires Times(i, size) + off == done && off + n <= size && |shards[i]| == size
    ensures Copied(shards, offset, done + n, out + shards[i][off..off + n])
  {
    hide Times, Concat, Copied;
    ConcatSize(shards[..i], size);
    CopyPart(shards, offset, done, out, i, off, n);
  }

  /** Reads just the needed bytes of just the needed data shards; None if one of them cannot be read. */
  method DataShardOnly(shards: seq<Bytes>, size: nat, offset: nat, readSize: nat, up: nat -> bool)
    returns (r: Option<Bytes>)
    requires size > 0 && (forall s | s in shards :: |s| == size) && offset + readSize <= |Concat(shards)|
    ensures r.Some? ==> r.value == Concat(shards)[offset..offset + readSize]
    ensures r.Some? <==> readSize == 0 || NeededUp(size, offset, readSize, up, |shards|)
  {
    if readSize == 0 {
      return Some([]);
    }
    hide Times, Quotient, Modulo, Concat, Copied, Needs, NeededUp;
    var remain, out: Bytes := readSize, [];
    NoneCopied(shards, offset);
    FirstNeeded(shards, size, offset, readSize, up);
    var first, shardOffset := Quotient(offset, size), Modulo(offset, size);
    var i := first;
    while i < |shards| && remain > 0
      invariant first <= i <= |shards| && 0 <= remain <= readSize && 0 <= shardOffset < size
      invariant remain > 0 ==> Times(i, size) + shardOffset == offset + (readSize - remain)
      invariant remain == 0 ==> offset + readSize <= Times(i, size)
      invariant Copied(shards, offset, offset + (readSize - remain), out)
      invariant NeededUp(size, offset, readSize, up, i)
    {
      TimesNext(i, size);
      assert shards[i] in shards;
      NeededNext(size, offset, readSize, up, i, |shards|);
      if !up(i) {
        return None;
      }
      var n := Min(remain, size - shardOffset);
      CopyMore(shards, size, offset, offset + (readSize - remain), out, i, shardOffset, n);
      out := out + shards[i][shardOffset..shardOffset + n];
      shardOffset := 0;
      remain := remain - n;
      i := i + 1;
    }
    ConcatSize(shards, size);
    NoneNeededAfter(size, offset, readSize, up, i, |shards|);
    AllCopied(shards, offset, offset + readSize, out);
    return Some(out);
  }

  // ---- the whole read ----

  /** The data shards of every blob are stored as the blob's bytes were encoded. */
  ghost predicate Stored(loc: Location, t: Tactic, data: Bytes, shardsOf: Ref -> seq<Bytes>)
    requires t.N > 0
  {
    forall k: nat | k < |Refs(loc.blobs)| :: HoldsBlob(loc, t, data, shardsOf(Refs(loc.blobs)[k]), k)
  }

  ghost predicate HoldsBlob(loc: Location, t: Tactic, data: Bytes, shards: seq<Bytes>, k: nat)
    requires t.N > 0
  {
    Times(k, loc.blobSize) < |data| ==>
      var blob := BlobBytes(data, loc.blobSize, k);
      shards == DataShards(blob, t.N, ShardSize(t, |blob|))
  }

  /** A stretch of the shards of a blob is that stretch of the blob. */
  lemma StretchOfBlob(t: Tactic, blob: Bytes, offset: nat, readSize: nat)
    requires t.N > 0 && |blob| > 0 && offset + readSize <= |blob|
    ensures var shards := DataShards(blob, t.N, ShardSize(t, |blob|));
      && (forall s | s in shards :: |s| == ShardSize(t, |blob|)) && ShardSize(t, |blob|) > 0
      && offset + readSize <= |Concat(shards)|
      && Concat(shards)[offset..offset + readSize] == blob[offset..offset + readSize]
  {
    hide Times, Concat, ShardSize;
    var size := ShardSize(t, |blob|);
    ShardsHoldBlob(t, |blob|);
    ShardsConcat(blob, t.N, size);
  }

  /** The shards of a piece's blob hold the bytes of the piece. */
  lemma PieceOfShards(loc: Location, t: Tactic, data: Bytes, from: nat, to: nat, k: nat, p: Piece, shards: seq<Bytes>)
    requires t.N > 0 && loc.blobSize > 0 && |data| == loc.size < TWO_64 && to <= loc.size
    requires IsPieceAt(loc, k, from, to, p) && HoldsBlob(loc, t, data, shards, k)
    ensures p.blobSize > 0 && ShardSize(t, p.blobSize) > 0 && forall s | s in shards :: |s| == ShardSize(t, p.blobSize)
    ensures p.offset + p.readSize <= |Concat(shards)|
    ensures Concat(shards)[p.offset..p.offset + p.readSize] == BytesOf(data, loc.blobSize, k, p)
  {
    hide Times, Refs, Concat, DataShards, IsPieceAt;
    PieceInBounds(loc, data, from, to, k, p);
    StretchOfBlob(t, BlobBytes(data, loc.blobSize, k), p.offset, p.readSize);
  }

  /** A single piece by its data shards alone, when that pays. */
  method ReadDirect(loc: Location, t: Tactic, p: Piece, shardsOf: Ref -> seq<Bytes>, up: nat -> bool,
                    ghost data: Bytes, ghost from: nat, ghost to: nat, ghost k: nat)
    returns (r: Option<Bytes>)
    requires t.N > 0 && loc.blobSize > 0 && |data| == loc.size < TWO_64 && to <= loc.size
    requires IsPieceAt(loc, k, from, to, p) && Stored(loc, t, data, shardsOf)
    ensures r.Some? ==> r.value == BytesOf(data, loc.blobSize, k, p)
    ensures r.Some? <==>
      && (p.blobSize <= ShardSize(t, p.blobSize) || p.readSize < p.blobSize / 4)
      && NeededUp(ShardSize(t, p.blobSize), p.offset, p.readSize, up, |shardsOf(Ref(p.vid, p.bid))|)
  {
    hide Times, Refs, Concat, Quotient, HoldsBlob, IsPieceAt, Stored, BytesOf, PieceBytes, Needs, ShardSize;
    PieceIsStored(loc, t, data, from, to, k, p, shardsOf);
    PieceInBounds(loc, data, from, to, k, p);
    if p.blobSize <= ShardSize(t, p.blobSize) || p.readSize < p.blobSize / 4 {
      r := DataShardOnly(shardsOf(Ref(p.vid, p.bid)), ShardSize(t, p.blobSize), p.offset, p.readSize, up);
    } else {
      r := None;
    }
  }

  /** Enough shards of the blob are listed and can be had. */
  ghost predicate CanBeRead(c: Config) {
    |c.order| >= c.n && |c.Have()| >= c.n
  }

  /** Every empty shard of the blob is listed. */
  ghost predicate Listed(c: Config) { c.empties <= Members(c.order) }

  /** result is the end of a read of the blob with these data shards; one for which too few shards
      are listed is not begun. */
  ghost predicate Reads(t: Tactic, shards: seq<Bytes>, c: Config, result: Option<seq<Bytes>>) {
    && c.n == t.N == |shards|
    && if |c.order| < c.n then result.None?
       else
         && c.Valid() && c.MDS() && EndsWith(c, result)
         && forall i: nat | i < c.n :: c.truth(i) == shards[i]
  }

  lemma ReadIs(t: Tactic, shards: seq<Bytes>, c: Config, result: Option<seq<Bytes>>)
    requires Reads(t, shards, c, result)
    ensures result.Some? ==> CanBeRead(c)
    ensures CanBeRead(c) && Listed(c) ==> result.Some?
    ensures result.Some? ==> result.value == shards
  {
    hide Config.Valid, Config.MDS, EndsWith;
    if |c.order| >= c.n {
      EndIsExact(c, result);
    }
  }

  /** A blob that can be read is read, whichever shards are up, if and only if its empty shards are
      all listed. */
  lemma ListedIsExact(t: Tactic, shards: seq<Bytes>, c: Config)
    requires c.n == t.N == |shards| && c.Valid() && c.MDS() && forall i: nat | i < c.n :: c.truth(i) == shards[i]
    ensures Listed(c) <==>
      forall readable: set<nat>, result: Option<seq<Bytes>> |
        Reads(t, shards, c.(readable := readable), result) && CanBeRead(c.(readable := readable)) :: result.Some?
  {
    hide Config.Valid, Config.MDS, EndsWith;
    if Listed(c) {
      forall readable: set<nat>, result: Option<seq<Bytes>> |
        Reads(t, shards, c.(readable := readable), result) && CanBeRead(c.(readable := readable))
        ensures result.Some?
      {
        ReadIs(t, shards, c.(readable := readable), result);
      }
    } else {
      var e :| e in c.empties && e !in Members(c.order);
      UnlistedIsNotRead(t, shards, c, e);
    }
  }

  lemma UnlistedIsNotRead(t: Tactic, shards: seq<Bytes>, c: Config, e: nat)
    requires c.n == t.N == |shards| && c.Valid() && c.MDS() && forall i: nat | i < c.n :: c.truth(i) == shards[i]
    requires e in c.empties && e !in c.order
    ensures exists readable: set<nat> ::
      Reads(t, shards, c.(readable := readable), None) && CanBeRead(c.(readable := readable))
  {
    var readable, steps := UnlistedEmptyGivesUp(c, e);
    var c' := c.(readable := readable);
    SameShape(c, c');
    assert |c.order| >= c.n;
    hide Config.Valid, Config.MDS;
    assert IsEnd(c', Exec(c', Init(c'), steps), None);
    assert EndsWith(c', None);
    assert Reads(t, shards, c', None) && CanBeRead(c');
  }

  /** How each blob of the location is read, and with what end. */
  ghost predicate BlobsRead(loc: Location, t: Tactic, shardsOf: Ref -> seq<Bytes>, configs: Ref -> Config,
                          read: Ref -> Option<seq<Bytes>>) {
    forall ref | ref in Refs(loc.blobs) :: Reads(t, shardsOf(ref), configs(ref), read(ref))
  }

  lemma BlobReadAt(loc: Location, t: Tactic, shardsOf: Ref -> seq<Bytes>, configs: Ref -> Config,
                  read: Ref -> Option<seq<Bytes>>, ref: Ref)
    requires BlobsRead(loc, t, shardsOf, configs, read) && ref in Refs(loc.blobs)
    ensures read(ref).Some? ==> CanBeRead(configs(ref))
    ensures CanBeRead(configs(ref)) && Listed(configs(ref)) ==> read(ref).Some?
    ensures read(ref).Some? ==> read(ref).value == shardsOf(ref)
  {
    ReadIs(t, shardsOf(ref), configs(ref), read(ref));
  }

  ghost predicate PiecesCanBeRead(configs: Ref -> Config, pieces: seq<Piece>) {
    forall j | 0 <= j < |pieces| :: CanBeRead(configs(Ref(pieces[j].vid, pieces[j].bid)))
  }

  ghost predicate PiecesAreListed(configs: Ref -> Config, pieces: seq<Piece>) {
    forall j | 0 <= j < |pieces| :: Listed(configs(Ref(pieces[j].vid, pieces[j].bid)))
  }

  /** The pieces one after the other, each out of the shards that the read of its blob brings. */
  method WritePieces(loc: Location, t: Tactic, pieces: seq<Piece>, read: Ref -> Option<seq<Bytes>>,
                     ghost shardsOf: Ref -> seq<Bytes>, ghost configs: Ref -> Config,
                     ghost data: Bytes, ghost from: nat, ghost to: nat, ghost first: nat)
    returns (r: Result<Bytes>)
    requires t.N > 0 && loc.blobSize > 0 && |data| == loc.size < TWO_64 && to <= loc.size
    requires Cut(loc, from, to, first, pieces) && Stored(loc, t, data, shardsOf)
    requires BlobsRead(loc, t, shardsOf, configs, read)
    ensures r.Ok? ==> r.value == Concat(PieceBytes(data, loc.blobSize, first, pieces))
    ensures r.Ok? ==> PiecesCanBeRead(configs, pieces)
    ensures PiecesCanBeRead(configs, pieces) && PiecesAreListed(configs, pieces) ==> r.Ok?
  {
    hide Times, Refs, Concat, Quotient, HoldsBlob, IsPieceAt, Stored, BytesOf, PieceBytes, Needs, ShardSize, BlobsRead,
         CanBeRead, Listed;
    var out: Bytes := [];
    NoPieces(data, loc.blobSize, first);
    for j := 0 to |pieces|
      invariant out == Concat(PieceBytes(data, loc.blobSize, first, pieces[..j]))
      invariant forall i | 0 <= i < j :: CanBeRead(configs(Ref(pieces[i].vid, pieces[i].bid)))
    {
      var p := pieces[j];
      var ref := Ref(p.vid, p.bid);
      PieceIsStored(loc, t, data, from, to, first + j, p, shardsOf);
      BlobReadAt(loc, t, shardsOf, configs, read, ref);
      var shards := read(ref);
      if shards.None? {
        return Err("broken blob");
      }
      var bytes := WriteShards(shards.value, p.offset, p.readSize);
      MorePieces(data, loc.blobSize, first, pieces, j);
      out := out + bytes;
    }
    assert pieces[..|pieces|] == pieces;
    return Ok(out);
  }

  /** Every blob that the range touches can be read. */
  ghost predicate RangeCanBeRead(loc: Location, from: nat, to: nat, configs: Ref -> Config) {
    forall k: nat | Touches(loc, k, from, to) :: CanBeRead(configs(Refs(loc.blobs)[k]))
  }

  /** Every empty shard of every blob that the range touches is listed. */
  ghost predicate RangeIsListed(loc: Location, from: nat, to: nat, configs: Ref -> Config) {
    forall k: nat | Touches(loc, k, from, to) :: Listed(configs(Refs(loc.blobs)[k]))
  }

  /** The range lies in one blob, is worth the short way, and the data shards it needs can be read. */
  ghost predicate DirectWorks(loc: Location, t: Tactic, from: nat, to: nat, up: nat -> bool)
    requires t.N > 0
  {
    exists k: nat :: Touches(loc, k, from, to) && OnlyTouches(loc, k, from, to) &&
      var p := PieceAt(loc, k, from, to);
      && (p.blobSize <= ShardSize(t, p.blobSize) || p.readSize < p.blobSize / 4)
      && NeededUp(ShardSize(t, p.blobSize), p.offset, p.readSize, up, t.N)
  }

  ghost predicate OnlyTouches(loc: Location, k: nat, from: nat, to: nat) {
    Times(k, loc.blobSize) <= from && to <= Times(k + 1, loc.blobSize)
  }

  /** The pieces are those of the blobs that the range touches. */
  lemma TouchedArePieces(loc: Location, from: nat, to: nat, first: nat, pieces: seq<Piece>, k: nat)
    requires loc.blobSize > 0 && from < to && Pieces(loc, from, to, first, pieces)
    ensures Touches(loc, k, from, to) <==> first <= k < first + |pieces|
  {
    hide Refs;
    if first <= k < first + |pieces| {
      assert IsPieceAt(loc, first + (k - first), from, to, pieces[k - first]);
    } else if k < first {
      TimesMonotone(k + 1, first, loc.blobSize);
    } else {
      TimesMonotone(first + |pieces|, k, loc.blobSize);
    }
  }

  lemma PiecesCover(loc: Location, from: nat, to: nat, first: nat, pieces: seq<Piece>, configs: Ref -> Config)
    requires loc.blobSize > 0 && from < to && Pieces(loc, from, to, first, pieces)
    ensures PiecesCanBeRead(configs, pieces) <==> RangeCanBeRead(loc, from, to, configs)
    ensures RangeIsListed(loc, from, to, configs) ==> PiecesAreListed(configs, pieces)
  {
    hide Refs, Times, CanBeRead, Listed, Pieces;
    forall k: nat | Touches(loc, k, from, to)
      ensures first <= k < first + |pieces| && Ref(pieces[k - first].vid, pieces[k - first].bid) == Refs(loc.blobs)[k]
    {
      TouchedArePieces(loc, from, to, first, pieces, k);
      CutAt(loc, from, to, first, pieces, k - first);
    }
    if RangeCanBeRead(loc, from, to, configs) {
      forall j | 0 <= j < |pieces|
        ensures CanBeRead(configs(Ref(pieces[j].vid, pieces[j].bid)))
      {
        CutAt(loc, from, to, first, pieces, j);
      }
    }
    if RangeIsListed(loc, from, to, configs) {
      forall j | 0 <= j < |pieces|
        ensures Listed(configs(Ref(pieces[j].vid, pieces[j].bid)))
      {
        CutAt(loc, from, to, first, pieces, j);
      }
    }
    if PiecesCanBeRead(configs, pieces) {
      forall k: nat | Touches(loc, k, from, to)
        ensures CanBeRead(configs(Refs(loc.blobs)[k]))
      {
        assert CanBeRead(configs(Ref(pieces[k - first].vid, pieces[k - first].bid)));
      }
    }
  }

  lemma CutAt(loc: Location, from: nat, to: nat, first: nat, pieces: seq<Piece>, j: nat)
    requires Pieces(loc, from, to, first, pieces) && j < |pieces|
    ensures IsPieceAt(loc, first + j, from, to, pieces[j])
    ensures Touches(loc, first + j, from, to) && Ref(pieces[j].vid, pieces[j].bid) == Refs(loc.blobs)[first + j]
  {
    assert IsPieceAt(loc, first + j, from, to, pieces[j]);
    hide Refs;
  }

  /** When the short way works, in terms of the one piece there is. */
  lemma DirectIs(loc: Location, t: Tactic, from: nat, to: nat, first: nat, pieces: seq<Piece>, up: nat -> bool)
    requires t.N > 0 && loc.blobSize > 0 && from < to && Pieces(loc, from, to, first, pieces) && pieces != []
    ensures DirectWorks(loc, t, from, to, up) <==>
      && |pieces| == 1
      && (pieces[0].blobSize <= ShardSize(t, pieces[0].blobSize) || pieces[0].readSize < pieces[0].blobSize / 4)
      && NeededUp(ShardSize(t, pieces[0].blobSize), pieces[0].offset, pieces[0].readSize, up, t.N)
  {
    hide Refs, ShardSize, NeededUp, Times;
    CutAt(loc, from, to, first, pieces, 0);
    assert pieces[0] == PieceAt(loc, first, from, to);
    assert StartsIn(loc, from, first);
    forall k: nat | Touches(loc, k, from, to) && OnlyTouches(loc, k, from, to)
      ensures k == first
    {
      TouchedArePieces(loc, from, to, first, pieces, k);
      if k > first {
        TimesMonotone(first + 1, k, loc.blobSize);
      }
    }
    if |pieces| > 1 {
      CutAt(loc, from, to, first, pieces, 1);
    }
    assert OnlyTouches(loc, first, from, to) <==> |pieces| == 1;
  }

  /**
   * The read of a range: of a single piece by its data shards alone if that works, else blob by
   * blob.  up says which direct shard reads succeed, read what reading a blob ends with.
   */
  method Get(loc: Location, t: Tactic, readSize: nat, offset: nat, shardsOf: Ref -> seq<Bytes>, up: nat -> bool,
             read: Ref -> Option<seq<Bytes>>, ghost configs: Ref -> Config, ghost data: Bytes)
    returns (r: Result<Bytes>)
    requires loc.Fits() && loc.WellFormed() && Times(|Refs(loc.blobs)|, loc.blobSize) < TWO_64
    requires t.N > 0 && |data| == loc.size && Stored(loc, t, data, shardsOf)
    requires BlobsRead(loc, t, shardsOf, configs, read)
    requires readSize < TWO_64 && offset < TWO_64
    ensures r.Ok? ==> offset + readSize <= loc.size && r.value == data[offset..offset + readSize]
    ensures r.Ok? ==>
      RangeCanBeRead(loc, offset, offset + readSize, configs) || DirectWorks(loc, t, offset, offset + readSize, up)
    ensures offset + readSize <= loc.size && DirectWorks(loc, t, offset, offset + readSize, up) ==> r.Ok?
    ensures offset + readSize <= loc.size && RangeIsListed(loc, offset, offset + readSize, configs) ==>
              (RangeCanBeRead(loc, offset, offset + readSize, configs) ==> r.Ok?)
  {
    hide Times, Refs, Concat, Quotient, HoldsBlob, IsPieceAt, Stored, BytesOf, PieceBytes, Location.WellFormed,
         Location.Fits, Cut, StartsIn, BlobsRead, RangeCanBeRead, RangeIsListed, DirectWorks, PiecesCanBeRead,
         PiecesAreListed, NeededUp, ShardSize, Pieces;
    BlobSizeOf(loc);
    var cut := GenLocationBlobs(loc, readSize, offset);
    AcceptsExactly(loc, readSize, offset);
    if cut.Err? {
      return Err("illegal arguments");
    }
    var pieces := cut.value;
    if pieces == [] {
      NoEmptyCut(loc, readSize, offset, pieces);
      NothingTouched(loc, offset, configs);
      return Ok([]);
    }
    ghost var to, first := offset + readSize, Quotient(offset, loc.blobSize);
    PiecesAreRange(loc, data, offset, to, first, pieces);
    PiecesCover(loc, offset, to, first, pieces, configs);
    DirectIs(loc, t, offset, to, first, pieces, up);
    CutAt(loc, offset, to, first, pieces, 0);
    if |pieces| == 1 {
      ShardsAreN(loc, t, shardsOf, configs, read, Ref(pieces[0].vid, pieces[0].bid));
      var got := ReadDirect(loc, t, pieces[0], shardsOf, up, data, offset, to, first);
      if got.Some? {
        OnePiece(data, loc.blobSize, first, pieces[0]);
        assert pieces == [pieces[0]];
        return Ok(got.value);
      }
    }
    PiecesAreCut(loc, offset, to, first, pieces);
    r := WritePieces(loc, t, pieces, read, shardsOf, configs, data, offset, to, first);
  }

  lemma NothingTouched(loc: Location, from: nat, configs: Ref -> Config)
    ensures RangeCanBeRead(loc, from, from, configs)
  {
  }

  lemma PiecesAreCut(loc: Location, from: nat, to: nat, first: nat, pieces: seq<Piece>)
    requires Pieces(loc, from, to, first, pieces)
    ensures Cut(loc, from, to, first, pieces)
  {
  }

  lemma ShardsAreN(loc: Location, t: Tactic, shardsOf: Ref -> seq<Bytes>, configs: Ref -> Config,
                   read: Ref -> Option<seq<Bytes>>, ref: Ref)
    requires BlobsRead(loc, t, shardsOf, configs, read) && ref in Refs(loc.blobs)
    ensures |shardsOf(ref)| == t.N
  {
  }

  lemma BlobSizeOf(loc: Location)
    requires loc.Fits() && loc.WellFormed()
    ensures 0 < loc.blobSize && loc.size < TWO_64
  {
  }

  lemma NoEmptyCut(loc: Location, readSize: nat, offset: nat, pieces: seq<Piece>)
    requires readSize > 0 ==> Pieces(loc, offset, offset + readSize, Quotient(offset, loc.blobSize), pieces)
    requires pieces == []
    ensures readSize == 0
  {
  }

  lemma NoPieces(data: Bytes, blobSize: nat, first: nat)
    ensures Concat(PieceBytes(data, blobSize, first, [])) == []
  {
  }

  lemma PieceIsStored(loc: Location, t: Tactic, data: Bytes, from: nat, to: nat, k: nat, p: Piece,
                      shardsOf: Ref -> seq<Bytes>)
    requires t.N > 0 && loc.blobSize > 0 && |data| == loc.size < TWO_64 && to <= loc.size
    requires IsPieceAt(loc, k, from, to, p) && Stored(loc, t, data, shardsOf)
    ensures Ref(p.vid, p.bid) in Refs(loc.blobs)
    ensures var shards := shardsOf(Ref(p.vid, p.bid));
      && p.blobSize > 0 && ShardSize(t, p.blobSize) > 0 && (forall s | s in shards :: |s| == ShardSize(t, p.blobSize))
      && p.offset + p.readSize <= |Concat(shards)|
      && Concat(shards)[p.offset..p.offset + p.readSize] == BytesOf(data, loc.blobSize, k, p)
  {
    assert Ref(p.vid, p.bid) == Refs(loc.blobs)[k];
    assert HoldsBlob(loc, t, data, shardsOf(Refs(loc.blobs)[k]), k);
    PieceOfShards(loc, t, data, from, to, k, p, shardsOf(Ref(p.vid, p.bid)));
  }

  lemma OnePiece(data: Bytes, blobSize: nat, first: nat, p: Piece)
    ensures Concat(PieceBytes(data, blobSize, first, [p])) == BytesOf(data, blobSize, first, p)
  {
    var all := PieceBytes(data, blobSize, first, [p]);
    assert all == [BytesOf(data, blobSize, first, p)];
    assert all[..0] == [];
  }

  lemma MorePieces(data: Bytes, blobSize: nat, first: nat, pieces: seq<Piece>, j: nat)
    requires j < |pieces|
    ensures Concat(PieceBytes(data, blobSize, first, pieces[..j + 1])) ==
      Concat(PieceBytes(data, blobSize, first, pieces[..j])) + BytesOf(data, blobSize, first + j, pieces[j])
  {
    var all := PieceBytes(data, blobSize, first, pieces[..j + 1]);
    assert all[..j] == PieceBytes(data, blobSize, first, pieces[..j]);
  }
}
