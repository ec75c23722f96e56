/**
 * The client's upload of a large object in parts (putParts): batches of parts, re-allocation of
 * what is left after a failed batch, and splicing of the new slices and tokens into the old ones.
 */
module PartUpload {

  import opened Wrappers
  import opened Arithmetic
  import opened LocationModel
  import opened LocationCodec
  import opened UploadTokens

  const MAX_LOCATION_BLOBS: nat := 4

  /**
   * The service: alloc gives the slices of the allocation number a for size bytes, or fails;
   * accepted says which batches are stored whole; sum is its checksum.
   */
  datatype Env = Env(clusterId: nat, codeMode: nat, blobSize: nat, alloc: (nat, nat) -> Option<seq<Slice>>,
                     accepted: nat -> bool, signs: bool, sum: Bytes -> nat)
  {
    ghost predicate Valid() {
      && clusterId < TWO_32 && codeMode < 256 && 0 < blobSize < TWO_32 && IsSum(sum)
      && (forall size: nat, a: nat | 0 < size < TWO_64 && alloc(size, a).Some? :: GoodAlloc(size, alloc(size, a).value))
      && (forall size: nat, size': nat, a: nat, a': nat |
            a != a' && alloc(size, a).Some? && alloc(size', a').Some? ::
            Bids(alloc(size, a).value) !! Bids(alloc(size', a').value))
    }

    ghost predicate GoodAlloc(size: nat, blobs: seq<Slice>) {
      && SlicesOk(blobs) && |blobs| <= MAX_LOCATION_BLOBS && DistinctBids(Refs(blobs))
      && Unsigned(size, blobs).WellFormed()
    }

    function Unsigned(size: nat, blobs: seq<Slice>): Location {
      Location(clusterId, codeMode, size, blobSize, 0, blobs)
    }

    /** The location as the service hands it out, with its checksum. */
    function Issued(size: nat, blobs: seq<Slice>): Location {
      if codeMode >= 256 then Unsigned(size, blobs)
      else Unsigned(size, blobs).(crc := sum(EncodeBody(Unsigned(size, blobs))))
    }
  }

  ghost predicate DistinctBids(refs: seq<Ref>) {
    forall i, j | 0 <= i < j < |refs| :: refs[i].bid != refs[j].bid
  }

  datatype Part = Part(clusterId: nat, vid: nat, bid: nat, size: nat, token: Token, buf: Bytes)
  {
    predicate Admitted() {
      token.Admits(clusterId, vid, bid, size) && |buf| == size
    }
  }

  /** idx and count: the next blob to fill; locations: all that was allocated, the last one current. */
  datatype Upload = Upload(loc: Location, tokens: seq<Token>, idx: nat, count: nat, remain: nat, restSize: nat,
                           locations: seq<Location>, attempt: nat, batches: nat)

  /** What the service saw: blobs stored, ids deleted after a failure, and every part sent. */
  datatype Log = Log(stored: map<Ref, Bytes>, deleted: set<nat>, sent: seq<Part>)

  // ---- invariant ----

  /** An allocation number below the limit gave these slices. */
  ghost predicate FromAlloc(env: Env, blobs: seq<Slice>, limit: nat) {
    exists size: nat, a: nat :: a < limit && 0 < size < TWO_64 && env.alloc(size, a) == Some(blobs)
  }

  ghost predicate LocationOk(env: Env, l: Location, limit: nat) {
    && l == env.Issued(l.size, l.blobs) && 0 < l.size < TWO_64
    && FromAlloc(env, l.blobs, limit) && env.GoodAlloc(l.size, l.blobs)
  }

  ghost function Rest(u: Upload): Location
    requires u.locations != []
  {
    u.locations[|u.locations| - 1]
  }

  /**
   * The slices before base are full of stored parts, those from base on are the current
   * allocation, and the tokens go along.
   */
  ghost predicate Aligned(env: Env, size: nat, u: Upload, base: nat) {
    && u.loc == Location(env.clusterId, env.codeMode, size, env.blobSize, u.loc.crc, u.loc.blobs)
    && u.locations != [] && u.loc.crc == u.locations[0].crc && (|u.locations| == 1 ==> u.loc == u.locations[0])
    && (forall l | l in u.locations :: LocationOk(env, l, u.attempt))
    && base <= |u.loc.blobs| && base <= |u.tokens| && SlicesOk(u.loc.blobs)
    && u.loc.blobs[base..] == Rest(u).blobs
    && SlicesOk(Rest(u).blobs) && u.tokens[base..] == TokensOf(Rest(u))
    && u.restSize == Rest(u).size
    && size == Times(|Refs(u.loc.blobs[..base])|, env.blobSize) + Rest(u).size
  }

  /** Part k is the next one. */
  ghost predicate Position(env: Env, size: nat, u: Upload, k: nat, base: nat) {
    && base <= u.idx && At(u.loc.blobs, u.idx, u.count, k)
    && u.remain == size - (if Times(k, env.blobSize) < size then Times(k, env.blobSize) else size)
  }

  /** No id twice in the location, none deleted, and all from the allocations. */
  ghost predicate Ids(u: Upload, deleted: set<nat>) {
    && DistinctBids(Refs(u.loc.blobs))
    && Bids(u.loc.blobs) !! deleted
    && Bids(u.loc.blobs) + deleted <= AllBids(u.locations)
  }

  /** buf is part q of the object. */
  ghost predicate IsPart(body: Bytes, blobSize: nat, q: nat, buf: Bytes) {
    && Times(q, blobSize) <= |body|
    && buf == body[Times(q, blobSize)..Times(q, blobSize) + PartSize(|body|, blobSize, q)]
  }

  /** The first k blobs hold the first k parts of the object. */
  ghost predicate Holds(body: Bytes, blobSize: nat, refs: seq<Ref>, stored: map<Ref, Bytes>, k: nat) {
    k <= |refs| && forall q | 0 <= q < k :: HoldsPart(body, blobSize, refs[q], stored, q)
  }

  ghost predicate HoldsPart(body: Bytes, blobSize: nat, ref: Ref, stored: map<Ref, Bytes>, q: nat) {
    ref in stored && IsPart(body, blobSize, q, stored[ref])
  }

  // ---- facts about the shape ----

  lemma IssuedIsSigned(env: Env, l: Location, limit: nat)
    requires env.Valid() && LocationOk(env, l, limit)
    ensures l.Fits() && Signed(l, env.sum) && |Encoded(l)| <= 1024 && l.WellFormed() && SlicesOk(l.blobs)
  {
    assert EncodeBody(l) == EncodeBody(env.Unsigned(l.size, l.blobs));
    EncodingFits(l);
  }

  lemma RefsOfShape(blobs: seq<Slice>, base: nat)
    requires base <= |blobs|
    ensures Refs(blobs) == Refs(blobs[..base]) + Refs(blobs[base..])
  {
    assert blobs == blobs[..base] + blobs[base..];
    RefsAppend(blobs[..base], blobs[base..]);
  }

  /** The position in the whole location, seen from the current allocation. */
  lemma AtInRest(blobs: seq<Slice>, base: nat, j: nat, c: nat, k: nat)
    requires base <= j <= |blobs| && At(blobs, j, c, k)
    ensures |Refs(blobs[..base])| <= k
    ensures At(blobs[base..], j - base, c, k - |Refs(blobs[..base])|)
  {
    RefsOfShape(blobs[..j], base);
    assert blobs[..j][..base] == blobs[..base];
    assert blobs[..j][base..] == blobs[base..][..j - base];
  }

  /** As many blobs as the whole object needs. */
  lemma WholeIsWellFormed(env: Env, size: nat, u: Upload, base: nat)
    requires env.Valid() && Aligned(env, size, u, base)
    ensures u.loc.WellFormed()
  {
    hide Refs, Times, TokensOf, SlicesOk;
    var rest := Rest(u);
    IssuedIsSigned(env, rest, u.attempt);
    RefsOfShape(u.loc.blobs, base);
    var k0, n := |Refs(u.loc.blobs[..base])|, |Refs(rest.blobs)|;
    TimesAdd(k0, n, env.blobSize);
    if n > 0 {
      TimesAdd(k0, n - 1, env.blobSize);
    }
  }

  /** The token for a part at a position from base on is there and admits the part. */
  lemma TokenAt(env: Env, size: nat, u: Upload, base: nat, j: nat, c: nat, q: nat)
    requires env.Valid() && Aligned(env, size, u, base) && base <= j < |u.loc.blobs| && At(u.loc.blobs, j, c, q)
    ensures Times(q, env.blobSize) < size
    ensures var len := PartSize(size, env.blobSize, q);
      var t := Chosen(u.tokens, u.restSize, env.blobSize, j, len);
      t.Some? && t.value.Admits(env.clusterId, u.loc.blobs[j].vid, u.loc.blobs[j].minBid + c, len)
  {
    hide Refs, Times, TokensOf, SlicesOk, At;
    var rest := Rest(u);
    assert rest in u.locations;
    IssuedIsSigned(env, rest, u.attempt);
    var k0 := |Refs(u.loc.blobs[..base])|;
    AtInRest(u.loc.blobs, base, j, c, q);
    ChosenAdmits(rest, j - base, c, q - k0);
    TimesAdd(k0, q - k0, env.blobSize);
  }

  // ---- the operations ----

  /** A part carries the bytes of part q of the object, for the blob at that place, with its token. */
  ghost predicate Fed(body: Bytes, blobSize: nat, refs: seq<Ref>, q: nat, part: Part) {
    && q < |refs| && Ref(part.vid, part.bid) == refs[q] && part.Admitted()
    && IsPart(body, blobSize, q, part.buf)
  }

  /** Gives each buffer the next blob and the token for it. */
  method Feed(env: Env, u: Upload, bufs: seq<Bytes>, ghost body: Bytes, ghost k: nat, ghost base: nat)
    returns (parts: seq<Part>)
    requires env.Valid() && Aligned(env, |body|, u, base) && Position(env, |body|, u, k, base)
    requires k + |bufs| <= |Refs(u.loc.blobs)|
    requires forall i | 0 <= i < |bufs| :: IsPart(body, env.blobSize, k + i, bufs[i])
    ensures |parts| == |bufs|
    ensures forall i | 0 <= i < |parts| :: Fed(body, env.blobSize, Refs(u.loc.blobs), k + i, parts[i])
  {
    hide Aligned, At, Refs, Times, TokensOf, SlicesOk, IsPart, PartSize;
    parts := [];
    var currIdx, currCount := u.idx, u.count;
    for i := 0 to |bufs|
      invariant |parts| == i && base <= currIdx && At(u.loc.blobs, currIdx, currCount, k + i)
      invariant forall i' | 0 <= i' < i :: Fed(body, env.blobSize, Refs(u.loc.blobs), k + i', parts[i'])
    {
      AlignedFacts(env, |body|, u, base);
      AtRef(u.loc.blobs, currIdx, currCount, k + i);
      TokenAt(env, |body|, u, base, currIdx, currCount, k + i);
      IsPartSize(body, env.blobSize, k + i, bufs[i]);
      var partial := u.restSize > u.loc.blobSize && |bufs[i]| < u.loc.blobSize;
      var t := if partial then u.tokens[currIdx + 1] else u.tokens[currIdx];
      var blob := u.loc.blobs[currIdx];
      var part := Part(u.loc.clusterId, blob.vid, blob.minBid + currCount, |bufs[i]|, t, bufs[i]);
      parts := parts + [part];
      AtNext(u.loc.blobs, currIdx, currCount, k + i);
      currCount := currCount + 1;
      if blob.count == currCount {
        currIdx := currIdx + 1;
        currCount := 0;
      }
    }
  }

  lemma IsPartSize(body: Bytes, blobSize: nat, q: nat, buf: Bytes)
    requires IsPart(body, blobSize, q, buf)
    ensures Times(q, blobSize) <= |body| && |buf| == PartSize(|body|, blobSize, q)
  {
  }

  lemma AlignedFacts(env: Env, size: nat, u: Upload, base: nat)
    requires env.Valid() && Aligned(env, size, u, base)
    ensures SlicesOk(u.loc.blobs) && u.loc.blobSize == env.blobSize > 0 && u.loc.clusterId == env.clusterId
  {
  }

  lemma PartsLeft(loc: Location, k: nat)
    requires loc.WellFormed() && k <= |Refs(loc.blobs)|
    ensures k < |Refs(loc.blobs)| <==> Times(k, loc.blobSize) < loc.size
    ensures k < |Refs(loc.blobs)| ==>
      Times(k, loc.blobSize) + PartSize(loc.size, loc.blobSize, k) ==
        if Times(k + 1, loc.blobSize) < loc.size then Times(k + 1, loc.blobSize) else loc.size
  {
    hide Refs;
    var n := |Refs(loc.blobs)|;
    assert Times(k + 1, loc.blobSize) == Times(k, loc.blobSize) + loc.blobSize;
    if k < n {
      TimesMonotone(k, n - 1, loc.blobSize);
    }
  }

  lemma HoldsOneMore(body: Bytes, blobSize: nat, refs: seq<Ref>, stored: map<Ref, Bytes>, k: nat, part: Part)
    requires DistinctBids(refs) && Holds(body, blobSize, refs, stored, k) && Fed(body, blobSize, refs, k, part)
    ensures Holds(body, blobSize, refs, stored[Ref(part.vid, part.bid) := part.buf], k + 1)
  {
    hide IsPart;
  }

  /** Past one more part of len bytes. */
  function Moved(u: Upload, len: nat): Upload
    requires u.idx < |u.loc.blobs| && len <= u.remain
  {
    if u.loc.blobs[u.idx].count == u.count + 1 then u.(idx := u.idx + 1, count := 0, remain := u.remain - len)
    else u.(count := u.count + 1, remain := u.remain - len)
  }

  lemma PositionNext(env: Env, size: nat, u: Upload, k: nat, base: nat)
    requires env.Valid() && Aligned(env, size, u, base) && Position(env, size, u, k, base) && k < |Refs(u.loc.blobs)|
    ensures Times(k, env.blobSize) <= size && u.idx < |u.loc.blobs| && PartSize(size, env.blobSize, k) <= u.remain
    ensures Position(env, size, Moved(u, PartSize(size, env.blobSize, k)), k + 1, base)
    ensures Aligned(env, size, Moved(u, PartSize(size, env.blobSize, k)), base)
  {
    hide Aligned, Refs, Times, SlicesOk, At, Location.WellFormed, Env.Valid;
    WholeIsWellFormed(env, size, u, base);
    AlignedFacts(env, size, u, base);
    AlignedSize(env, size, u, base);
    PartsLeft(u.loc, k);
    AtRef(u.loc.blobs, u.idx, u.count, k);
    AtNext(u.loc.blobs, u.idx, u.count, k);
    TimesMonotone(k, k + 1, env.blobSize);
    AlignedMoved(env, size, u, base, Moved(u, PartSize(size, env.blobSize, k)));
  }

  lemma AlignedMoved(env: Env, size: nat, u: Upload, base: nat, u': Upload)
    requires Aligned(env, size, u, base) && u' == u.(idx := u'.idx, count := u'.count, remain := u'.remain)
    ensures Aligned(env, size, u', base)
  {
  }

  /** After a batch that was accepted: its parts are stored and the next blob moves on. */
  method Commit(env: Env, u: Upload, stored: map<Ref, Bytes>, parts: seq<Part>,
                ghost body: Bytes, ghost k: nat, ghost base: nat)
    returns (u': Upload, stored': map<Ref, Bytes>)
    requires env.Valid() && Aligned(env, |body|, u, base) && Position(env, |body|, u, k, base)
    requires DistinctBids(Refs(u.loc.blobs)) && Holds(body, env.blobSize, Refs(u.loc.blobs), stored, k)
    requires forall i | 0 <= i < |parts| :: Fed(body, env.blobSize, Refs(u.loc.blobs), k + i, parts[i])
    ensures u' == u.(idx := u'.idx, count := u'.count, remain := u'.remain)
    ensures Aligned(env, |body|, u', base) && Position(env, |body|, u', k + |parts|, base)
    ensures Holds(body, env.blobSize, Refs(u.loc.blobs), stored', k + |parts|)
  {
    hide Refs, Times, Holds, Fed, DistinctBids, PartSize, Aligned, Position, Env.Valid;
    u', stored' := u, stored;
    for i := 0 to |parts|
      invariant u' == u.(idx := u'.idx, count := u'.count, remain := u'.remain)
      invariant Aligned(env, |body|, u', base) && Position(env, |body|, u', k + i, base)
      invariant Holds(body, env.blobSize, Refs(u.loc.blobs), stored', k + i)
    {
      var part := parts[i];
      FedFacts(body, env.blobSize, Refs(u.loc.blobs), k + i, part);
      HoldsOneMore(body, env.blobSize, Refs(u.loc.blobs), stored', k + i, part);
      PositionNext(env, |body|, u', k + i, base);
      stored' := stored'[Ref(part.vid, part.bid) := part.buf];
      u' := Moved(u', part.size);
    }
  }

  lemma FedFacts(body: Bytes, blobSize: nat, refs: seq<Ref>, q: nat, part: Part)
    requires Fed(body, blobSize, refs, q, part)
    ensures q < |refs| && Times(q, blobSize) <= |body| && part.size == PartSize(|body|, blobSize, q)
  {
  }

  // ---- re-allocation ----

  /** The slices that hold the parts stored so far. */
  function Kept(u: Upload): seq<Slice>
    requires u.idx < |u.loc.blobs|
  {
    if u.count > 0 then u.loc.blobs[..u.idx] + [u.loc.blobs[u.idx].(count := u.count)] else u.loc.blobs[..u.idx]
  }

  /** The slices of a new allocation of what is left take the place of the unused ones. */
  function Spliced(env: Env, u: Upload, blobs: seq<Slice>): Upload
    requires u.idx < |u.loc.blobs| && SlicesOk(blobs) && |Kept(u)| <= |u.tokens|
  {
    var issued := env.Issued(u.remain, blobs);
    Upload(u.loc.(blobs := Kept(u) + blobs), u.tokens[..|Kept(u)|] + TokensOf(issued), |Kept(u)|, 0, u.remain,
           u.remain, u.locations + [issued], u.attempt + 1, u.batches)
  }

  lemma KeptRefs(u: Upload, k: nat)
    requires SlicesOk(u.loc.blobs) && At(u.loc.blobs, u.idx, u.count, k) && u.idx < |u.loc.blobs|
    ensures k <= |Refs(u.loc.blobs)| && Refs(Kept(u)) == Refs(u.loc.blobs)[..k]
    ensures SlicesOk(Kept(u)) && |Kept(u)| <= |u.loc.blobs|
  {
    var blobs := u.loc.blobs;
    assert blobs[u.idx] in blobs;
    RefsSplit(blobs, u.idx);
    if u.count > 0 {
      var cut := blobs[u.idx].(count := u.count);
      assert Kept(u)[..u.idx] == blobs[..u.idx];
      assert SliceRefs(cut, u.count) == SliceRefs(blobs[u.idx], blobs[u.idx].count)[..u.count];
    }
  }

  /** There is a token for every slice. */
  lemma TokensEnough(loc: Location)
    requires loc.WellFormed() && SlicesOk(loc.blobs)
    ensures |TokensOf(loc)| >= |loc.blobs|
  {
    if loc.size >= loc.blobSize {
      FullTokenAt(loc, |loc.blobs|, 0);
    } else if loc.blobs != [] {
      AtFirst(loc.blobs);
      SmallAdmits(loc, 0, 0, 0);
    }
  }

  lemma LimitGrows(env: Env, l: Location, limit: nat)
    requires LocationOk(env, l, limit)
    ensures LocationOk(env, l, limit + 1)
  {
    var size: nat, a: nat :| a < limit && 0 < size < TWO_64 && env.alloc(size, a) == Some(l.blobs);
    assert a < limit + 1 && env.alloc(size, a) == Some(l.blobs);
  }

  lemma MaySplice(env: Env, size: nat, u: Upload, k: nat, base: nat)
    requires env.Valid() && Aligned(env, size, u, base) && Position(env, size, u, k, base) && k < |Refs(u.loc.blobs)|
    ensures u.idx < |u.loc.blobs| && |Kept(u)| <= |u.tokens| && u.remain > 0
    ensures u.remain == size - Times(k, env.blobSize)
    ensures Refs(Kept(u)) == Refs(u.loc.blobs)[..k] && SlicesOk(Kept(u))
  {
    var rest := Rest(u);
    assert rest in u.locations;
    IssuedIsSigned(env, rest, u.attempt);
    TokensEnough(rest);
    WholeIsWellFormed(env, size, u, base);
    AtRef(u.loc.blobs, u.idx, u.count, k);
    KeptRefs(u, k);
    PartsLeft(u.loc, k);
  }

  lemma IssuedIsOk(env: Env, size: nat, a: nat, limit: nat)
    requires env.Valid() && 0 < size < TWO_64 && env.alloc(size, a).Some? && a < limit
    ensures var l := env.Issued(size, env.alloc(size, a).value);
      LocationOk(env, l, limit) && l.size == size && l.blobs == env.alloc(size, a).value && l.blobs != []
  {
    var blobs := env.alloc(size, a).value;
    assert env.GoodAlloc(size, blobs);
    assert FromAlloc(env, blobs, limit);
  }

  lemma SplicedLocations(env: Env, size: nat, u: Upload, base: nat, issued: Location)
    requires Aligned(env, size, u, base) && LocationOk(env, issued, u.attempt + 1)
    ensures forall l | l in u.locations + [issued] :: LocationOk(env, l, u.attempt + 1)
  {
    hide LocationOk, Refs, Times, TokensOf, SlicesOk;
    forall l | l in u.locations + [issued]
      ensures LocationOk(env, l, u.attempt + 1)
    {
      if l in u.locations {
        LimitGrows(env, l, u.attempt);
      }
    }
  }

  lemma SlicesOkJoin(a: seq<Slice>, b: seq<Slice>)
    requires SlicesOk(a) && SlicesOk(b)
    ensures SlicesOk(a + b)
  {
  }

  lemma SpliceAligns(env: Env, size: nat, u: Upload, k: nat, base: nat, blobs: seq<Slice>)
    requires env.Valid() && Aligned(env, size, u, base) && Position(env, size, u, k, base) && k < |Refs(u.loc.blobs)|
    requires size < TWO_64 && env.alloc(u.remain, u.attempt) == Some(blobs)
    ensures u.idx < |u.loc.blobs| && SlicesOk(blobs) && |Kept(u)| <= |u.tokens|
    ensures var u' := Spliced(env, u, blobs);
      && Aligned(env, size, u', |Kept(u)|) && Position(env, size, u', k, |Kept(u)|)
      && Refs(u'.loc.blobs) == Refs(u.loc.blobs)[..k] + Refs(blobs)
  {
    hide Refs, Times, TokensOf, LocationOk, At, SlicesOk, Env.Valid, Kept;
    MaySplice(env, size, u, k, base);
    IssuedIsOk(env, u.remain, u.attempt, u.attempt + 1);
    IssuedSlices(env, u.remain, u.attempt, blobs);
    var kept, issued := Kept(u), env.Issued(u.remain, blobs);
    SplicedLocations(env, size, u, base, issued);
    SlicesOkJoin(kept, blobs);
    RefsAppend(kept, blobs);
    KeptPosition(kept, blobs, k);
    assert (kept + blobs)[..|kept|] == kept && (kept + blobs)[|kept|..] == blobs;
    assert (u.tokens[..|kept|] + TokensOf(issued))[|kept|..] == TokensOf(issued);
  }

  lemma IssuedSlices(env: Env, size: nat, a: nat, blobs: seq<Slice>)
    requires env.Valid() && 0 < size < TWO_64 && env.alloc(size, a) == Some(blobs)
    ensures SlicesOk(blobs)
  {
    assert env.GoodAlloc(size, blobs);
  }

  lemma KeptPosition(kept: seq<Slice>, blobs: seq<Slice>, k: nat)
    requires SlicesOk(blobs) && blobs != [] && |Refs(kept)| == k
    ensures At(kept + blobs, |kept|, 0, k)
  {
    assert (kept + blobs)[..|kept|] == kept;
    assert (kept + blobs)[|kept|] == blobs[0];
    assert blobs[0] in blobs;
  }

  lemma FreshIds(env: Env, size: nat, u: Upload, base: nat, blobs: seq<Slice>)
    requires env.Valid() && Aligned(env, size, u, base) && env.alloc(u.remain, u.attempt) == Some(blobs)
    ensures Bids(blobs) !! AllBids(u.locations)
  {
    forall bid | bid in AllBids(u.locations)
      ensures bid !in Bids(blobs)
    {
      var l :| l in u.locations && bid in Bids(l.blobs);
      assert FromAlloc(env, l.blobs, u.attempt);
      var size: nat, a: nat :| a < u.attempt && 0 < size < TWO_64 && env.alloc(size, a) == Some(l.blobs);
      assert Bids(env.alloc(size, a).value) !! Bids(env.alloc(u.remain, u.attempt).value);
    }
  }

  /** Joining two lists without common ids. */
  lemma JoinDistinct(a: seq<Ref>, b: seq<Ref>)
    requires DistinctBids(a) && DistinctBids(b) && BidsOf(a) !! BidsOf(b)
    ensures DistinctBids(a + b)
  {
    forall i, j | 0 <= i < j < |a + b|
      ensures (a + b)[i].bid != (a + b)[j].bid
    {
      if i < |a| <= j {
        assert a[i] in a && b[j - |a|] in b;
        assert a[i].bid in BidsOf(a) && b[j - |a|].bid in BidsOf(b);
      }
    }
  }

  /** The ids before and from k on are different. */
  lemma SplitDistinct(refs: seq<Ref>, k: nat, bids: set<nat>)
    requires DistinctBids(refs) && k <= |refs|
    requires forall bid | bid in bids :: exists q :: k <= q < |refs| && refs[q].bid == bid
    ensures DistinctBids(refs[..k]) && BidsOf(refs[..k]) <= BidsOf(refs) && bids <= BidsOf(refs)
    ensures BidsOf(refs[..k]) !! bids
  {
    forall bid | bid in bids
      ensures bid in BidsOf(refs) && bid !in BidsOf(refs[..k])
    {
      var q :| k <= q < |refs| && refs[q].bid == bid;
      assert refs[q] in refs;
    }
    forall bid | bid in BidsOf(refs[..k])
      ensures bid in BidsOf(refs)
    {
      var ref :| ref in refs[..k] && ref.bid == bid;
      assert ref in refs;
    }
  }

  lemma AllBidsMore(locs: seq<Location>, l: Location)
    ensures AllBids(locs + [l]) == AllBids(locs) + Bids(l.blobs)
  {
    hide Bids;
    assert forall x | x in locs :: x in locs + [l];
    assert l in locs + [l];
    forall bid
      ensures bid in AllBids(locs + [l]) <==> bid in AllBids(locs) || bid in Bids(l.blobs)
    {
      if bid in AllBids(locs) {
        var x :| x in locs && bid in Bids(x.blobs);
        assert x in locs + [l];
      }
    }
  }

  /** The ids of the failed batch. */
  ghost predicate FailedIds(refs: seq<Ref>, k: nat, bids: set<nat>) {
    forall bid | bid in bids :: exists q :: k <= q < |refs| && refs[q].bid == bid
  }

  lemma SpliceIds(env: Env, size: nat, u: Upload, k: nat, base: nat, blobs: seq<Slice>, deleted: set<nat>,
                  failed: set<nat>)
    requires env.Valid() && Aligned(env, size, u, base) && Position(env, size, u, k, base) && k < |Refs(u.loc.blobs)|
    requires size < TWO_64 && env.alloc(u.remain, u.attempt) == Some(blobs)
    requires Ids(u, deleted) && FailedIds(Refs(u.loc.blobs), k, failed)
    ensures u.idx < |u.loc.blobs| && SlicesOk(blobs) && |Kept(u)| <= |u.tokens|
    ensures Ids(Spliced(env, u, blobs), deleted + failed)
  {
    hide Refs, BidsOf, AllBids, Aligned, Position, Kept, TokensOf, SlicesOk, Env.Valid, DistinctBids, LocationOk;
    var refs := Refs(u.loc.blobs);
    SpliceAligns(env, size, u, k, base, blobs);
    FreshIds(env, size, u, base, blobs);
    SplitDistinct(refs, k, failed);
    AllBidsMore(u.locations, env.Issued(u.remain, blobs));
    MaySplice(env, size, u, k, base);
    AllocIsDistinct(env, u.remain, u.attempt, blobs);
    JoinDistinct(refs[..k], Refs(blobs));
    BidsAppend(refs[..k], Refs(blobs));
  }

  lemma AllocIsDistinct(env: Env, size: nat, a: nat, blobs: seq<Slice>)
    requires env.Valid() && 0 < size < TWO_64 && env.alloc(size, a) == Some(blobs)
    ensures DistinctBids(Refs(blobs))
  {
    assert env.GoodAlloc(size, blobs);
  }

  // ---- the upload ----

  ghost predicate AllAdmitted(sent: seq<Part>) {
    forall p | p in sent :: p.Admitted()
  }

  ghost predicate Inv(env: Env, body: Bytes, u: Upload, log: Log, k: nat, base: nat) {
    && Aligned(env, |body|, u, base) && Position(env, |body|, u, k, base) && Ids(u, log.deleted)
    && Holds(body, env.blobSize, Refs(u.loc.blobs), log.stored, k) && AllAdmitted(log.sent)
  }

  /** Two well-formed locations of the same size have as many blobs. */
  lemma SameCount(a: Location, b: Location)
    requires a.WellFormed() && b.WellFormed() && a.size == b.size && a.blobSize == b.blobSize
    ensures |Refs(a.blobs)| == |Refs(b.blobs)|
  {
    hide Refs;
    var m, n := |Refs(a.blobs)|, |Refs(b.blobs)|;
    if m < n {
      TimesMonotone(m, n - 1, a.blobSize);
    } else if n < m {
      TimesMonotone(n, m - 1, a.blobSize);
    }
  }

  function PartBids(parts: seq<Part>): set<nat> {
    set p | p in parts :: p.bid
  }

  lemma FedAreAdmitted(body: Bytes, blobSize: nat, refs: seq<Ref>, k: nat, sent: seq<Part>, parts: seq<Part>)
    requires AllAdmitted(sent) && forall i | 0 <= i < |parts| :: Fed(body, blobSize, refs, k + i, parts[i])
    ensures AllAdmitted(sent + parts)
    ensures FailedIds(refs, k, PartBids(parts))
  {
    forall p | p in sent + parts
      ensures p.Admitted()
    {
      if p in parts {
        var i :| 0 <= i < |parts| && parts[i] == p;
        assert Fed(body, blobSize, refs, k + i, parts[i]);
      }
    }
    forall bid | bid in PartBids(parts)
      ensures exists q :: k <= q < |refs| && refs[q].bid == bid
    {
      var p :| p in parts && p.bid == bid;
      var i :| 0 <= i < |parts| && parts[i] == p;
      assert Fed(body, blobSize, refs, k + i, parts[i]);
      assert refs[k + i].bid == bid;
    }
  }

  lemma SpliceKeeps(env: Env, body: Bytes, u: Upload, log: Log, k: nat, base: nat, blobs: seq<Slice>, failed: set<nat>)
    requires env.Valid() && Inv(env, body, u, log, k, base) && k < |Refs(u.loc.blobs)| && |body| < TWO_64
    requires env.alloc(u.remain, u.attempt) == Some(blobs) && FailedIds(Refs(u.loc.blobs), k, failed)
    ensures u.idx < |u.loc.blobs| && SlicesOk(blobs) && |Kept(u)| <= |u.tokens|
    ensures var u' := Spliced(env, u, blobs);
      && Inv(env, body, u', log.(deleted := log.deleted + failed), k, |Kept(u)|)
      && |Refs(u'.loc.blobs)| == |Refs(u.loc.blobs)|
  {
    hide Refs, Aligned, Position, Ids, FailedIds, Kept, TokensOf, SlicesOk, Env.Valid, HoldsPart, Location.WellFormed;
    SpliceAligns(env, |body|, u, k, base, blobs);
    SpliceIds(env, |body|, u, k, base, blobs, log.deleted, failed);
    var u' := Spliced(env, u, blobs);
    WholeIsWellFormed(env, |body|, u, base);
    WholeIsWellFormed(env, |body|, u', |Kept(u)|);
    AlignedSize(env, |body|, u, base);
    SameCount(u.loc, u'.loc);
  }

  lemma AlignedSize(env: Env, size: nat, u: Upload, base: nat)
    requires Aligned(env, size, u, base)
    ensures u.loc.size == size && u.loc.blobSize == env.blobSize
  {
  }

  /** One batch of parts, with re-allocation of the rest each time it fails. */
  method PutBatch(env: Env, u: Upload, log: Log, bufs: seq<Bytes>, maxRetry: nat, patience: nat,
                  ghost body: Bytes, ghost k: nat, ghost base: nat)
    returns (ok: bool, u': Upload, log': Log, ghost base': nat)
    requires env.Valid() && Inv(env, body, u, log, k, base) && |body| < TWO_64
    requires 0 < |bufs| && k + |bufs| <= |Refs(u.loc.blobs)|
    requires forall i | 0 <= i < |bufs| :: IsPart(body, env.blobSize, k + i, bufs[i])
    ensures AllAdmitted(log'.sent)
    ensures ok ==> Inv(env, body, u', log', k + |bufs|, base') && |u'.loc.blobs| <= MAX_LOCATION_BLOBS
    ensures ok ==> |Refs(u'.loc.blobs)| == |Refs(u.loc.blobs)|
    ensures env.accepted(u.batches) && u.attempt < patience && |u.loc.blobs| <= MAX_LOCATION_BLOBS ==>
              ok && u'.attempt == u.attempt && u'.locations == u.locations && log'.deleted == log.deleted
  {
    hide Aligned, Position, Ids, Refs, Fed, IsPart, Times, SlicesOk, TokensOf, Kept, Env.Valid, FailedIds, AllAdmitted;
    u', log', base' := u, log, base;
    var tryTimes := maxRetry;
    while u'.attempt < patience
      invariant env.accepted(u.batches) && |u.loc.blobs| <= MAX_LOCATION_BLOBS ==> u' == u && log' == log
      invariant Inv(env, body, u', log', k, base') && |Refs(u'.loc.blobs)| == |Refs(u.loc.blobs)|
      decreases patience - u'.attempt
    {
      if |u'.loc.blobs| > MAX_LOCATION_BLOBS {
        return false, u', log', base';
      }
      var parts := Feed(env, u', bufs, body, k, base');
      FedAreAdmitted(body, env.blobSize, Refs(u'.loc.blobs), k, log'.sent, parts);
      log' := log'.(sent := log'.sent + parts);
      var batch := u'.batches;
      u' := Counted(env, body, u', log', k, base');
      if env.accepted(batch) {
        var stored;
        IdsFacts(u', log'.deleted);
        ghost var before := u';
        u', stored := Commit(env, u', log'.stored, parts, body, k, base');
        log' := log'.(stored := stored);
        IdsSame(before, u', log'.deleted);
        return true, u', log', base';
      }
      var failed := PartBids(parts);
      if tryTimes > 0 {
        if tryTimes == 1 {
          return false, u', log', base';
        }
        tryTimes := tryTimes - 1;
      }
      var resp := env.alloc(u'.remain, u'.attempt);
      if resp.None? {
        return false, u', log', base';
      }
      SpliceKeeps(env, body, u', log', k, base', resp.value, failed);
      if resp.value != [] && resp.value[0].vid == u'.loc.blobs[u'.idx].vid {
        return false, u', log', base';
      }
      base' := |Kept(u')|;
      log' := log'.(deleted := log'.deleted + failed);
      u' := Spliced(env, u', resp.value);
    }
    return false, u', log', base';
  }

  method Counted(env: Env, ghost body: Bytes, u: Upload, ghost log: Log, ghost k: nat, ghost base: nat)
    returns (u': Upload)
    requires Inv(env, body, u, log, k, base)
    ensures u' == u.(batches := u.batches + 1) && Inv(env, body, u', log, k, base)
  {
    u' := u.(batches := u.batches + 1);
  }

  lemma IdsFacts(u: Upload, deleted: set<nat>)
    requires Ids(u, deleted)
    ensures DistinctBids(Refs(u.loc.blobs))
  {
  }

  lemma IdsSame(u: Upload, u': Upload, deleted: set<nat>)
    requires Ids(u, deleted) && u'.loc == u.loc && u'.locations == u.locations
    ensures Ids(u', deleted)
  {
  }

  /** The next count parts of the object, as they are read. */
  method ReadBuffers(body: Bytes, blobSize: nat, k: nat, count: nat) returns (bufs: seq<Bytes>)
    requires blobSize > 0 && count > 0 && Times(k + count - 1, blobSize) < |body|
    ensures |bufs| == count && forall i | 0 <= i < count :: IsPart(body, blobSize, k + i, bufs[i])
  {
    bufs := [];
    for i := 0 to count
      invariant |bufs| == i && forall i' | 0 <= i' < i :: IsPart(body, blobSize, k + i', bufs[i'])
    {
      TimesMonotone(k + i, k + count - 1, blobSize);
      var start := Times(k + i, blobSize);
      var toread := PartSize(|body|, blobSize, k + i);
      bufs := bufs + [body[start..start + toread]];
    }
  }

  /** What a finished upload promises about the location it returns. */
  ghost predicate Uploaded(env: Env, body: Bytes, loc: Location, log: Log) {
    && loc.size == |body| && loc.blobSize == env.blobSize
    && loc.clusterId == env.clusterId && loc.codeMode == env.codeMode
    && loc.Fits() && loc.WellFormed() && Signed(loc, env.sum) && |loc.blobs| <= MAX_LOCATION_BLOBS
    && Holds(body, env.blobSize, Refs(loc.blobs), log.stored, |Refs(loc.blobs)|)
    && Bids(loc.blobs) !! log.deleted
  }

  /** The first allocation is given, every batch is accepted and the whole object can be read. */
  ghost predicate Undisturbed(env: Env, body: Bytes, available: nat) {
    && env.blobSize > 0 && env.alloc(|body|, 0).Some? && (forall batch: nat :: env.accepted(batch))
    && available >= BlobCount(|body|, env.blobSize)
  }

  /**
   * The whole upload.  concurrence bounds a batch, take says how many buffers are at hand for
   * each one, available how many parts can be read from the caller, maxRetry the tries a batch
   * gets (0 for no limit), patience when the caller gives up.
   */
  method PutParts(env: Env, body: Bytes, concurrence: nat, take: nat -> nat, available: nat, maxRetry: nat,
                  patience: nat)
    returns (r: Result<Location>, log: Log)
    requires env.Valid() && 0 < |body| < TWO_64 && concurrence > 0
    ensures AllAdmitted(log.sent)
    ensures r.Ok? ==> Uploaded(env, body, r.value, log)
    ensures Undisturbed(env, body, available) && patience > 1 ==> r.Ok? && log.deleted == {}
  {
    hide Inv, Uploaded, Aligned, Position, Ids, Refs, IsPart, Times, SlicesOk, TokensOf, Holds, BlobCount, Env.Valid,
         Location.WellFormed, PartSize;
    log := Log(map[], {}, []);
    var first := env.alloc(|body|, 0);
    if first.None? {
      return Err("alloc"), log;
    }
    var u := Start(env, first.value, body);
    ghost var base := 0;
    var k, n := 0, BlobCount(|body|, env.blobSize);
    StartCount(env, body, u, log);
    hide AllAdmitted;
    while k < n
      invariant 0 <= k <= n == |Refs(u.loc.blobs)|
      invariant Inv(env, body, u, log, k, base) && AllAdmitted(log.sent) && |u.loc.blobs| <= MAX_LOCATION_BLOBS
      invariant Undisturbed(env, body, available) && patience > 1 ==>
        u.attempt == |u.locations| == 1 && log.deleted == {}
      decreases n - k
    {
      var count := Clamp(take(u.batches), if concurrence < n - k then concurrence else n - k);
      if available < k + count {
        return Err("read request body"), log;
      }
      InvFacts(env, body, u, log, k, base);
      PartsLeft(u.loc, k + count - 1);
      var bufs := ReadBuffers(body, env.blobSize, k, count);
      var ok;
      ok, u, log, base := PutBatch(env, u, log, bufs, maxRetry, patience, body, k, base);
      if !ok {
        return Err("put parts"), log;
      }
      k := k + count;
    }
    r := Sign(env, u, body, log, k, base);
  }

  method Start(env: Env, blobs: seq<Slice>, body: Bytes) returns (u: Upload)
    requires env.Valid() && 0 < |body| < TWO_64 && env.alloc(|body|, 0) == Some(blobs)
    ensures Inv(env, body, u, Log(map[], {}, []), 0, 0) && |u.loc.blobs| <= MAX_LOCATION_BLOBS
    ensures u.attempt == |u.locations| == 1
  {
    IssuedIsOk(env, |body|, 0, 1);
    var loc := env.Issued(|body|, blobs);
    hide Refs, Times, At, TokensOf, LocationOk;
    var tokens := GenTokens(loc);
    u := Upload(loc, tokens, 0, 0, |body|, |body|, [loc], 1, 0);
    AtFirst(blobs);
    NoRefs();
    AllBidsMore([], loc);
    assert [] + [loc] == [loc];
    assert blobs[..0] == [] && blobs[0..] == blobs && tokens[0..] == tokens;
    TimesZero(env.blobSize);
  }

  lemma NoRefs()
    ensures Refs([]) == []
  {
  }

  lemma StartCount(env: Env, body: Bytes, u: Upload, log: Log)
    requires env.Valid() && |body| > 0 && Inv(env, body, u, log, 0, 0)
    ensures |Refs(u.loc.blobs)| == BlobCount(|body|, env.blobSize)
  {
    WholeIsWellFormed(env, |body|, u, 0);
    AlignedSize(env, |body|, u, 0);
    hide Refs, Aligned, Position, Ids, Env.Valid;
    var n, d := |Refs(u.loc.blobs)|, env.blobSize;
    assert Times(n, d) == Times(n - 1, d) + d;
    DivBounds(|body| + d - 1, d, n);
  }

  lemma InvFacts(env: Env, body: Bytes, u: Upload, log: Log, k: nat, base: nat)
    requires env.Valid() && Inv(env, body, u, log, k, base)
    ensures u.loc.WellFormed() && u.loc.size == |body| && u.loc.blobSize == env.blobSize > 0
  {
    WholeIsWellFormed(env, |body|, u, base);
  }

  /** A location pieced together from several allocations is signed by the service. */
  method Sign(env: Env, u: Upload, ghost body: Bytes, ghost log: Log, ghost k: nat, ghost base: nat)
    returns (r: Result<Location>)
    requires env.Valid() && 0 < |body| < TWO_64 && Inv(env, body, u, log, k, base) && k == |Refs(u.loc.blobs)|
    requires |u.loc.blobs| <= MAX_LOCATION_BLOBS
    ensures r.Ok? ==> Uploaded(env, body, r.value, log)
    ensures env.signs || |u.locations| == 1 <==> r.Ok?
  {
    InvFacts(env, body, u, log, k, base);
    SignFacts(env, body, u, log, k, base);
    hide Refs, Aligned, Position, Times, AllBids, EncodeBody, Encoded, Location.WellFormed, Holds, Env.Valid, BidsOf;
    if |u.locations| == 1 {
      return Ok(u.loc);
    }
    if !env.signs {
      return Err("sign location with crc");
    }
    var signed := SignCrc(u.loc, u.locations, env.sum);
    r := signed.value;
    WellFormedCrc(u.loc, r.value);
  }

  lemma WellFormedCrc(a: Location, b: Location)
    requires a.WellFormed() && b == a.(crc := b.crc)
    ensures b.WellFormed()
  {
  }

  lemma SignFacts(env: Env, body: Bytes, u: Upload, log: Log, k: nat, base: nat)
    requires env.Valid() && 0 < |body| < TWO_64 && Inv(env, body, u, log, k, base)
    requires |u.loc.blobs| <= MAX_LOCATION_BLOBS
    ensures IsSum(env.sum) && u.locations != [] && u.loc.Fits() && |Encoded(u.loc)| <= 1024
    ensures forall l | l in u.locations :: l.Fits() && |Encoded(l)| <= 1024
    ensures MaySign(u.loc, u.locations, env.sum)
    ensures |u.locations| == 1 ==> Signed(u.loc, env.sum)
    ensures u.loc == Location(env.clusterId, env.codeMode, |body|, env.blobSize, u.loc.crc, u.loc.blobs)
  {
    hide Refs, TokensOf, Position, Times, AllBids, EncodeBody, Location.WellFormed, Holds, BidsOf;
    forall l | l in u.locations
      ensures l.Fits() && |Encoded(l)| <= 1024 && Signed(l, env.sum)
      ensures l.clusterId == env.clusterId && l.codeMode == env.codeMode && l.blobSize == env.blobSize
    {
      IssuedIsSigned(env, l, u.attempt);
    }
    assert u.locations[0] in u.locations;
    assert u.loc.crc < TWO_32;
    EncodingFits(u.loc);
  }

  function Clamp(x: nat, most: nat): nat {
    if x == 0 then 1 else if x < most then x else most
  }

  function BlobCount(size: nat, blobSize: nat): nat {
    if blobSize == 0 then 0 else Quotient(size + blobSize - 1, blobSize)
  }
}
