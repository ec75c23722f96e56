/** An object that was uploaded in parts, read back through its encoded location. */
module PutThenGet {

  import opened Wrappers
  import opened Arithmetic
  import opened CodeMode
  import opened LocationModel
  import opened LocationCodec
  import opened PartUpload
  import opened RangeRead
  import opened ReadBlob

  /** The data shards of a stored blob. */
  function ShardsOf(t: Tactic, stored: map<Ref, Bytes>, ref: Ref): seq<Bytes>
    requires t.N > 0
  {
    if ref in stored then DataShards(stored[ref], t.N, ShardSize(t, |stored[ref]|)) else []
  }

  /** Part q of the upload is blob q of the read. */
  lemma PartIsBlob(body: Bytes, blobSize: nat, q: nat, buf: Bytes)
    requires IsPart(body, blobSize, q, buf)
    ensures buf == BlobBytes(body, blobSize, q)
  {
    hide Times;
    TimesNext(q, blobSize);
  }

  /** What an upload has stored is what a read expects. */
  lemma UploadIsStored(env: Env, t: Tactic, body: Bytes, loc: Location, log: Log)
    requires t.N > 0 && Uploaded(env, body, loc, log)
    ensures Stored(loc, t, body, ref => ShardsOf(t, log.stored, ref))
  {
    hide Refs, Times, IsPart, DataShards, ShardSize, BlobBytes;
    forall k: nat | k < |Refs(loc.blobs)|
      ensures HoldsBlob(loc, t, body, ShardsOf(t, log.stored, Refs(loc.blobs)[k]), k)
    {
      var ref := Refs(loc.blobs)[k];
      assert HoldsPart(body, env.blobSize, ref, log.stored, k);
      PartIsBlob(body, env.blobSize, k, log.stored[ref]);
    }
  }

  lemma BlobsFit(loc: Location)
    requires loc.WellFormed() && loc.size + loc.blobSize < TWO_64
    ensures Times(|Refs(loc.blobs)|, loc.blobSize) < TWO_64
  {
    hide Refs, Times;
    var n := |Refs(loc.blobs)|;
    if n > 0 {
      TimesNext(n - 1, loc.blobSize);
    } else {
      TimesZero(loc.blobSize);
    }
  }

  /**
   * Upload, encode the location, decode it again, and read a range: the bytes of the range come
   * back, whatever batches failed and whichever shards were listed, read or missing.  config says
   * how a blob with given data shards is read, and read what that ends with.
   */
  method PutThenGet(env: Env, t: Tactic, body: Bytes, concurrence: nat, take: nat -> nat, available: nat, maxRetry: nat,
                    patience: nat, trailer: Bytes, offset: nat, readSize: nat, up: nat -> bool,
                    read: (Ref, seq<Bytes>) -> Option<seq<Bytes>>, ghost config: (Ref, seq<Bytes>) -> Config)
    returns (r: Result<Bytes>)
    requires env.Valid() && t.N > 0 && 0 < |body| && |body| + env.blobSize < TWO_64 && concurrence > 0
    requires offset < TWO_64 && readSize < TWO_64
    requires forall ref, shards: seq<Bytes> | |shards| == t.N ::
      Reads(t, shards, config(ref, shards), read(ref, shards))
    ensures r.Ok? ==> offset + readSize <= |body| && r.value == body[offset..offset + readSize]
    ensures Undisturbed(env, body, available) && patience > 1 &&
            (forall ref, shards :: CanBeRead(config(ref, shards)) && Listed(config(ref, shards))) ==>
              (r.Ok? <==> offset + readSize <= |body|)
  {
    hide Env.Valid, Stored, Location.WellFormed, Location.Fits, Times, Refs, Decode, Encoded, CanBeRead, Listed, Reads;
    var put, log := PutParts(env, body, concurrence, take, available, maxRetry, patience);
    if put.Err? {
      return Err(put.error);
    }
    var loc := put.value;
    EncodingFits(loc);
    var bytes := Encode(loc);
    RoundTrip(loc, trailer);
    var decoded := DecodeLocation(bytes.value + trailer);
    assert decoded.Ok? && decoded.value.0 == loc;
    UploadIsStored(env, t, body, loc, log);
    BlobsFit(loc);
    ghost var shardsOf := ref => ShardsOf(t, log.stored, ref);
    StoredIsN(env, t, body, loc, log);
    assert BlobsRead(loc, t, shardsOf, ref => config(ref, ShardsOf(t, log.stored, ref)),
                   ref => read(ref, ShardsOf(t, log.stored, ref)));
    r := Get(decoded.value.0, t, readSize, offset, ref => ShardsOf(t, log.stored, ref), up,
             ref => read(ref, ShardsOf(t, log.stored, ref)), ref => config(ref, ShardsOf(t, log.stored, ref)), body);
  }

  lemma StoredIsN(env: Env, t: Tactic, body: Bytes, loc: Location, log: Log)
    requires t.N > 0 && Uploaded(env, body, loc, log)
    ensures forall ref | ref in Refs(loc.blobs) :: |ShardsOf(t, log.stored, ref)| == t.N
  {
    hide Refs, IsPart;
    forall ref | ref in Refs(loc.blobs)
      ensures |ShardsOf(t, log.stored, ref)| == t.N
    {
      var k :| 0 <= k < |Refs(loc.blobs)| && Refs(loc.blobs)[k] == ref;
      assert HoldsPart(body, env.blobSize, ref, log.stored, k);
    }
  }
}
