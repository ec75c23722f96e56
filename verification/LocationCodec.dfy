/** The varint encoding of locations, and the checksum that protects them. */
module LocationCodec {

  import opened Wrappers
  import opened LocationModel

  /** The end of a call that may write past the end of its buffer. */
  datatype Ending<+T> = Done(value: T) | Panic

  // ---- varints ----

  /** Seven bits a byte, the lowest first; the high bit says that more follow. */
  function PutUvarint(x: nat): (b: Bytes)
    ensures b != []
  {
    if x < 128 then [x as byte] else [(x % 128 + 128) as byte] + PutUvarint(x / 128)
  }

  /** The value and the bytes read, or None when the bytes end early or the value has over 64 bits. */
  function Uvarint(buf: Bytes, i: nat): (r: Option<(nat, nat)>)
    ensures r.Some? ==> 0 < r.value.1 <= |buf|
    decreases |buf|
  {
    if buf == [] || i >= 10 then None
    else if buf[0] < 128 then
      if i == 9 && buf[0] > 1 then None else Some((buf[0] as nat, 1))
    else
      var rest := Uvarint(buf[1..], i + 1);
      if rest.None? then None else Some((buf[0] as nat - 128 + 128 * rest.value.0, rest.value.1 + 1))
  }

  /** What is left of 64 bits after i bytes. */
  function Bound(i: nat): nat {
    if i == 0 then TWO_64 else Bound(i - 1) / 128
  }

  lemma BoundValues()
    ensures Bound(9) == 2 && Bound(10) == 0
    ensures forall i | 0 <= i < 9 :: Bound(i) % 128 == 0
  {
    assert Bound(1) == TWO_64 / 128 == 0x200_0000_0000_0000;
    assert Bound(2) == 0x4_0000_0000_0000;
    assert Bound(3) == 0x800_0000_0000;
    assert Bound(4) == 0x10_0000_0000;
    assert Bound(5) == 0x2000_0000;
    assert Bound(6) == 0x40_0000;
    assert Bound(7) == 0x8000;
    assert Bound(8) == 0x100;
    assert Bound(9) == 2;
  }

  lemma BoundNext(x: nat, i: nat)
    requires i < 9 && x < Bound(i)
    ensures x / 128 < Bound(i + 1)
  {
    BoundValues();
  }

  lemma {:induction false} VarintRoundTrip(x: nat, rest: Bytes, i: nat)
    requires i <= 9 && x < Bound(i)
    ensures Uvarint(PutUvarint(x) + rest, i) == Some((x, |PutUvarint(x)|))
    decreases x
  {
    var buf := PutUvarint(x) + rest;
    if x < 128 {
      assert buf[0] == x as byte;
      if i == 9 {
        BoundValues();
      }
    } else {
      if i == 9 {
        BoundValues();
      }
      BoundNext(x, i);
      assert buf[1..] == PutUvarint(x / 128) + rest;
      VarintRoundTrip(x / 128, rest, i + 1);
    }
  }

  // ---- encoding ----

  function BigEndian32(x: nat): (b: Bytes)
    requires x < TWO_32
    ensures |b| == 4
  {
    [(x / 256 / 256 / 256) as byte, (x / 256 / 256 % 256) as byte, (x / 256 % 256) as byte, (x % 256) as byte]
  }

  function FromBigEndian32(b: Bytes): (x: nat)
    requires |b| >= 4
    ensures x < TWO_32
  {
    b[0] as nat * 0x100_0000 + b[1] as nat * 0x1_0000 + b[2] as nat * 256 + b[3] as nat
  }

  lemma BigEndianRoundTrip(x: nat, rest: Bytes)
    requires x < TWO_32
    ensures FromBigEndian32(BigEndian32(x) + rest) == x
  {
    var a, b := x / 256, x / 256 / 256;
    assert x == 256 * a + x % 256 && a == 256 * b + a % 256 && b == 256 * (b / 256) + b % 256;
    var buf := BigEndian32(x) + rest;
    assert buf[0] as nat == b / 256 && buf[1] as nat == b % 256 && buf[2] as nat == a % 256 && buf[3] as nat == x % 256;
  }

  function EncodeSlice(s: Slice): Bytes {
    PutUvarint(s.minBid) + PutUvarint(s.vid) + PutUvarint(s.count)
  }

  function EncodeSlices(blobs: seq<Slice>): Bytes {
    if blobs == [] then [] else EncodeSlices(blobs[..|blobs| - 1]) + EncodeSlice(blobs[|blobs| - 1])
  }

  function EncodeHead(loc: Location): Bytes
    requires loc.codeMode < 256
  {
    PutUvarint(loc.clusterId) + [loc.codeMode as byte] + PutUvarint(loc.size) + PutUvarint(loc.blobSize) +
    PutUvarint(|loc.blobs|)
  }

  /** The part of an encoding that the checksum covers. */
  function EncodeBody(loc: Location): Bytes
    requires loc.codeMode < 256
  {
    EncodeHead(loc) + EncodeSlices(loc.blobs)
  }

  function Encoded(loc: Location): Bytes
    requires loc.Fits()
  {
    BigEndian32(loc.crc) + EncodeBody(loc)
  }

  /** Copies bytes into the buffer at n; what is beyond them stays. */
  method Put(buf: array<byte>, n: nat, bytes: Bytes) returns (n': nat)
    requires n + |bytes| <= buf.Length
    modifies buf
    ensures n' == n + |bytes|
    ensures buf[..n'] == old(buf[..n]) + bytes
    ensures forall i | n' <= i < buf.Length :: buf[i] == old(buf[i])
  {
    forall i | 0 <= i < |bytes| {
      buf[n + i] := bytes[i];
    }
    n' := n + |bytes|;
    assert buf[..n'][..n] == old(buf[..n]);
    assert buf[..n'][n..] == bytes;
  }

  lemma {:induction false} EncodeSlicesAppend(a: seq<Slice>, b: seq<Slice>)
    ensures EncodeSlices(a + b) == EncodeSlices(a) + EncodeSlices(b)
  {
    hide EncodeSlice;
    if b == [] {
      assert a + b == a;
    } else {
      assert (a + b)[..|a + b| - 1] == a + b[..|b| - 1];
      EncodeSlicesAppend(a, b[..|b| - 1]);
    }
  }

  lemma SliceFits(blobs: seq<Slice>, k: nat)
    requires k < |blobs|
    ensures EncodeSlices(blobs[..k + 1]) == EncodeSlices(blobs[..k]) + EncodeSlice(blobs[k])
    ensures |EncodeSlices(blobs[..k + 1])| <= |EncodeSlices(blobs)|
  {
    assert blobs[..k + 1][..k] == blobs[..k];
    assert blobs == blobs[..k + 1] + blobs[k + 1..];
    EncodeSlicesAppend(blobs[..k + 1], blobs[k + 1..]);
  }

  method PutHead(loc: Location, buf: array<byte>) returns (n: nat)
    requires loc.Fits() && 4 + |EncodeHead(loc)| <= buf.Length
    modifies buf
    ensures n == 4 + |EncodeHead(loc)| && buf[..n] == BigEndian32(loc.crc) + EncodeHead(loc)
    ensures forall i | n <= i < buf.Length :: buf[i] == old(buf[i])
  {
    hide PutUvarint, BigEndian32;
    n := Put(buf, 0, BigEndian32(loc.crc));
    n := Put(buf, n, PutUvarint(loc.clusterId));
    n := Put(buf, n, [loc.codeMode as byte]);
    n := Put(buf, n, PutUvarint(loc.size));
    n := Put(buf, n, PutUvarint(loc.blobSize));
    n := Put(buf, n, PutUvarint(|loc.blobs|));
  }

  method PutSlice(s: Slice, buf: array<byte>, n: nat) returns (n': nat)
    requires n + |EncodeSlice(s)| <= buf.Length
    modifies buf
    ensures n' == n + |EncodeSlice(s)| && buf[..n'] == old(buf[..n]) + EncodeSlice(s)
    ensures forall i | n' <= i < buf.Length :: buf[i] == old(buf[i])
  {
    hide PutUvarint;
    n' := Put(buf, n, PutUvarint(s.minBid));
    n' := Put(buf, n', PutUvarint(s.vid));
    n' := Put(buf, n', PutUvarint(s.count));
  }

  /** Writes the location to the front of the buffer. */
  method Encode2(loc: Location, buf: array<byte>) returns (n: nat)
    requires loc.Fits() && |Encoded(loc)| <= buf.Length
    modifies buf
    ensures n == |Encoded(loc)| && buf[..n] == Encoded(loc)
    ensures forall i | n <= i < buf.Length :: buf[i] == old(buf[i])
  {
    hide PutUvarint, BigEndian32, EncodeHead, EncodeSlice;
    n := PutHead(loc, buf);
    ghost var head := buf[..n];
    for k := 0 to |loc.blobs|
      invariant n == |head| + |EncodeSlices(loc.blobs[..k])| <= buf.Length
      invariant buf[..n] == head + EncodeSlices(loc.blobs[..k])
      invariant forall i | n <= i < buf.Length :: buf[i] == old(buf[i])
    {
      SliceFits(loc.blobs, k);
      n := PutSlice(loc.blobs[k], buf, n);
    }
    assert loc.blobs[..|loc.blobs|] == loc.blobs;
  }

  // ---- decoding ----

  function Next(buf: Bytes): (r: Option<(nat, Bytes)>)
    ensures r.Some? ==> |r.value.1| < |buf|
  {
    var r := Uvarint(buf, 0);
    if r.None? then None else Some((r.value.0, buf[r.value.1..]))
  }

  function NextSlice(buf: Bytes): Option<(Slice, Bytes)> {
    var a := Next(buf);
    if a.None? then None else
    var b := Next(a.value.1);
    if b.None? then None else
    var c := Next(b.value.1);
    if c.None? then None else
    Some((Slice(a.value.0, b.value.0 % TWO_32, c.value.0 % TWO_32), c.value.1))
  }

  function NextSlices(buf: Bytes, count: nat): Option<(seq<Slice>, Bytes)> {
    if count == 0 then Some(([], buf)) else
    var s := NextSlice(buf);
    if s.None? then None else
    var rest := NextSlices(s.value.1, count - 1);
    if rest.None? then None else Some(([s.value.0] + rest.value.0, rest.value.1))
  }

  /** The number of blobs, read as a signed integer. */
  function Length(x: nat): nat {
    if x < TWO_64 / 2 then x else 0
  }

  function Decode(buf: Bytes): Option<(Location, Bytes)> {
    if |buf| < 4 then None else
    var cluster := Next(buf[4..]);
    if cluster.None? || cluster.value.1 == [] then None else
    var size := Next(cluster.value.1[1..]);
    if size.None? then None else
    var blobSize := Next(size.value.1);
    if blobSize.None? then None else
    var count := Next(blobSize.value.1);
    if count.None? then None else
    var slices := NextSlices(count.value.1, Length(count.value.0));
    if slices.None? then None else
    Some((Location(cluster.value.0 % TWO_32, cluster.value.1[0] as nat, size.value.0, blobSize.value.0 % TWO_32,
                   FromBigEndian32(buf), slices.value.0), slices.value.1))
  }

  lemma NextRoundTrip(x: nat, rest: Bytes)
    requires x < TWO_64
    ensures Next(PutUvarint(x) + rest) == Some((x, rest))
  {
    VarintRoundTrip(x, rest, 0);
    assert (PutUvarint(x) + rest)[|PutUvarint(x)|..] == rest;
  }

  lemma SliceRoundTrip(s: Slice, rest: Bytes)
    requires s.Fits()
    ensures NextSlice(EncodeSlice(s) + rest) == Some((s, rest))
  {
    hide Next, PutUvarint;
    var b, c := PutUvarint(s.vid), PutUvarint(s.count);
    assert EncodeSlice(s) + rest == PutUvarint(s.minBid) + (b + (c + rest));
    NextRoundTrip(s.minBid, b + (c + rest));
    NextRoundTrip(s.vid, c + rest);
    NextRoundTrip(s.count, rest);
  }

  lemma EncodeSlicesCons(blobs: seq<Slice>)
    requires blobs != []
    ensures EncodeSlices(blobs) == EncodeSlice(blobs[0]) + EncodeSlices(blobs[1..])
  {
    hide EncodeSlice;
    assert blobs == [blobs[0]] + blobs[1..];
    EncodeSlicesAppend([blobs[0]], blobs[1..]);
    assert [blobs[0]][..0] == [];
  }

  lemma {:induction false} SlicesRoundTrip(blobs: seq<Slice>, rest: Bytes)
    requires forall s | s in blobs :: s.Fits()
    ensures NextSlices(EncodeSlices(blobs) + rest, |blobs|) == Some((blobs, rest))
  {
    hide EncodeSlice, NextSlice;
    if blobs == [] {
      assert EncodeSlices(blobs) + rest == rest;
    } else {
      EncodeSlicesCons(blobs);
      assert EncodeSlices(blobs) + rest == EncodeSlice(blobs[0]) + (EncodeSlices(blobs[1..]) + rest);
      SliceRoundTrip(blobs[0], EncodeSlices(blobs[1..]) + rest);
      SlicesRoundTrip(blobs[1..], rest);
      assert blobs == [blobs[0]] + blobs[1..];
    }
  }

  /** Decoding undoes encoding, whatever follows, and stops just after it. */
  lemma RoundTrip(loc: Location, rest: Bytes)
    requires loc.Fits() && |loc.blobs| < TWO_64 / 2
    ensures Decode(Encoded(loc) + rest) == Some((loc, rest))
  {
    hide PutUvarint, Next, NextSlices, EncodeSlices, FromBigEndian32, BigEndian32;
    var buf := Encoded(loc) + rest;
    var r4 := EncodeSlices(loc.blobs) + rest;
    var r3 := PutUvarint(|loc.blobs|) + r4;
    var r2 := PutUvarint(loc.blobSize) + r3;
    var r1 := PutUvarint(loc.size) + r2;
    var r0 := PutUvarint(loc.clusterId) + ([loc.codeMode as byte] + r1);
    assert buf == BigEndian32(loc.crc) + r0;
    BigEndianRoundTrip(loc.crc, r0);
    assert buf[4..] == r0;
    NextRoundTrip(loc.clusterId, [loc.codeMode as byte] + r1);
    assert ([loc.codeMode as byte] + r1)[1..] == r1;
    NextRoundTrip(loc.size, r2);
    NextRoundTrip(loc.blobSize, r3);
    NextRoundTrip(|loc.blobs|, r4);
    SlicesRoundTrip(loc.blobs, rest);
  }

  /** Reads slices one by one; what is left to read never changes. */
  method ReadSlices(buf: Bytes, length: nat) returns (r: Result<(seq<Slice>, Bytes)>)
    ensures NextSlices(buf, length).None? ==> r.Err?
    ensures NextSlices(buf, length).Some? ==> r == Ok(NextSlices(buf, length).value)
  {
    hide Next;
    var cur := buf;
    var blobs: seq<Slice> := [];
    for index := 0 to length
      invariant NextSlices(cur, length - index).None? <==> NextSlices(buf, length).None?
      invariant NextSlices(buf, length).Some? ==>
        && NextSlices(buf, length).value.0 == blobs + NextSlices(cur, length - index).value.0
        && NextSlices(buf, length).value.1 == NextSlices(cur, length - index).value.1
    {
      var minBid := Next(cur);
      if minBid.None? {
        return Err("blob min_bid");
      }
      var vid := Next(minBid.value.1);
      if vid.None? {
        return Err("blob vid");
      }
      var count := Next(vid.value.1);
      if count.None? {
        return Err("blob count");
      }
      blobs := blobs + [Slice(minBid.value.0, vid.value.0 % TWO_32, count.value.0 % TWO_32)];
      cur := count.value.1;
    }
    assert blobs + [] == blobs;
    return Ok((blobs, cur));
  }

  /** Parses a location, and tells how many bytes it took. */
  method DecodeLocation(buf: Bytes) returns (r: Result<(Location, nat)>)
    ensures Decode(buf).None? <==> r.Err?
    ensures r.Ok? ==>
      && r.value.0 == Decode(buf).value.0 && r.value.1 <= |buf|
      && |Decode(buf).value.1| == |buf| - r.value.1
  {
    hide Uvarint, NextSlices, FromBigEndian32;
    if |buf| < 4 {
      return Err("bytes crc");
    }
    var crc := FromBigEndian32(buf);
    var cluster := Next(buf[4..]);
    if cluster.None? {
      return Err("bytes cluster_id");
    }
    var cur := cluster.value.1;
    if |cur| < 1 {
      return Err("bytes codemode");
    }
    var mode := cur[0];
    var size := Next(cur[1..]);
    if size.None? {
      return Err("bytes size");
    }
    var blobSize := Next(size.value.1);
    if blobSize.None? {
      return Err("bytes blob_size");
    }
    var count := Next(blobSize.value.1);
    if count.None? {
      return Err("bytes length blobs");
    }
    var slices := ReadSlices(count.value.1, Length(count.value.0));
    if slices.Err? {
      return Err(slices.error);
    }
    RestIsShorter(count.value.1, Length(count.value.0));
    var loc := Location(cluster.value.0 % TWO_32, mode as nat, size.value.0, blobSize.value.0 % TWO_32, crc,
                        slices.value.0);
    return Ok((loc, |buf| - |slices.value.1|));
  }

  lemma {:induction false} RestIsShorter(buf: Bytes, count: nat)
    ensures NextSlices(buf, count).Some? ==> |NextSlices(buf, count).value.1| <= |buf|
    decreases count
  {
    hide Uvarint;
    if count > 0 && NextSlice(buf).Some? {
      RestIsShorter(NextSlice(buf).value.1, count - 1);
    }
  }

  // ---- the length of an encoding ----

  function Pow128(k: nat): nat {
    if k == 0 then 1 else 128 * Pow128(k - 1)
  }

  lemma {:induction false} VarintLength(x: nat, k: nat)
    requires k > 0
    ensures |PutUvarint(x)| <= k <==> x < Pow128(k)
    decreases k
  {
    if k == 1 {
      assert Pow128(1) == 128;
    } else if x >= 128 {
      VarintLength(x / 128, k - 1);
    } else {
      PowGrows(k);
    }
  }

  lemma {:induction false} PowGrows(k: nat)
    requires k > 0
    ensures Pow128(k) >= 128
  {
    if k > 1 {
      PowGrows(k - 1);
    }
  }

  lemma Pow128Values()
    ensures Pow128(1) == 128 && Pow128(2) == 0x4000 && Pow128(4) == 0x1000_0000 && Pow128(5) == 0x8_0000_0000
    ensures Pow128(9) == 0x8000_0000_0000_0000 && Pow128(10) > TWO_64
  {
    assert Pow128(1) == 128 && Pow128(2) == 0x4000 && Pow128(3) == 0x20_0000 && Pow128(4) == 0x1000_0000;
    assert Pow128(5) == 0x8_0000_0000 && Pow128(6) == 0x400_0000_0000 && Pow128(7) == 0x2_0000_0000_0000;
    assert Pow128(8) == 0x100_0000_0000_0000 && Pow128(9) == 0x8000_0000_0000_0000;
  }

  lemma SliceLength(s: Slice)
    requires s.Fits()
    ensures 3 <= |EncodeSlice(s)| <= 20
    ensures s == LargestSlice() ==> |EncodeSlice(s)| == 20
    ensures s == Slice(0, 0, 0) ==> |EncodeSlice(s)| == 3
  {
    hide Pow128;
    Pow128Values();
    VarintLength(s.minBid, 10);
    VarintLength(s.minBid, 9);
    VarintLength(s.vid, 5);
    VarintLength(s.vid, 4);
    VarintLength(s.count, 5);
    VarintLength(s.count, 4);
  }

  function LargestSlice(): Slice {
    Slice(TWO_64 - 1, TWO_32 - 1, TWO_32 - 1)
  }

  lemma {:induction false} SlicesLength(blobs: seq<Slice>)
    requires forall s | s in blobs :: s.Fits()
    ensures 3 * |blobs| <= |EncodeSlices(blobs)| <= 20 * |blobs|
    ensures (forall i | 0 <= i < |blobs| :: blobs[i] == LargestSlice()) ==> |EncodeSlices(blobs)| == 20 * |blobs|
    ensures (forall i | 0 <= i < |blobs| :: blobs[i] == Slice(0, 0, 0)) ==> |EncodeSlices(blobs)| == 3 * |blobs|
  {
    hide EncodeSlice;
    if blobs != [] {
      SlicesLength(blobs[..|blobs| - 1]);
      assert blobs[|blobs| - 1] in blobs;
      SliceLength(blobs[|blobs| - 1]);
    }
  }

  /** The buffer that Encode makes is large enough for any location of fewer than 2^35 blobs. */
  lemma EncodingFits(loc: Location)
    requires loc.Fits() && |loc.blobs| < 0x8_0000_0000
    ensures |Encoded(loc)| <= 30 + 20 * |loc.blobs|
  {
    hide PutUvarint, EncodeSlices, Pow128;
    Pow128Values();
    VarintLength(loc.clusterId, 5);
    VarintLength(loc.size, 10);
    VarintLength(loc.blobSize, 5);
    VarintLength(|loc.blobs|, 5);
    SlicesLength(loc.blobs);
  }

  method Encode(loc: Location) returns (r: Ending<Bytes>)
    requires loc.Fits()
    ensures r.Panic? <==> |Encoded(loc)| > 30 + 20 * |loc.blobs|
    ensures r.Done? ==> r.value == Encoded(loc)
  {
    var buf := new byte[30 + |loc.blobs| * 20];
    if |Encoded(loc)| > buf.Length {
      return Panic;
    }
    var n := Encode2(loc, buf);
    return Done(buf[..n]);
  }

  function Largest(count: nat): Location {
    Location(TWO_32 - 1, 255, TWO_64 - 1, TWO_32 - 1, 0, seq(count, i => LargestSlice()))
  }

  /** With more blobs than that the largest location does not fit. */
  lemma EncodingOverflows(count: nat)
    requires count >= 0x8_0000_0000
    ensures Largest(count).Fits() && |Largest(count).blobs| == count
    ensures |Encoded(Largest(count))| > 30 + 20 * count
  {
    hide PutUvarint, EncodeSlices, Pow128;
    var loc := Largest(count);
    Pow128Values();
    VarintLength(loc.clusterId, 4);
    VarintLength(loc.size, 9);
    VarintLength(loc.blobSize, 4);
    VarintLength(count, 5);
    SlicesLength(loc.blobs);
  }

  /** Encode is without a panic for every location of so many slices exactly below 2^35. */
  lemma EncodeIsSafeExactly(count: nat)
    ensures (forall loc: Location | loc.Fits() && |loc.blobs| == count :: |Encoded(loc)| <= 30 + 20 * count) <==>
            count < 0x8_0000_0000
  {
    hide Encoded;
    if count < 0x8_0000_0000 {
      forall loc: Location | loc.Fits() && |loc.blobs| == count
        ensures |Encoded(loc)| <= 30 + 20 * count
      {
        EncodingFits(loc);
      }
    } else {
      EncodingOverflows(count);
    }
  }

  // ---- the checksum ----

  /** The buffer for the checksum is too short for the location. */
  predicate TooLong(loc: Location)
    requires loc.Fits()
  {
    |Encoded(loc)| > 1024
  }

  lemma HeadLength(loc: Location)
    requires loc.Fits() && |loc.blobs| < 0x4000
    ensures var count := if |loc.blobs| < 128 then 1 else 2;
      && 8 + count + 3 * |loc.blobs| <= |Encoded(loc)| <= 25 + count + 20 * |loc.blobs|
      && (loc == Largest(|loc.blobs|) ==> |Encoded(loc)| == 25 + count + 20 * |loc.blobs|)
      && (loc == Smallest(|loc.blobs|) ==> |Encoded(loc)| == 8 + count + 3 * |loc.blobs|)
  {
    hide EncodeSlices, Pow128;
    Pow128Values();
    VarintLength(loc.clusterId, 5);
    VarintLength(loc.clusterId, 4);
    VarintLength(loc.size, 10);
    VarintLength(loc.size, 9);
    VarintLength(loc.blobSize, 5);
    VarintLength(loc.blobSize, 4);
    VarintLength(|loc.blobs|, 1);
    VarintLength(|loc.blobs|, 2);
    SlicesLength(loc.blobs);
  }

  function Smallest(count: nat): Location {
    Location(0, 0, 0, 0, 0, seq(count, i => Slice(0, 0, 0)))
  }

  lemma SmallestFits(count: nat)
    ensures Smallest(count).Fits() && |Smallest(count).blobs| == count
    ensures Largest(count).Fits() && |Largest(count).blobs| == count
  {
  }

  /** No location of so many slices is too long for the checksum exactly up to 49 of them. */
  lemma ChecksumIsSafeExactly(count: nat)
    ensures (forall loc: Location | loc.Fits() && |loc.blobs| == count :: !TooLong(loc)) <==> count <= 49
  {
    hide Encoded;
    SmallestFits(count);
    if count <= 49 {
      forall loc: Location | loc.Fits() && |loc.blobs| == count
        ensures !TooLong(loc)
      {
        HeadLength(loc);
      }
    } else if count < 0x4000 {
      HeadLength(Largest(count));
    } else {
      EncodingIsLong(Largest(count));
    }
  }

  /** Every location of so many slices is too long exactly from 339 on. */
  lemma ChecksumFailsExactly(count: nat)
    ensures (forall loc: Location | loc.Fits() && |loc.blobs| == count :: TooLong(loc)) <==> count >= 339
  {
    hide Encoded;
    SmallestFits(count);
    if count < 339 {
      HeadLength(Smallest(count));
    } else {
      forall loc: Location | loc.Fits() && |loc.blobs| == count
        ensures TooLong(loc)
      {
        if count < 0x4000 {
          HeadLength(loc);
        } else {
          EncodingIsLong(loc);
        }
      }
    }
  }

  lemma EncodingIsLong(loc: Location)
    requires loc.Fits()
    ensures |Encoded(loc)| >= 3 * |loc.blobs|
  {
    hide PutUvarint, EncodeSlices;
    SlicesLength(loc.blobs);
  }

  /** The checksummed part does not depend on the checksum. */
  lemma BodyIgnoresCrc(loc: Location, crc: nat)
    requires loc.Fits() && crc < TWO_32
    ensures loc.(crc := crc).Fits() && Encoded(loc.(crc := crc))[4..] == Encoded(loc)[4..] == EncodeBody(loc)
  {
  }

  /** sum stands for the checksum of the secret key followed by the given bytes. */
  ghost predicate IsSum(sum: Bytes -> nat) {
    forall b :: sum(b) < TWO_32
  }

  ghost predicate Signed(loc: Location, sum: Bytes -> nat) {
    loc.codeMode < 256 && loc.crc == sum(EncodeBody(loc))
  }

  method CalcCrc(loc: Location, sum: Bytes -> nat) returns (r: Ending<nat>)
    requires loc.Fits()
    ensures r == if TooLong(loc) then Panic else Done(sum(EncodeBody(loc)))
  {
    hide EncodeBody, BigEndian32;
    var buf := new byte[1024];
    if |Encoded(loc)| > buf.Length {
      return Panic;
    }
    var n := Encode2(loc, buf);
    assert buf[4..n] == buf[..n][4..];
    return Done(sum(buf[4..n]));
  }

  method FillCrc(loc: Location, sum: Bytes -> nat) returns (r: Ending<Location>)
    requires loc.Fits() && IsSum(sum)
    ensures r.Panic? <==> TooLong(loc)
    ensures r.Done? ==>
      r.value.Fits() && r.value == loc.(crc := r.value.crc) && Signed(r.value, sum) && !TooLong(r.value)
  {
    var crc := CalcCrc(loc, sum);
    if crc.Panic? {
      return Panic;
    }
    BodyIgnoresCrc(loc, crc.value);
    return Done(loc.(crc := crc.value));
  }

  method VerifyCrc(loc: Location, sum: Bytes -> nat) returns (r: Ending<bool>)
    requires loc.Fits()
    ensures r.Panic? <==> TooLong(loc)
    ensures r.Done? ==> (r.value <==> Signed(loc, sum))
  {
    var crc := CalcCrc(loc, sum);
    if crc.Panic? {
      return Panic;
    }
    return Done(loc.crc == crc.value);
  }

  /** A checksum that was filled in always verifies. */
  method FillThenVerify(loc: Location, sum: Bytes -> nat) returns (r: Ending<bool>)
    requires loc.Fits() && IsSum(sum)
    ensures r == if TooLong(loc) then Panic else Done(true)
  {
    var filled := FillCrc(loc, sum);
    if filled.Panic? {
      return Panic;
    }
    r := VerifyCrc(filled.value, sum);
  }

  ghost function BidsOf(refs: seq<Ref>): set<nat> {
    set ref | ref in refs :: ref.bid
  }

  ghost function Bids(blobs: seq<Slice>): set<nat> {
    BidsOf(Refs(blobs))
  }

  lemma BidsAppend(a: seq<Ref>, b: seq<Ref>)
    ensures BidsOf(a + b) == BidsOf(a) + BidsOf(b)
  {
    forall bid
      ensures bid in BidsOf(a + b) <==> bid in BidsOf(a) || bid in BidsOf(b)
    {
      if bid in BidsOf(a) {
        var ref :| ref in a && ref.bid == bid;
        assert ref in a + b;
      }
      if bid in BidsOf(b) {
        var ref :| ref in b && ref.bid == bid;
        assert ref in a + b;
      }
    }
  }

  lemma BidsOfSlice(s: Slice, c: nat)
    ensures BidsOf(SliceRefs(s, 0)) == {}
    ensures BidsOf(SliceRefs(s, c + 1)) == BidsOf(SliceRefs(s, c)) + {Wrap64(s.minBid + c)}
  {
    var ref := Ref(s.vid, Wrap64(s.minBid + c));
    assert SliceRefs(s, c + 1) == SliceRefs(s, c) + [ref];
    BidsAppend(SliceRefs(s, c), [ref]);
    assert BidsOf([ref]) == {ref.bid} by {
      assert ref in [ref];
    }
  }

  lemma BidsNext(blobs: seq<Slice>, k: nat)
    requires k < |blobs|
    ensures Bids(blobs[..k + 1]) == Bids(blobs[..k]) + BidsOf(SliceRefs(blobs[k], blobs[k].count))
    ensures BidsOf(SliceRefs(blobs[k], blobs[k].count)) <= Bids(blobs)
  {
    hide Refs, SliceRefs, BidsOf;
    RefsNext(blobs, k);
    BidsAppend(Refs(blobs[..k]), SliceRefs(blobs[k], blobs[k].count));
    RefsSplit(blobs, k);
    BidsAppend(Refs(blobs[..k]), SliceRefs(blobs[k], blobs[k].count));
    BidsAppend(Refs(blobs[..k]) + SliceRefs(blobs[k], blobs[k].count), Refs(blobs[k + 1..]));
  }

  predicate SameConstants(a: Location, b: Location) {
    a.clusterId == b.clusterId && a.codeMode == b.codeMode && a.blobSize == b.blobSize
  }

  /** Adds the bids of a list of slices to a set. */
  method CollectBids(blobs: seq<Slice>, into: set<nat>) returns (bids: set<nat>)
    ensures bids == into + Bids(blobs)
  {
    bids := into;
    assert Bids([]) == {};
    for k := 0 to |blobs|
      invariant bids == into + Bids(blobs[..k])
    {
      ghost var before := bids;
      BidsOfSlice(blobs[k], 0);
      for c := 0 to blobs[k].count
        invariant bids == before + BidsOf(SliceRefs(blobs[k], c))
      {
        BidsOfSlice(blobs[k], c);
        bids := bids + {Wrap64(blobs[k].minBid + c)};
      }
      BidsNext(blobs, k);
    }
    assert blobs[..|blobs|] == blobs;
  }

  /** Whether all bids of a list of slices are in a set. */
  method ContainsBids(blobs: seq<Slice>, bids: set<nat>) returns (ok: bool)
    ensures ok <==> Bids(blobs) <= bids
  {
    assert Bids([]) == {};
    for k := 0 to |blobs|
      invariant Bids(blobs[..k]) <= bids
    {
      BidsNext(blobs, k);
      BidsOfSlice(blobs[k], 0);
      for c := 0 to blobs[k].count
        invariant BidsOf(SliceRefs(blobs[k], c)) <= bids
      {
        BidsOfSlice(blobs[k], c);
        if Wrap64(blobs[k].minBid + c) !in bids {
          assert SliceRefs(blobs[k], blobs[k].count)[c] in SliceRefs(blobs[k], blobs[k].count);
          return false;
        }
      }
    }
    assert blobs[..|blobs|] == blobs;
    return true;
  }

  ghost function AllBids(locs: seq<Location>): set<nat> {
    set l, bid | l in locs && bid in Bids(l.blobs) :: bid
  }

  /** When a location made of parts of others may be signed. */
  ghost predicate MaySign(loc: Location, locs: seq<Location>, sum: Bytes -> nat)
    requires locs != [] && forall l | l in locs :: l.Fits()
  {
    && SameConstants(loc, locs[0])
    && (forall l | l in locs :: Signed(l, sum) && SameConstants(l, locs[0]))
    && Bids(loc.blobs) <= AllBids(locs)
  }

  /** The first k of the given locations are gone through without an error. */
  ghost predicate FineUpTo(locs: seq<Location>, k: nat, sum: Bytes -> nat)
    requires k <= |locs| && locs != [] && forall l | l in locs :: l.Fits()
  {
    forall j | 0 <= j < k :: !TooLong(locs[j]) && Signed(locs[j], sum) && SameConstants(locs[j], locs[0])
  }

  /** Signing panics at the first of the given locations that is too long, or at last at the one to
      be signed, if there was no error before. */
  ghost predicate SignPanics(loc: Location, locs: seq<Location>, sum: Bytes -> nat)
    requires loc.Fits() && locs != [] && forall l | l in locs :: l.Fits()
  {
    && SameConstants(loc, locs[0])
    && ((exists k: nat :: k < |locs| && FineUpTo(locs, k, sum) && TooLong(locs[k]))
        || (MaySign(loc, locs, sum) && TooLong(loc)))
  }

  /** Signs a location whose blobs all come from signed ones. */
  method SignCrc(loc: Location, locs: seq<Location>, sum: Bytes -> nat) returns (r: Ending<Result<Location>>)
    requires loc.Fits() && IsSum(sum) && locs != [] && forall l | l in locs :: l.Fits()
    ensures r.Panic? <==> SignPanics(loc, locs, sum)
    ensures r.Done? ==> (r.value.Ok? <==> MaySign(loc, locs, sum))
    ensures r.Done? && r.value.Ok? ==>
      r.value.value == loc.(crc := r.value.value.crc) && r.value.value.Fits() && Signed(r.value.value, sum)
  {
    hide TooLong, Signed, Bids;
    var first := locs[0];
    if !SameConstants(loc, first) {
      return Done(Err("not equal in constant field"));
    }
    var bids: set<nat> := {};
    for k := 0 to |locs|
      invariant bids == AllBids(locs[..k]) && FineUpTo(locs, k, sum)
    {
      var ok := VerifyCrc(locs[k], sum);
      if ok.Panic? {
        return Panic;
      }
      if !ok.value {
        WrongAt(loc, locs, k, sum);
        return Done(Err("not equal in crc"));
      }
      if !SameConstants(locs[k], first) {
        WrongAt(loc, locs, k, sum);
        return Done(Err("not equal in constant field"));
      }
      bids := CollectBids(locs[k].blobs, bids);
      assert locs[..k + 1] == locs[..k] + [locs[k]];
      assert AllBids(locs[..k + 1]) == AllBids(locs[..k]) + Bids(locs[k].blobs);
    }
    assert locs[..|locs|] == locs;
    var ok := ContainsBids(loc.blobs, bids);
    if !ok {
      return Done(Err("not equal in blob_id"));
    }
    var filled := FillCrc(loc, sum);
    if filled.Panic? {
      return Panic;
    }
    return Done(Ok(filled.value));
  }

  /** An error at the k-th location comes before any panic. */
  lemma WrongAt(loc: Location, locs: seq<Location>, k: nat, sum: Bytes -> nat)
    requires loc.Fits() && locs != [] && k < |locs| && forall l | l in locs :: l.Fits()
    requires FineUpTo(locs, k, sum) && !TooLong(locs[k])
    requires !Signed(locs[k], sum) || !SameConstants(locs[k], locs[0])
    ensures !SignPanics(loc, locs, sum) && !MaySign(loc, locs, sum)
  {
    hide TooLong, Signed, Bids;
    assert locs[k] in locs;
    forall j: nat | j < |locs| && FineUpTo(locs, j, sum)
      ensures !TooLong(locs[j])
    {
    }
  }
}
