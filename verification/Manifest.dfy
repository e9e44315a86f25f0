/** Bitmaps and ascending index lists. */
module Bitmaps {
  import opened Bytes

  /** All bits of a byte string. */
  ghost function AllBits(bytes: seq<Byte>): (bits: seq<bool>)
    ensures |bits| == 8 * |bytes|
  {
    seq(8 * |bytes|, i requires 0 <= i < 8 * |bytes| => Bits(bytes[i / 8])[i % 8])
  }

  lemma BitmapsWithSameBits(a: seq<Byte>, b: seq<Byte>)
    requires AllBits(a) == AllBits(b)
    ensures a == b
  {
    assert |a| == |b|;
    forall k | 0 <= k < |a| ensures a[k] == b[k] {
      forall j | 0 <= j < 8 ensures Bits(a[k])[j] == Bits(b[k])[j] {
        assert (8 * k + j) / 8 == k && (8 * k + j) % 8 == j;
        assert AllBits(a)[8 * k + j] == AllBits(b)[8 * k + j];
      }
      assert Bits(a[k]) == Bits(b[k]);
      assert a[k] == Number(Bits(a[k]));
    }
  }

  /** The indices of the set bits, ascending. */
  function Members(bits: seq<bool>): (members: seq<nat>)
    ensures forall k | 0 <= k < |members| :: members[k] < |bits|
  {
    if bits == [] then []
    else
      var n := |bits| - 1;
      if bits[n] then Members(bits[..n]) + [n] else Members(bits[..n])
  }

  predicate Ascending(list: seq<nat>) {
    forall i, j | 0 <= i < j < |list| :: list[i] < list[j]
  }

  predicate Below(list: seq<nat>, limit: nat) {
    forall i | 0 <= i < |list| :: list[i] < limit
  }

  lemma {:induction false} MembersAreTheSetBits(bits: seq<bool>)
    ensures Ascending(Members(bits))
    ensures forall i | 0 <= i < |bits| :: bits[i] <==> i in Members(bits)
  {
    if bits != [] { MembersAreTheSetBits(bits[..|bits| - 1]); }
  }

  /** An ascending list is determined by its elements. */
  lemma {:induction false} AscendingIsUnique(a: seq<nat>, b: seq<nat>)
    requires Ascending(a) && Ascending(b) && forall x :: x in a <==> x in b
    ensures a == b
    decreases |a|
  {
    if a == [] {
      assert forall k | 0 <= k < |b| :: b[k] in b;
    } else {
      assert a[0] in b && b[0] in a;
      assert a[0] == b[0];
      TailIsTheRest(a);
      TailIsTheRest(b);
      AscendingIsUnique(a[1..], b[1..]);
    }
  }

  lemma TailIsTheRest(a: seq<nat>)
    requires Ascending(a) && a != []
    ensures forall x :: x in a[1..] <==> x in a && x != a[0]
  {
    assert a == [a[0]] + a[1..];
  }

  /** The bits of an index list, `n` of them. */
  function Flags(list: seq<nat>, n: nat): (bits: seq<bool>)
    ensures |bits| == n
  {
    seq(n, i => i in list)
  }

  lemma MembersOfFlags(list: seq<nat>, n: nat)
    requires Ascending(list) && Below(list, n)
    ensures Members(Flags(list, n)) == list
  {
    var bits := Flags(list, n);
    MembersAreTheSetBits(bits);
    forall x ensures x in Members(bits) <==> x in list {
      if x in list { assert bits[x]; }
    }
    AscendingIsUnique(Members(bits), list);
  }

  lemma FlagsOfMembers(bits: seq<bool>)
    ensures Flags(Members(bits), |bits|) == bits
  {
    MembersAreTheSetBits(bits);
  }

  /** Eight bits to the byte. */
  ghost function Packed(bits: seq<bool>): (bytes: seq<Byte>)
    requires |bits| % 8 == 0
    ensures AllBits(bytes) == bits
  {
    var bytes := seq(|bits| / 8, k requires 0 <= k < |bits| / 8 => ByteOf(bits[8 * k..8 * k + 8]));
    PackedBits(bits, bytes);
    bytes
  }

  lemma PackedBits(bits: seq<bool>, bytes: seq<Byte>)
    requires |bits| == 8 * |bytes| && forall k | 0 <= k < |bytes| :: bytes[k] == ByteOf(bits[8 * k..8 * k + 8])
    ensures AllBits(bytes) == bits
  {
    forall i | 0 <= i < |bits| ensures AllBits(bytes)[i] == bits[i] {
      var k := i / 8;
      assert bits[8 * k..8 * k + 8][i % 8] == bits[i];
    }
  }
}

/** The integrity manifest: its wire form, and a parser that hands back what it
    did not consume. */
module ManifestFormat {
  import opened Results
  import opened Bytes
  import opened Bitmaps

  datatype ArtifactKind = Ram | Overlay | SnapshotMetadata

  const HASH_LEN := 32

  /** SHA-256 digests, opaque here. */
  type Hash = h: seq<Byte> | |h| == HASH_LEN witness seq(HASH_LEN, _ => 0)

  datatype ArtifactIntegrity = ArtifactIntegrity(kind: ArtifactKind, len: U64, chunkHashes: seq<Hash>)

  datatype IntegrityManifest = IntegrityManifest(chunkSize: U32, artifacts: seq<ArtifactIntegrity>, workingSet: seq<U32>)

  /** The message of the original error is dropped. */
  datatype IntegrityManifestError = IntegrityManifestError

  type Parsed<T> = Result<(T, seq<Byte>), IntegrityManifestError>

  const MAGIC: seq<Byte> := [0x54, 0x49, 0x4d, 0x46]
  const VERSION_1: U16 := 1
  const VERSION_2: U16 := 2
  const HEADER_LEN := 12
  const ARTIFACT_HEADER_LEN := 24
  const RESERVED: seq<Byte> := [0, 0, 0, 0, 0, 0, 0]

  // Checks shared by both directions

  predicate IsPowerOfTwo(n: nat) {
    n == 1 || (n > 0 && n % 2 == 0 && IsPowerOfTwo(n / 2))
  }

  predicate ValidChunkSize(chunkSize: nat) {
    4096 <= chunkSize <= 4 * 1024 * 1024 && IsPowerOfTwo(chunkSize)
  }

  lemma {:induction false} DoubledIsPower(k: nat)
    ensures Doubled(k) > 0 && IsPowerOfTwo(Doubled(k))
  {
    if k > 0 {
      DoubledIsPower(k - 1);
      HalfOfDouble(Doubled(k - 1));
    }
  }

  lemma HalfOfDouble(n: nat)
    requires n > 0 && IsPowerOfTwo(n)
    ensures IsPowerOfTwo(2 * n)
  {
    assert 2 * n / 2 == n && 2 * n % 2 == 0;
  }

  lemma {:induction false} PowerIsDoubled(n: nat) returns (k: nat)
    requires IsPowerOfTwo(n)
    ensures n == Doubled(k)
  {
    if n == 1 {
      k := 0;
    } else {
      k := PowerIsDoubled(n / 2);
      k := k + 1;
    }
  }

  lemma {:induction false} DoubledRises(j: nat, k: nat)
    requires j < k
    ensures Doubled(j) < Doubled(k)
    decreases k
  {
    DoubledIsPower(k - 1);
    if j < k - 1 { DoubledRises(j, k - 1); }
  }

  /** The chunk sizes are the powers of two from 4 KiB to 4 MiB. */
  lemma ChunkSizesArePowers(chunkSize: nat)
    ensures ValidChunkSize(chunkSize) <==> exists k | 12 <= k <= 22 :: chunkSize == Doubled(k)
  {
    assert Doubled(8) == 256 && Doubled(12) == 16 * Doubled(8) && Doubled(17) == 32 * Doubled(12) && Doubled(22) == 32 * Doubled(17);
    if ValidChunkSize(chunkSize) {
      var k := PowerIsDoubled(chunkSize);
      if k < 12 { DoubledRises(k, 12); }
      if k > 22 { DoubledRises(22, k); }
    }
    if k :| 12 <= k <= 22 && chunkSize == Doubled(k) {
      DoubledIsPower(k);
      if k > 12 { DoubledRises(12, k); }
      if k < 22 { DoubledRises(k, 22); }
    }
  }

  /** How many chunks it takes to hold `len` bytes. */
  function Chunks(len: nat, chunkSize: nat): (n: nat)
    requires chunkSize > 0
    ensures n <= len
  {
    if len == 0 then 0 else if len <= chunkSize then 1 else 1 + Chunks(len - chunkSize, chunkSize)
  }

  /** The chunk count of an artifact, unless rounding up overflows u64. */
  function ChunkCount(len: U64, chunkSize: nat): (r: Result<U64, IntegrityManifestError>)
    requires chunkSize > 0
  {
    if len > 0 && len + (chunkSize - 1) > 0xffff_ffff_ffff_ffff then Failure(IntegrityManifestError)
    else Success(Chunks(len, chunkSize))
  }

  lemma DivisionIsUnique(n: nat, d: nat, q: nat, r: nat)
    requires r < d && n == q * d + r
    ensures n / d == q
  {
    var q', r' := n / d, n % d;
    assert n == q' * d + r';
    assert (q - q') * d == r' - r;
    if q > q' { assert (q - q') * d >= d by { TimesGrows(q - q', d); } }
    if q < q' { assert (q' - q) * d >= d by { TimesGrows(q' - q, d); } }
  }

  lemma {:induction false} TimesGrows(k: nat, d: nat)
    requires k > 0
    ensures k * d >= d
    decreases k
  {
    if k > 1 {
      TimesGrows(k - 1, d);
      assert k * d == (k - 1) * d + d;
    }
  }

  /** Rounding a division up counts the chunks. */
  lemma {:induction false} ChunksByDivision(len: nat, chunkSize: nat)
    requires chunkSize > 0
    ensures Chunks(len, chunkSize) == (len + (chunkSize - 1)) / chunkSize
    decreases len
  {
    if len == 0 {
      DivisionIsUnique(chunkSize - 1, chunkSize, 0, chunkSize - 1);
    } else if len <= chunkSize {
      DivisionIsUnique(len + (chunkSize - 1), chunkSize, 1, len - 1);
    } else {
      ChunksByDivision(len - chunkSize, chunkSize);
      var n := len - chunkSize + (chunkSize - 1);
      assert n == (n / chunkSize) * chunkSize + n % chunkSize;
      assert (n / chunkSize + 1) * chunkSize == (n / chunkSize) * chunkSize + chunkSize;
      DivisionIsUnique(n + chunkSize, chunkSize, n / chunkSize + 1, n % chunkSize);
    }
  }

  lemma {:induction false} ChunksHold(len: nat, chunkSize: nat)
    requires chunkSize > 0
    ensures var n := Chunks(len, chunkSize); n * chunkSize >= len && (n > 0 ==> (n - 1) * chunkSize < len)
    decreases len
  {
    if len > chunkSize {
      ChunksHold(len - chunkSize, chunkSize);
      var n := Chunks(len - chunkSize, chunkSize);
      assert (n + 1) * chunkSize == n * chunkSize + chunkSize;
      assert n * chunkSize == (n - 1) * chunkSize + chunkSize;
    }
  }

  /** The count is the least number of chunks that hold `len` bytes. */
  lemma ChunksCover(len: U64, chunkSize: nat)
    requires chunkSize > 0
    ensures var r := ChunkCount(len, chunkSize);
      if len > 0 && len + (chunkSize - 1) > 0xffff_ffff_ffff_ffff then r.Failure?
      else r.Success? && r.value * chunkSize >= len && (r.value > 0 ==> (r.value - 1) * chunkSize < len)
  {
    ChunksHold(len, chunkSize);
  }

  /** The first artifact of a kind. */
  function FindArtifact(artifacts: seq<ArtifactIntegrity>, kind: ArtifactKind): (r: Option<ArtifactIntegrity>)
    ensures r.Some? ==> r.value in artifacts && r.value.kind == kind
    ensures r.None? ==> forall a | a in artifacts :: a.kind != kind
  {
    if artifacts == [] then None else if artifacts[0].kind == kind then Some(artifacts[0]) else FindArtifact(artifacts[1..], kind)
  }

  function RamChunks(artifacts: seq<ArtifactIntegrity>): nat {
    match FindArtifact(artifacts, Ram) case None => 0 case Some(ram) => |ram.chunkHashes|
  }

  function CountOf(artifacts: seq<ArtifactIntegrity>, kind: ArtifactKind): nat {
    if artifacts == [] then 0 else (if artifacts[0].kind == kind then 1 else 0) + CountOf(artifacts[1..], kind)
  }

  /** One RAM, one metadata, at most one overlay artifact. */
  predicate OneOfEach(artifacts: seq<ArtifactIntegrity>) {
    CountOf(artifacts, Ram) == 1 && CountOf(artifacts, SnapshotMetadata) == 1 && CountOf(artifacts, Overlay) <= 1
  }

  /** At most one, or exactly one, position has the kind. */
  ghost predicate AtMostOne(artifacts: seq<ArtifactIntegrity>, kind: ArtifactKind) {
    forall i, j | 0 <= i < |artifacts| && 0 <= j < |artifacts| && artifacts[i].kind == kind && artifacts[j].kind == kind :: i == j
  }

  ghost predicate Has(artifacts: seq<ArtifactIntegrity>, kind: ArtifactKind) {
    exists i | 0 <= i < |artifacts| :: artifacts[i].kind == kind
  }

  lemma {:induction false} CountMeans(artifacts: seq<ArtifactIntegrity>, kind: ArtifactKind)
    ensures CountOf(artifacts, kind) == 0 <==> !Has(artifacts, kind)
    ensures CountOf(artifacts, kind) <= 1 <==> AtMostOne(artifacts, kind)
  {
    if artifacts != [] {
      var rest := artifacts[1..];
      CountMeans(rest, kind);
      assert forall i | 0 <= i < |rest| :: rest[i] == artifacts[i + 1];
      assert forall i | 1 <= i < |artifacts| :: artifacts[i] == rest[i - 1];
      assert Has(artifacts, kind) <==> artifacts[0].kind == kind || Has(rest, kind) by {
        if i :| 0 <= i < |rest| && rest[i].kind == kind { assert artifacts[i + 1].kind == kind; }
      }
      OneMoreOfKind(artifacts, kind);
    }
  }

  lemma OneMoreOfKind(artifacts: seq<ArtifactIntegrity>, kind: ArtifactKind)
    requires artifacts != []
    ensures var rest := artifacts[1..];
      AtMostOne(artifacts, kind) <==> AtMostOne(rest, kind) && !(artifacts[0].kind == kind && Has(rest, kind))
  {
    var rest := artifacts[1..];
    assert forall i | 0 <= i < |rest| :: rest[i] == artifacts[i + 1];
    if AtMostOne(artifacts, kind) {
      forall i, j | 0 <= i < |rest| && 0 <= j < |rest| && rest[i].kind == kind && rest[j].kind == kind ensures i == j {
        assert artifacts[i + 1].kind == kind && artifacts[j + 1].kind == kind;
      }
      if i :| 0 <= i < |rest| && rest[i].kind == kind { assert artifacts[i + 1].kind == kind; }
    } else {
      assert forall i | 1 <= i < |artifacts| :: artifacts[i] == rest[i - 1];
    }
  }

  /** What a manifest that can be read consists of. */
  lemma OneOfEachMeans(artifacts: seq<ArtifactIntegrity>)
    ensures OneOfEach(artifacts) <==>
      && Has(artifacts, Ram) && AtMostOne(artifacts, Ram) && Has(artifacts, SnapshotMetadata) && AtMostOne(artifacts, SnapshotMetadata)
      && AtMostOne(artifacts, Overlay)
  {
    CountMeans(artifacts, Ram);
    CountMeans(artifacts, SnapshotMetadata);
    CountMeans(artifacts, Overlay);
  }

  predicate WellHashed(a: ArtifactIntegrity, chunkSize: nat)
    requires chunkSize > 0
  {
    ChunkCount(a.len, chunkSize) == Success(|a.chunkHashes|)
  }

  predicate WorkingSetFits(list: seq<U32>, chunks: nat) {
    Ascending(list) && Below(list, chunks)
  }

  /** The manifests that can be written. */
  predicate Encodable(m: IntegrityManifest) {
    && ValidChunkSize(m.chunkSize)
    && 1 <= |m.artifacts| <= 0xffff
    && WorkingSetFits(m.workingSet, RamChunks(m.artifacts))
    && forall a | a in m.artifacts :: WellHashed(a, m.chunkSize)
  }

  /** The manifests that can be written: a chunk size that is a power of two from
      4 KiB to 4 MiB, one to 65535 artifacts, each with a hash for every chunk, and
      a working set of rising chunk numbers of the first RAM image. */
  lemma EncodableMeans(m: IntegrityManifest)
    ensures Encodable(m) <==>
      && (exists k | 12 <= k <= 22 :: m.chunkSize == Doubled(k)) && m.chunkSize > 0 && 1 <= |m.artifacts| <= 65535
      && (forall a | a in m.artifacts ::
            (a.len > 0 ==> a.len + (m.chunkSize - 1) <= 0xffff_ffff_ffff_ffff) && |a.chunkHashes| == Chunks(a.len, m.chunkSize))
      && (forall i, j | 0 <= i < j < |m.workingSet| :: m.workingSet[i] < m.workingSet[j])
      && (forall i | 0 <= i < |m.workingSet| :: m.workingSet[i] < RamChunks(m.artifacts))
  {
    ChunkSizesArePowers(m.chunkSize);
  }

  // The wire form

  function KindByte(kind: ArtifactKind): Byte {
    match kind case Ram => 1 case Overlay => 2 case SnapshotMetadata => 3
  }

  ghost function Flat(hashes: seq<Hash>): (bytes: seq<Byte>)
    ensures |bytes| == HASH_LEN * |hashes|
  {
    if hashes == [] then [] else hashes[0] + Flat(hashes[1..])
  }

  ghost function ArtifactHeader(a: ArtifactIntegrity): (bytes: seq<Byte>)
    ensures |bytes| == ARTIFACT_HEADER_LEN
  {
    [KindByte(a.kind)] + RESERVED + LittleEndian(a.len, 8) + LittleEndian(|a.chunkHashes|, 8)
  }

  ghost function ArtifactBytes(a: ArtifactIntegrity): seq<Byte> {
    ArtifactHeader(a) + Flat(a.chunkHashes)
  }

  ghost function Body(artifacts: seq<ArtifactIntegrity>): seq<Byte> {
    if artifacts == [] then [] else ArtifactBytes(artifacts[0]) + Body(artifacts[1..])
  }

  ghost function Header(version: U16, count: nat, chunkSize: U32): (bytes: seq<Byte>)
    ensures |bytes| == HEADER_LEN
  {
    MAGIC + LittleEndian(version, 2) + LittleEndian(count, 2) + LittleEndian(chunkSize, 4)
  }

  function BitmapLen(chunks: nat): nat {
    (chunks + 7) / 8
  }

  /** One bit per RAM chunk, set for the chunks in the list. */
  ghost function Bitmap(list: seq<U32>, chunks: nat): (bytes: seq<Byte>)
    ensures |bytes| == BitmapLen(chunks)
  {
    Packed(Flags(list, 8 * BitmapLen(chunks)))
  }

  /** The version 2 trailer; a manifest without working set has none. */
  ghost function Trailer(list: seq<U32>, chunks: nat): seq<Byte> {
    if list == [] then [] else LittleEndian(chunks, 8) + Bitmap(list, chunks)
  }

  ghost function Wire(m: IntegrityManifest): seq<Byte> {
    Header(if m.workingSet == [] then VERSION_1 else VERSION_2, |m.artifacts|, m.chunkSize)
      + Body(m.artifacts) + Trailer(m.workingSet, RamChunks(m.artifacts))
  }

  // The parser

  function KindOf(b: Byte): Result<ArtifactKind, IntegrityManifestError> {
    match b
    case 1 => Success(Ram)
    case 2 => Success(Overlay)
    case 3 => Success(SnapshotMetadata)
    case _ => Failure(IntegrityManifestError)
  }

  function Split(bytes: seq<Byte>, n: nat): (hashes: seq<Hash>)
    requires |bytes| == HASH_LEN * n
    ensures |hashes| == n
  {
    if n == 0 then [] else [bytes[..HASH_LEN]] + Split(bytes[HASH_LEN..], n - 1)
  }

  ghost function ParseArtifact(b: seq<Byte>, chunkSize: nat): Parsed<ArtifactIntegrity>
    requires chunkSize > 0
  {
    if |b| < ARTIFACT_HEADER_LEN then Failure(IntegrityManifestError)
    else
      var kind :- KindOf(b[0]);
      if b[1..8] != RESERVED then Failure(IntegrityManifestError)
      else
        var len := ReadU64(b[8..16]);
        var count :- ChunkCount(len, chunkSize);
        var end := ARTIFACT_HEADER_LEN + HASH_LEN * count;
        if ReadU64(b[16..24]) != count || |b| < end then Failure(IntegrityManifestError)
        else Success((ArtifactIntegrity(kind, len, Split(b[ARTIFACT_HEADER_LEN..end], count)), b[end..]))
  }

  ghost function ParseArtifacts(b: seq<Byte>, chunkSize: nat, n: nat): Parsed<seq<ArtifactIntegrity>>
    requires chunkSize > 0
  {
    if n == 0 then Success(([], b))
    else
      var first :- ParseArtifact(b, chunkSize);
      var rest :- ParseArtifacts(first.1, chunkSize, n - 1);
      Success(([first.0] + rest.0, rest.1))
  }

  /** Chunk indices below the chunk count that a u32 can hold. */
  predicate IndicesFit(list: seq<nat>, chunks: nat) {
    Below(list, chunks) && Below(list, 0x1_0000_0000)
  }

  ghost function ParseTrailer(b: seq<Byte>, chunks: nat): Parsed<seq<U32>> {
    var end := 8 + BitmapLen(chunks);
    if |b| < 8 || ReadU64(b[..8]) != chunks || chunks == 0 || |b| < end then Failure(IntegrityManifestError)
    else
      var members := Members(AllBits(b[8..end]));
      if members == [] || !IndicesFit(members, chunks) then Failure(IntegrityManifestError)
      else
        var list: seq<U32> := members;
        Success((list, b[end..]))
  }

  ghost function ParseWorkingSet(b: seq<Byte>, version: U16, chunks: nat): Parsed<seq<U32>> {
    if version == VERSION_2 then ParseTrailer(b, chunks) else Success(([], b))
  }

  /** Everything after the twelve header bytes. */
  ghost function ParseRest(b: seq<Byte>, version: U16, count: nat, chunkSize: U32): Result<IntegrityManifest, IntegrityManifestError>
    requires chunkSize > 0
  {
    var body :- ParseArtifacts(b, chunkSize, count);
    var trailer :- ParseWorkingSet(body.1, version, RamChunks(body.0));
    if trailer.1 != [] || !OneOfEach(body.0) then Failure(IntegrityManifestError)
    else Success(IntegrityManifest(chunkSize, body.0, trailer.0))
  }

  ghost function Parse(b: seq<Byte>): Result<IntegrityManifest, IntegrityManifestError> {
    if |b| < HEADER_LEN || b[..4] != MAGIC then Failure(IntegrityManifestError)
    else
      var version, count, chunkSize := ReadU16(b[4..6]), ReadU16(b[6..8]), ReadU32(b[8..12]);
      if (version != VERSION_1 && version != VERSION_2) || count == 0 || !ValidChunkSize(chunkSize)
      then Failure(IntegrityManifestError)
      else ParseRest(b[HEADER_LEN..], version, count, chunkSize)
  }
}

/** The two directions are inverse to each other. */
module ManifestRoundTrip {
  import opened Results
  import opened Bytes
  import opened Bitmaps
  import opened ManifestFormat

  // Hashes and artifacts

  lemma {:induction false} SplitOfFlat(hashes: seq<Hash>)
    ensures Split(Flat(hashes), |hashes|) == hashes
  {
    if hashes != [] {
      SplitOfFlat(hashes[1..]);
      assert Flat(hashes)[..HASH_LEN] == hashes[0] && Flat(hashes)[HASH_LEN..] == Flat(hashes[1..]);
    }
  }

  lemma {:induction false} FlatOfSplit(bytes: seq<Byte>, n: nat)
    requires |bytes| == HASH_LEN * n
    ensures Flat(Split(bytes, n)) == bytes
  {
    if n > 0 {
      FlatOfSplit(bytes[HASH_LEN..], n - 1);
      assert Split(bytes, n)[1..] == Split(bytes[HASH_LEN..], n - 1);
    }
  }

  lemma HeaderFields(a: ArtifactIntegrity)
    ensures var h := ArtifactHeader(a);
      && h[0] == KindByte(a.kind) && h[1..8] == RESERVED
      && h[8..16] == LittleEndian(a.len, 8) && h[16..24] == LittleEndian(|a.chunkHashes|, 8)
  {
  }

  lemma ParseWrittenArtifact(a: ArtifactIntegrity, chunkSize: nat, rest: seq<Byte>)
    requires chunkSize > 0 && WellHashed(a, chunkSize)
    ensures ParseArtifact(ArtifactBytes(a) + rest, chunkSize) == Success((a, rest))
  {
    var b, h := ArtifactBytes(a) + rest, ArtifactHeader(a);
    var end := ARTIFACT_HEADER_LEN + HASH_LEN * |a.chunkHashes|;
    HeaderFields(a);
    assert b[0] == h[0] && b[1..8] == h[1..8] && b[8..16] == h[8..16] && b[16..24] == h[16..24];
    assert b[ARTIFACT_HEADER_LEN..end] == Flat(a.chunkHashes) && b[end..] == rest;
    NumbersRoundTrip(0, 0, a.len);
    NumbersRoundTrip(0, 0, |a.chunkHashes|);
    SplitOfFlat(a.chunkHashes);
  }

  lemma HeaderFromFields(h: seq<Byte>, a: ArtifactIntegrity)
    requires |h| == ARTIFACT_HEADER_LEN && h[0] == KindByte(a.kind) && h[1..8] == RESERVED
    requires h[8..16] == LittleEndian(a.len, 8) && h[16..24] == LittleEndian(|a.chunkHashes|, 8)
    ensures ArtifactHeader(a) == h
  {
    assert h == [h[0]] + h[1..8] + h[8..16] + h[16..24];
  }

  lemma WrittenParsedArtifact(b: seq<Byte>, chunkSize: nat)
    requires chunkSize > 0
    ensures var r := ParseArtifact(b, chunkSize);
      r.Success? ==> WellHashed(r.value.0, chunkSize) && ArtifactBytes(r.value.0) + r.value.1 == b
  {
    if ParseArtifact(b, chunkSize).Success? {
      var (a, rest) := ParseArtifact(b, chunkSize).value;
      var h, end := b[..ARTIFACT_HEADER_LEN], ARTIFACT_HEADER_LEN + HASH_LEN * |a.chunkHashes|;
      BytesRoundTrip(b[8..16]);
      BytesRoundTrip(b[16..24]);
      assert h[1..8] == b[1..8] && h[8..16] == b[8..16] && h[16..24] == b[16..24];
      HeaderFromFields(h, a);
      FlatOfSplit(b[ARTIFACT_HEADER_LEN..end], |a.chunkHashes|);
      InThree(b, ARTIFACT_HEADER_LEN, end);
    }
  }

  lemma FirstOfBody(artifacts: seq<ArtifactIntegrity>, rest: seq<Byte>)
    requires artifacts != []
    ensures Body(artifacts) + rest == ArtifactBytes(artifacts[0]) + (Body(artifacts[1..]) + rest)
  {
    Associative(ArtifactBytes(artifacts[0]), Body(artifacts[1..]), rest);
  }

  /** Read one artifact and `more`, and go on with the rest. */
  lemma ParseGoesOn(b: seq<Byte>, chunkSize: nat, artifacts: seq<ArtifactIntegrity>, more: seq<Byte>, rest: seq<Byte>)
    requires chunkSize > 0 && artifacts != []
    ensures ParseArtifact(b, chunkSize) == Success((artifacts[0], more))
         && ParseArtifacts(more, chunkSize, |artifacts| - 1) == Success((artifacts[1..], rest))
        ==> ParseArtifacts(b, chunkSize, |artifacts|) == Success((artifacts, rest))
  {
    ParseStep(b, chunkSize, |artifacts|);
    assert [artifacts[0]] + artifacts[1..] == artifacts;
  }

  lemma {:induction false} ParseWrittenBody(artifacts: seq<ArtifactIntegrity>, chunkSize: nat, rest: seq<Byte>)
    requires chunkSize > 0 && forall a | a in artifacts :: WellHashed(a, chunkSize)
    ensures ParseArtifacts(Body(artifacts) + rest, chunkSize, |artifacts|) == Success((artifacts, rest))
  {
    if artifacts == [] {
      assert Body(artifacts) + rest == rest;
    } else {
      var more := Body(artifacts[1..]) + rest;
      FirstOfBody(artifacts, rest);
      ParseWrittenArtifact(artifacts[0], chunkSize, more);
      ParseWrittenBody(artifacts[1..], chunkSize, rest);
      ParseGoesOn(Body(artifacts) + rest, chunkSize, artifacts, more, rest);
    }
  }

  function Prepend(artifacts: seq<ArtifactIntegrity>, more: Parsed<seq<ArtifactIntegrity>>): Parsed<seq<ArtifactIntegrity>> {
    if more.Failure? then more else Success((artifacts + more.value.0, more.value.1))
  }

  lemma ParseStep(b: seq<Byte>, chunkSize: nat, n: nat)
    requires chunkSize > 0 && n > 0
    ensures var first := ParseArtifact(b, chunkSize);
      ParseArtifacts(b, chunkSize, n)
      == if first.Failure? then Failure(first.error) else Prepend([first.value.0], ParseArtifacts(first.value.1, chunkSize, n - 1))
  {
  }

  lemma {:induction false} WrittenParsedBody(b: seq<Byte>, chunkSize: nat, n: nat)
    requires chunkSize > 0
    ensures var r := ParseArtifacts(b, chunkSize, n); r.Success? ==> IsBody(r.value.0, r.value.1, chunkSize, n, b)
  {
    if n > 0 {
      ParseStep(b, chunkSize, n);
      var first := ParseArtifact(b, chunkSize);
      if first.Success? {
        var others := ParseArtifacts(first.value.1, chunkSize, n - 1);
        WrittenParsedArtifact(b, chunkSize);
        WrittenParsedBody(first.value.1, chunkSize, n - 1);
        if others.Success? { BodyOneMore(first.value.0, others.value.0, others.value.1, first.value.1, chunkSize, n - 1, b); }
      }
    }
  }

  /** These `n` artifacts, then `rest`, are what `b` holds. */
  ghost predicate IsBody(artifacts: seq<ArtifactIntegrity>, rest: seq<Byte>, chunkSize: nat, n: nat, b: seq<Byte>)
    requires chunkSize > 0
  {
    |artifacts| == n && (forall a | a in artifacts :: WellHashed(a, chunkSize)) && Body(artifacts) + rest == b
  }

  lemma BodyOneMore(first: ArtifactIntegrity, others: seq<ArtifactIntegrity>, rest: seq<Byte>, more: seq<Byte>, chunkSize: nat, n: nat, b: seq<Byte>)
    requires chunkSize > 0 && WellHashed(first, chunkSize) && ArtifactBytes(first) + more == b && IsBody(others, rest, chunkSize, n, more)
    ensures IsBody([first] + others, rest, chunkSize, n + 1, b)
  {
    assert ([first] + others)[1..] == others;
    Associative(ArtifactBytes(first), Body(others), rest);
  }

  // The working set

  lemma BitmapMembers(list: seq<U32>, chunks: nat)
    requires WorkingSetFits(list, chunks)
    ensures Members(AllBits(Bitmap(list, chunks))) == list
  {
    MembersOfFlags(list, 8 * BitmapLen(chunks));
  }

  lemma TrailerParts(list: seq<U32>, chunks: nat, rest: seq<Byte>)
    requires list != []
    ensures var b, end := Trailer(list, chunks) + rest, 8 + BitmapLen(chunks);
      |b| >= end && b[..8] == LittleEndian(chunks, 8) && b[8..end] == Bitmap(list, chunks) && b[end..] == rest
  {
    var count, bitmap := LittleEndian(chunks, 8), Bitmap(list, chunks);
    assert Trailer(list, chunks) == count + bitmap;
    assert (count + bitmap + rest)[8..8 + |bitmap|] == bitmap;
  }

  lemma ParseWrittenTrailer(list: seq<U32>, chunks: U64, rest: seq<Byte>)
    requires WorkingSetFits(list, chunks) && list != []
    ensures ParseTrailer(Trailer(list, chunks) + rest, chunks) == Success((list, rest))
  {
    TrailerParts(list, chunks, rest);
    NumbersRoundTrip(0, 0, chunks);
    BitmapMembers(list, chunks);
    ParsedMembers(Trailer(list, chunks) + rest, list, chunks);
  }

  lemma ParsedMembers(b: seq<Byte>, list: seq<U32>, chunks: nat)
    requires var end := 8 + BitmapLen(chunks); |b| >= end && ReadU64(b[..8]) == chunks && Members(AllBits(b[8..end])) == list
    requires Below(list, chunks) && list != []
    ensures ParseTrailer(b, chunks) == Success((list, b[8 + BitmapLen(chunks)..]))
  {
    assert list[0] < chunks;
  }

  lemma BitmapOfMembers(bytes: seq<Byte>, list: seq<U32>, chunks: nat)
    requires |bytes| == BitmapLen(chunks) && list == Members(AllBits(bytes))
    ensures Ascending(list) && Bitmap(list, chunks) == bytes
  {
    MembersAreTheSetBits(AllBits(bytes));
    FlagsOfMembers(AllBits(bytes));
    BitmapsWithSameBits(Bitmap(list, chunks), bytes);
  }

  lemma TrailerFromParts(b: seq<Byte>, list: seq<U32>, chunks: nat)
    requires var end := 8 + BitmapLen(chunks); |b| >= end && ReadU64(b[..8]) == chunks && list == Members(AllBits(b[8..end]))
    requires list != []
    ensures Ascending(list) && Trailer(list, chunks) + b[8 + BitmapLen(chunks)..] == b
  {
    var end := 8 + BitmapLen(chunks);
    assert LittleEndian(chunks, 8) == b[..8] by { BytesRoundTrip(b[..8]); }
    assert Ascending(list) && Bitmap(list, chunks) == b[8..end] by { BitmapOfMembers(b[8..end], list, chunks); }
    InThree(b, 8, end);
  }

  lemma InThree(b: seq<Byte>, i: nat, j: nat)
    requires i <= j <= |b|
    ensures b[..i] + b[i..j] + b[j..] == b
  {
  }

  lemma WrittenParsedTrailer(b: seq<Byte>, chunks: nat)
    ensures var r := ParseTrailer(b, chunks);
      r.Success? ==> r.value.0 != [] && WorkingSetFits(r.value.0, chunks) && Trailer(r.value.0, chunks) + r.value.1 == b
  {
    if ParseTrailer(b, chunks).Success? { TrailerFromParts(b, ParseTrailer(b, chunks).value.0, chunks); }
  }

  // Manifests

  lemma RamChunksAreU64(artifacts: seq<ArtifactIntegrity>, chunkSize: nat)
    requires chunkSize > 0 && forall a | a in artifacts :: WellHashed(a, chunkSize)
    ensures RamChunks(artifacts) <= 0xffff_ffff_ffff_ffff
  {
  }

  lemma ManifestHeaderFields(version: U16, count: U16, chunkSize: U32, rest: seq<Byte>)
    ensures var b := Header(version, count, chunkSize) + rest;
      && b[..4] == MAGIC && ReadU16(b[4..6]) == version && ReadU16(b[6..8]) == count && ReadU32(b[8..12]) == chunkSize
      && b[HEADER_LEN..] == rest
  {
    var b := Header(version, count, chunkSize) + rest;
    NumbersRoundTrip(version, chunkSize, 0);
    NumbersRoundTrip(count, 0, 0);
    assert b[4..6] == LittleEndian(version, 2) && b[6..8] == LittleEndian(count, 2) && b[8..12] == LittleEndian(chunkSize, 4);
  }

  lemma ParseWrittenManifest(m: IntegrityManifest, extra: seq<Byte>)
    requires Encodable(m)
    ensures Parse(Wire(m) + extra) == if extra == [] && OneOfEach(m.artifacts) then Success(m) else Failure(IntegrityManifestError)
  {
    var chunks := RamChunks(m.artifacts);
    var trailer := Trailer(m.workingSet, chunks) + extra;
    var body := Body(m.artifacts) + trailer;
    var version := if m.workingSet == [] then VERSION_1 else VERSION_2;
    assert Wire(m) + extra == Header(version, |m.artifacts|, m.chunkSize) + body;
    ManifestHeaderFields(version, |m.artifacts|, m.chunkSize, body);
    ParseWrittenBody(m.artifacts, m.chunkSize, trailer);
    RamChunksAreU64(m.artifacts, m.chunkSize);
    if m.workingSet == [] {
      assert trailer == extra;
    } else {
      ParseWrittenTrailer(m.workingSet, chunks, extra);
    }
  }

  /** Reading back what was written gives the manifest again, exactly for the
      manifests with one RAM, one metadata and at most one overlay artifact. */
  lemma DecodeOfEncode(m: IntegrityManifest)
    requires Encodable(m)
    ensures Parse(Wire(m)) == Success(m) <==> OneOfEach(m.artifacts)
    ensures !OneOfEach(m.artifacts) ==> Parse(Wire(m)).Failure?
  {
    ParseWrittenManifest(m, []);
    assert Wire(m) + [] == Wire(m);
  }

  lemma HeaderFromBytes(b: seq<Byte>)
    requires |b| >= HEADER_LEN && b[..4] == MAGIC
    ensures Header(ReadU16(b[4..6]), ReadU16(b[6..8]), ReadU32(b[8..12])) == b[..HEADER_LEN]
  {
    BytesRoundTrip(b[4..6]);
    BytesRoundTrip(b[6..8]);
    BytesRoundTrip(b[8..12]);
    assert b[..HEADER_LEN] == b[..4] + b[4..6] + b[6..8] + b[8..12];
  }

  /** What a manifest read after its header must be. */
  ghost predicate IsRest(m: IntegrityManifest, b: seq<Byte>, version: U16, count: U16, chunkSize: U32)
    requires chunkSize > 0
  {
    var chunks := RamChunks(m.artifacts);
    && m.chunkSize == chunkSize && |m.artifacts| == count && OneOfEach(m.artifacts) && WorkingSetFits(m.workingSet, chunks)
    && (forall a | a in m.artifacts :: WellHashed(a, chunkSize))
    && (m.workingSet != [] <==> version == VERSION_2)
    && Body(m.artifacts) + Trailer(m.workingSet, chunks) == b
  }

  lemma WrittenParsedRest(b: seq<Byte>, version: U16, count: U16, chunkSize: U32)
    requires chunkSize > 0
    ensures var r := ParseRest(b, version, count, chunkSize); r.Success? ==> IsRest(r.value, b, version, count, chunkSize)
  {
    if ParseRest(b, version, count, chunkSize).Success? {
      WrittenParsedBody(b, chunkSize, count);
      var (artifacts, more) := ParseArtifacts(b, chunkSize, count).value;
      if version == VERSION_2 {
        WrittenParsedTrailer(more, RamChunks(artifacts));
        var list := ParseTrailer(more, RamChunks(artifacts)).value.0;
        assert Trailer(list, RamChunks(artifacts)) + [] == Trailer(list, RamChunks(artifacts));
      }
    }
  }

  /** A lone empty overlay can be written and cannot be read. */
  lemma SomeManifestsAreWriteOnly()
    ensures var m := IntegrityManifest(4096, [ArtifactIntegrity(Overlay, 0, [])], []);
      Encodable(m) && Parse(Wire(m)).Failure?
  {
    var m := IntegrityManifest(4096, [ArtifactIntegrity(Overlay, 0, [])], []);
    assert IsPowerOfTwo(4096);
    assert m.artifacts[0].kind == Overlay && m.artifacts[1..] == [];
    assert CountOf(m.artifacts, Ram) == 0;
    DecodeOfEncode(m);
  }

  /** Whatever is accepted is the one way to write what it was read as. */
  lemma EncodeOfDecode(b: seq<Byte>)
    ensures var r := Parse(b); r.Success? ==> Encodable(r.value) && OneOfEach(r.value.artifacts) && Wire(r.value) == b
  {
    if Parse(b).Success? {
      var m := Parse(b).value;
      HeaderFromBytes(b);
      WrittenParsedRest(b[HEADER_LEN..], ReadU16(b[4..6]), ReadU16(b[6..8]), m.chunkSize);
      Associative(b[..HEADER_LEN], Body(m.artifacts), Trailer(m.workingSet, RamChunks(m.artifacts)));
      assert b == b[..HEADER_LEN] + b[HEADER_LEN..];
    }
  }

  /** So distinct manifests never share a wire form, */
  lemma WireIsInjective(m: IntegrityManifest, m': IntegrityManifest)
    requires Encodable(m) && OneOfEach(m.artifacts) && Encodable(m') && OneOfEach(m'.artifacts) && Wire(m) == Wire(m')
    ensures m == m'
  {
    DecodeOfEncode(m);
    DecodeOfEncode(m');
  }

  /** and no accepted string is a proper prefix of another. */
  lemma AcceptedIsPrefixFree(b: seq<Byte>, extra: seq<Byte>)
    ensures Parse(b).Success? && extra != [] ==> Parse(b + extra).Failure?
  {
    if Parse(b).Success? && extra != [] {
      EncodeOfDecode(b);
      ParseWrittenManifest(Parse(b).value, extra);
    }
  }
}

/** The codec as it runs: bytes appended to an output, bits set in a buffer, a
    cursor moved through the input. */
module ManifestCodec {
  import opened Results
  import opened Bytes
  import opened Bitmaps
  import opened ManifestFormat
  import opened ManifestRoundTrip

  /** Round up by division; the addition may overflow. */
  method CountChunks(len: U64, chunkSize: nat) returns (r: Result<U64, IntegrityManifestError>)
    requires chunkSize > 0
    ensures r == ChunkCount(len, chunkSize)
  {
    if len == 0 { return Success(0); }
    var padded := len + (chunkSize - 1);
    if padded > 0xffff_ffff_ffff_ffff { return Failure(IntegrityManifestError); }
    ChunksByDivision(len, chunkSize);
    r := Success(padded / chunkSize);
  }

  // Setting bits

  lemma {:induction false} ZeroHasNoBits(bits: seq<bool>)
    requires Number(bits) == 0
    ensures forall j | 0 <= j < |bits| :: !bits[j]
  {
    if bits != [] {
      ZeroHasNoBits(bits[1..]);
      assert bits == [bits[0]] + bits[1..];
    }
  }

  lemma NoBitsSet(bytes: seq<Byte>, n: nat)
    requires n == 8 * |bytes| && forall k | 0 <= k < |bytes| :: bytes[k] == 0
    ensures AllBits(bytes) == Flags([], n)
  {
    ZeroHasNoBits(Bits(0));
  }

  lemma OneMoreBit(bytes: seq<Byte>, list: seq<nat>, index: nat, b: Byte)
    requires AllBits(bytes) == Flags(list, 8 * |bytes|) && index < 8 * |bytes| && Bits(b) == Bits(bytes[index / 8])[index % 8 := true]
    ensures AllBits(bytes[index / 8 := b]) == Flags(list + [index], 8 * |bytes|)
  {
    var after := bytes[index / 8 := b];
    forall i | 0 <= i < 8 * |bytes| ensures AllBits(after)[i] == (i in list + [index]) {
      assert AllBits(bytes)[i] == Flags(list, 8 * |bytes|)[i];
    }
  }

  method WorkingSetBitmap(m: IntegrityManifest) returns (r: Result<Option<(nat, seq<Byte>)>, IntegrityManifestError>)
    ensures var chunks := RamChunks(m.artifacts);
      r == if m.workingSet == [] then Success(None)
           else if WorkingSetFits(m.workingSet, chunks) then Success(Some((chunks, Bitmap(m.workingSet, chunks))))
           else Failure(IntegrityManifestError)
  {
    var list := m.workingSet;
    if list == [] { return Success(None); }
    var ram := FindArtifact(m.artifacts, Ram);
    if ram == None {
      assert list[0] in list;
      return Failure(IntegrityManifestError);
    }
    var chunks := |ram.value.chunkHashes|;
    var bitmap := new Byte[BitmapLen(chunks)](_ => 0);
    NoBitsSet(bitmap[..], 8 * BitmapLen(chunks));
    var previous: Option<U32> := None;
    for i := 0 to |list|
      invariant WorkingSetFits(list[..i], chunks)
      invariant previous == if i == 0 then None else Some(list[i - 1])
      invariant AllBits(bitmap[..]) == Flags(list[..i], 8 * BitmapLen(chunks))
    {
      var index := list[i];
      assert index in list;
      if index >= chunks || (previous.Some? && previous.value >= index) { return Failure(IntegrityManifestError); }
      previous := Some(index);
      ghost var before := bitmap[..];
      var b := SetBit(bitmap[index / 8], index % 8);
      bitmap[index / 8] := b;
      OneMoreBit(before, list[..i], index, b);
      assert bitmap[..] == before[index / 8 := b];
      assert list[..i + 1] == list[..i] + [index];
      LongerWorkingSet(list, i, chunks);
    }
    assert list[..|list|] == list;
    BitmapsWithSameBits(bitmap[..], Bitmap(list, chunks));
    r := Success(Some((chunks, bitmap[..])));
  }

  lemma LongerWorkingSet(list: seq<U32>, i: nat, chunks: nat)
    requires i < |list| && WorkingSetFits(list[..i], chunks) && list[i] < chunks && (i > 0 ==> list[i - 1] < list[i])
    ensures WorkingSetFits(list[..i + 1], chunks)
  {
    assert forall k | 0 <= k < i :: list[..i][k] == list[k];
    assert i > 0 ==> forall k | 0 <= k < i :: list[k] <= list[i - 1];
  }

  // Writing

  lemma {:induction false} FlatAppend(hashes: seq<Hash>, i: nat)
    requires i < |hashes|
    ensures Flat(hashes[..i + 1]) == Flat(hashes[..i]) + hashes[i]
  {
    if i == 0 {
      assert Flat(hashes[..1]) == hashes[0] + Flat([]);
    } else {
      FlatAppend(hashes[1..], i - 1);
      Associative(hashes[0], Flat(hashes[1..][..i - 1]), hashes[i]);
      assert hashes[..i + 1][1..] == hashes[1..][..i] && hashes[..i][1..] == hashes[1..][..i - 1];
    }
  }

  lemma {:induction false} BodyAppend(artifacts: seq<ArtifactIntegrity>, i: nat)
    requires i < |artifacts|
    ensures Body(artifacts[..i + 1]) == Body(artifacts[..i]) + ArtifactBytes(artifacts[i])
  {
    if i == 0 {
      assert Body(artifacts[..1]) == ArtifactBytes(artifacts[0]) + Body([]);
    } else {
      BodyAppend(artifacts[1..], i - 1);
      Associative(ArtifactBytes(artifacts[0]), Body(artifacts[1..][..i - 1]), ArtifactBytes(artifacts[i]));
      assert artifacts[..i + 1][1..] == artifacts[1..][..i] && artifacts[..i][1..] == artifacts[1..][..i - 1];
    }
  }

  method WriteArtifact(a: ArtifactIntegrity, chunkSize: U32) returns (r: Result<seq<Byte>, IntegrityManifestError>)
    requires chunkSize > 0
    ensures r == if WellHashed(a, chunkSize) then Success(ArtifactBytes(a)) else Failure(IntegrityManifestError)
  {
    var expected :- CountChunks(a.len, chunkSize);
    if |a.chunkHashes| != expected { return Failure(IntegrityManifestError); }
    var output: seq<Byte> := [KindByte(a.kind)];
    output := output + RESERVED;
    Spans();
    var len := ToLittleEndian(a.len, 8);
    output := output + len;
    var count := ToLittleEndian(expected, 8);
    output := output + count;
    for j := 0 to |a.chunkHashes|
      invariant output == ArtifactHeader(a) + Flat(a.chunkHashes[..j])
    {
      FlatAppend(a.chunkHashes, j);
      Associative(ArtifactHeader(a), Flat(a.chunkHashes[..j]), a.chunkHashes[j]);
      output := output + a.chunkHashes[j];
    }
    assert a.chunkHashes[..|a.chunkHashes|] == a.chunkHashes;
    r := Success(output);
  }

  method WriteBody(artifacts: seq<ArtifactIntegrity>, chunkSize: U32, header: seq<Byte>) returns (r: Result<seq<Byte>, IntegrityManifestError>)
    requires chunkSize > 0
    ensures r == if forall a | a in artifacts :: WellHashed(a, chunkSize) then Success(header + Body(artifacts)) else Failure(IntegrityManifestError)
  {
    var output := header;
    for i := 0 to |artifacts|
      invariant output == header + Body(artifacts[..i])
      invariant forall k | 0 <= k < i :: WellHashed(artifacts[k], chunkSize)
    {
      assert artifacts[i] in artifacts;
      var written :- WriteArtifact(artifacts[i], chunkSize);
      BodyAppend(artifacts, i);
      Associative(header, Body(artifacts[..i]), written);
      output := output + written;
    }
    assert artifacts[..|artifacts|] == artifacts;
    r := Success(output);
  }

  method WriteHeader(version: U16, count: U16, chunkSize: U32) returns (output: seq<Byte>)
    ensures output == Header(version, count, chunkSize)
  {
    Spans();
    output := MAGIC;
    var bytes := ToLittleEndian(version, 2);
    output := output + bytes;
    bytes := ToLittleEndian(count, 2);
    output := output + bytes;
    bytes := ToLittleEndian(chunkSize, 4);
    output := output + bytes;
  }

  method Encode(m: IntegrityManifest) returns (r: Result<seq<Byte>, IntegrityManifestError>)
    ensures r == if Encodable(m) then Success(Wire(m)) else Failure(IntegrityManifestError)
  {
    if !ValidChunkSize(m.chunkSize) { return Failure(IntegrityManifestError); }
    if m.artifacts == [] || |m.artifacts| > 0xffff { return Failure(IntegrityManifestError); }
    var workingSet :- WorkingSetBitmap(m);
    var version := if workingSet.Some? then VERSION_2 else VERSION_1;
    var output := WriteHeader(version, |m.artifacts|, m.chunkSize);
    output :- WriteBody(m.artifacts, m.chunkSize, output);
    if workingSet.Some? {
      RamChunksAreU64(m.artifacts, m.chunkSize);
      Spans();
      var count := ToLittleEndian(workingSet.value.0, 8);
      output := output + (count + workingSet.value.1);
    } else {
      assert output + [] == output;
    }
    r := Success(output);
  }

  // Reading

  lemma {:induction false} SplitAt(bytes: seq<Byte>, n: nat, j: nat)
    requires |bytes| == HASH_LEN * n && j < n
    ensures Split(bytes, n)[j] == bytes[HASH_LEN * j..HASH_LEN * j + HASH_LEN]
  {
    if j > 0 {
      SplitAt(bytes[HASH_LEN..], n - 1, j - 1);
    }
  }

  lemma SameHeader(input: seq<Byte>, start: nat)
    requires start + ARTIFACT_HEADER_LEN <= |input|
    ensures var h, b := input[start..start + ARTIFACT_HEADER_LEN], input[start..];
      h[0] == b[0] && h[1..8] == b[1..8] && h[8..16] == b[8..16] && h[16..24] == b[16..24]
  {
    var h, b := input[start..start + ARTIFACT_HEADER_LEN], input[start..];
    assert h == b[..ARTIFACT_HEADER_LEN];
  }

  method ReadArtifact(input: seq<Byte>, start: nat, chunkSize: U32) returns (r: Result<(ArtifactIntegrity, nat), IntegrityManifestError>)
    requires start <= |input| && chunkSize > 0
    ensures r.Success? ==> r.value.1 <= |input|
    ensures ParseArtifact(input[start..], chunkSize)
            == if r.Failure? then Failure(r.error) else Success((r.value.0, input[r.value.1..]))
  {
    var cursor := start;
    ghost var b := input[start..];
    var headerEnd := cursor + ARTIFACT_HEADER_LEN;
    if headerEnd > |input| { return Failure(IntegrityManifestError); }
    var header := input[cursor..headerEnd];
    SameHeader(input, start);
    var kind :- KindOf(header[0]);
    if header[1..8] != RESERVED { return Failure(IntegrityManifestError); }
    var len := ReadU64(header[8..16]);
    var encodedCount := ReadU64(header[16..24]);
    var expectedCount :- CountChunks(len, chunkSize);
    if encodedCount != expectedCount { return Failure(IntegrityManifestError); }
    cursor := headerEnd;
    var hashesEnd := cursor + HASH_LEN * expectedCount;
    if hashesEnd > |input| { return Failure(IntegrityManifestError); }
    var encodedHashes := input[cursor..hashesEnd];
    assert encodedHashes == b[ARTIFACT_HEADER_LEN..hashesEnd - start] && input[hashesEnd..] == b[hashesEnd - start..];
    var chunkHashes := ReadHashes(encodedHashes, expectedCount);
    r := Success((ArtifactIntegrity(kind, len, chunkHashes), hashesEnd));
  }

  method ReadHashes(bytes: seq<Byte>, n: nat) returns (hashes: seq<Hash>)
    requires |bytes| == HASH_LEN * n
    ensures hashes == Split(bytes, n)
  {
    hashes := [];
    for j := 0 to n
      invariant hashes == Split(bytes, n)[..j]
    {
      SplitAt(bytes, n, j);
      hashes := hashes + [bytes[HASH_LEN * j..HASH_LEN * j + HASH_LEN]];
    }
  }

  lemma PrependOneMore(artifacts: seq<ArtifactIntegrity>, a: ArtifactIntegrity, more: Parsed<seq<ArtifactIntegrity>>)
    ensures Prepend(artifacts, Prepend([a], more)) == Prepend(artifacts + [a], more)
  {
    if more.Success? { assert artifacts + ([a] + more.value.0) == artifacts + [a] + more.value.0; }
  }

  /** What one more artifact read does to what is still to be read. */
  lemma OneRound(artifacts: seq<ArtifactIntegrity>, b: seq<Byte>, chunkSize: nat, n: nat)
    requires chunkSize > 0 && n > 0
    ensures var first, whole := ParseArtifact(b, chunkSize), Prepend(artifacts, ParseArtifacts(b, chunkSize, n));
      whole == if first.Failure? then Failure(first.error)
               else Prepend(artifacts + [first.value.0], ParseArtifacts(first.value.1, chunkSize, n - 1))
  {
    ParseStep(b, chunkSize, n);
    var first := ParseArtifact(b, chunkSize);
    if first.Success? { PrependOneMore(artifacts, first.value.0, ParseArtifacts(first.value.1, chunkSize, n - 1)); }
  }

  /** Read one more artifact while `n` are still to be read. */
  method ReadOneMore(input: seq<Byte>, cursor: nat, chunkSize: U32, artifacts: seq<ArtifactIntegrity>, n: nat)
    returns (r: Result<(seq<ArtifactIntegrity>, nat), IntegrityManifestError>)
    requires cursor <= |input| && chunkSize > 0 && n > 0
    ensures r.Success? ==> r.value.1 <= |input|
    ensures Prepend(artifacts, ParseArtifacts(input[cursor..], chunkSize, n))
            == if r.Failure? then Failure(r.error) else Prepend(r.value.0, ParseArtifacts(input[r.value.1..], chunkSize, n - 1))
  {
    OneRound(artifacts, input[cursor..], chunkSize, n);
    var read :- ReadArtifact(input, cursor, chunkSize);
    r := Success((artifacts + [read.0], read.1));
  }

  method ReadArtifacts(input: seq<Byte>, count: nat, chunkSize: U32) returns (r: Result<(seq<ArtifactIntegrity>, nat), IntegrityManifestError>)
    requires HEADER_LEN <= |input| && chunkSize > 0
    ensures r.Success? ==> r.value.1 <= |input|
    ensures ParseArtifacts(input[HEADER_LEN..], chunkSize, count)
            == if r.Failure? then Failure(r.error) else Success((r.value.0, input[r.value.1..]))
  {
    var cursor: nat := HEADER_LEN;
    var artifacts: seq<ArtifactIntegrity> := [];
    ghost var whole := ParseArtifacts(input[HEADER_LEN..], chunkSize, count);
    assert whole.Success? ==> [] + whole.value.0 == whole.value.0;
    for i := 0 to count
      invariant cursor <= |input|
      invariant whole == Prepend(artifacts, ParseArtifacts(input[cursor..], chunkSize, count - i))
    {
      var read :- ReadOneMore(input, cursor, chunkSize, artifacts, count - i);
      artifacts, cursor := read.0, read.1;
    }
    assert artifacts + [] == artifacts;
    r := Success((artifacts, cursor));
  }

  lemma NextMember(bits: seq<bool>, k: nat)
    requires k < |bits|
    ensures Members(bits[..k + 1]) == if bits[k] then Members(bits[..k]) + [k] else Members(bits[..k])
    ensures bits[k] ==> k in Members(bits)
  {
    assert bits[..k + 1][..k] == bits[..k];
    MembersAreTheSetBits(bits);
  }

  /** What bit `j` of byte `k` adds to the working set. */
  lemma BitStep(bytes: seq<Byte>, k: nat, j: nat)
    requires k < |bytes| && j < 8
    ensures var bits, index := AllBits(bytes), 8 * k + j;
      && Members(bits[..index + 1]) == (if Bits(bytes[k])[j] then Members(bits[..index]) + [index] else Members(bits[..index]))
      && (Bits(bytes[k])[j] ==> index in Members(bits))
  {
    assert (8 * k + j) / 8 == k && (8 * k + j) % 8 == j;
    NextMember(AllBits(bytes), 8 * k + j);
  }

  lemma Unfit(list: seq<nat>, x: nat, chunks: nat)
    requires x in list && (x >= chunks || x > 0xffff_ffff)
    ensures !IndicesFit(list, chunks)
  {
  }

  lemma StillFit(list: seq<nat>, x: nat, chunks: nat)
    requires IndicesFit(list, chunks) && x < chunks && x <= 0xffff_ffff
    ensures IndicesFit(list + [x], chunks)
  {
  }

  method ReadByte(bitmap: seq<Byte>, byteIndex: nat, ramChunks: nat, before: seq<nat>) returns (r: Result<seq<nat>, IntegrityManifestError>)
    requires byteIndex < |bitmap| && before == Members(AllBits(bitmap)[..8 * byteIndex]) && IndicesFit(before, ramChunks)
    ensures r.Success? ==> r.value == Members(AllBits(bitmap)[..8 * byteIndex + 8]) && IndicesFit(r.value, ramChunks)
    ensures r.Failure? ==> r.error == IntegrityManifestError && !IndicesFit(Members(AllBits(bitmap)), ramChunks)
  {
    ghost var bits := AllBits(bitmap);
    var workingSet := before;
    for bit := 0 to 8
      invariant workingSet == Members(bits[..8 * byteIndex + bit]) && IndicesFit(workingSet, ramChunks)
    {
      var index := 8 * byteIndex + bit;
      BitStep(bitmap, byteIndex, bit);
      var isSet := TestBit(bitmap[byteIndex], bit);
      if isSet {
        if index >= ramChunks || index > 0xffff_ffff {
          Unfit(Members(bits), index, ramChunks);
          return Failure(IntegrityManifestError);
        }
        StillFit(workingSet, index, ramChunks);
        workingSet := workingSet + [index];
      }
    }
    r := Success(workingSet);
  }

  method ReadBitmap(bitmap: seq<Byte>, ramChunks: nat) returns (r: Result<seq<U32>, IntegrityManifestError>)
    ensures var members := Members(AllBits(bitmap));
      if IndicesFit(members, ramChunks) then r.Success? && r.value == members else r == Failure(IntegrityManifestError)
  {
    ghost var bits := AllBits(bitmap);
    var workingSet: seq<nat> := [];
    for byteIndex := 0 to |bitmap|
      invariant workingSet == Members(bits[..8 * byteIndex]) && IndicesFit(workingSet, ramChunks)
    {
      workingSet :- ReadByte(bitmap, byteIndex, ramChunks, workingSet);
    }
    assert bits[..8 * |bitmap|] == bits;
    r := Success(workingSet);
  }

  method ReadTrailer(input: seq<Byte>, start: nat, ramChunks: nat) returns (r: Result<(seq<U32>, nat), IntegrityManifestError>)
    requires start <= |input|
    ensures r.Success? ==> r.value.1 <= |input|
    ensures ParseTrailer(input[start..], ramChunks)
            == if r.Failure? then Failure(r.error) else Success((r.value.0, input[r.value.1..]))
  {
    ghost var b := input[start..];
    var countEnd := start + 8;
    if countEnd > |input| { return Failure(IntegrityManifestError); }
    assert input[start..countEnd] == b[..8];
    if ReadU64(input[start..countEnd]) != ramChunks || ramChunks == 0 { return Failure(IntegrityManifestError); }
    var bitmapEnd := countEnd + BitmapLen(ramChunks);
    if bitmapEnd > |input| { return Failure(IntegrityManifestError); }
    assert input[countEnd..bitmapEnd] == b[8..8 + BitmapLen(ramChunks)] && input[bitmapEnd..] == b[8 + BitmapLen(ramChunks)..];
    var workingSet :- ReadBitmap(input[countEnd..bitmapEnd], ramChunks);
    if workingSet == [] { return Failure(IntegrityManifestError); }
    r := Success((workingSet, bitmapEnd));
  }

  method ReadRest(input: seq<Byte>, version: U16, count: nat, chunkSize: U32) returns (r: Result<IntegrityManifest, IntegrityManifestError>)
    requires HEADER_LEN <= |input| && chunkSize > 0
    ensures r == ParseRest(input[HEADER_LEN..], version, count, chunkSize)
  {
    var body :- ReadArtifacts(input, count, chunkSize);
    var (artifacts, cursor) := body;
    var workingSet: seq<U32> := [];
    if version == VERSION_2 {
      var trailer :- ReadTrailer(input, cursor, RamChunks(artifacts));
      workingSet, cursor := trailer.0, trailer.1;
    }
    assert input[cursor..] == [] <==> cursor == |input|;
    if cursor != |input| { return Failure(IntegrityManifestError); }
    if !OneOfEach(artifacts) { return Failure(IntegrityManifestError); }
    r := Success(IntegrityManifest(chunkSize, artifacts, workingSet));
  }

  method Decode(input: seq<Byte>) returns (r: Result<IntegrityManifest, IntegrityManifestError>)
    ensures r == Parse(input)
  {
    if |input| < HEADER_LEN || input[..4] != MAGIC { return Failure(IntegrityManifestError); }
    var version := ReadU16(input[4..6]);
    if version != VERSION_1 && version != VERSION_2 { return Failure(IntegrityManifestError); }
    var count := ReadU16(input[6..8]);
    if count == 0 { return Failure(IntegrityManifestError); }
    var chunkSize := ReadU32(input[8..12]);
    if !ValidChunkSize(chunkSize) { return Failure(IntegrityManifestError); }
    r := ReadRest(input, version, count, chunkSize);
  }
}
