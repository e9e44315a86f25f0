/** The layout of the integrity manifest, byte by byte, at one manifest. */
module ManifestLayout {
  import opened Bytes
  import opened Bitmaps
  import opened ManifestFormat

  function Zeros(k: nat): (z: seq<Byte>)
    ensures |z| == k && FromLittleEndian(z) == 0
  {
    if k == 0 then []
    else
      assert ([0] + Zeros(k - 1))[1..] == Zeros(k - 1);
      [0] + Zeros(k - 1)
  }

  /** A small number is its lowest byte, then zeros. */
  lemma OneByte(b: Byte, k: nat)
    requires k > 0
    ensures LittleEndian(b, k) == [b] + Zeros(k - 1)
  {
    var bytes := [b] + Zeros(k - 1);
    assert bytes[1..] == Zeros(k - 1);
    BytesRoundTrip(bytes);
  }

  lemma ChunkSizeBytes()
    ensures LittleEndian(0x1_0000, 4) == [0, 0, 1, 0]
  {
    var bytes: seq<Byte> := [0, 0, 1, 0];
    assert bytes[1..][1..] == [1] + Zeros(1);
    assert ([1] + Zeros(1))[1..] == Zeros(1);
    assert FromLittleEndian(bytes[1..][1..]) == 1 && FromLittleEndian(bytes[1..]) == 256;
    BytesRoundTrip(bytes);
  }

  lemma {:induction false} NoBits(bits: seq<bool>)
    requires true !in bits
    ensures Number(bits) == 0
  {
    if bits != [] { NoBits(bits[1..]); }
  }

  lemma FirstChunkOnly()
    ensures Bitmap([0], 1) == [1]
  {
    var bits := Flags([0], 8);
    assert bits[0] && true !in bits[1..];
    NoBits(bits[1..]);
    NumberIsInjective(Bits(1), bits);
    assert AllBits([1]) == Bits(1);
    BitmapsWithSameBits(Bitmap([0], 1), [1]);
  }

  /** A RAM image of one chunk, which is the working set, and empty metadata. */
  function Sample(hash: Hash): IntegrityManifest {
    IntegrityManifest(0x1_0000, [ArtifactIntegrity(Ram, 7, [hash]), ArtifactIntegrity(SnapshotMetadata, 0, [])], [0])
  }

  lemma SampleHeaders(hash: Hash)
    ensures Header(2, 2, 0x1_0000) == [0x54, 0x49, 0x4d, 0x46, 2, 0, 2, 0, 0, 0, 1, 0]
    ensures ArtifactHeader(Sample(hash).artifacts[0]) == [1] + Zeros(7) + ([7] + Zeros(7)) + ([1] + Zeros(7))
    ensures ArtifactHeader(Sample(hash).artifacts[1]) == [3] + Zeros(7) + ([0] + Zeros(7)) + ([0] + Zeros(7))
  {
    assert Zeros(1) == [0] && Zeros(7) == RESERVED;
    OneByte(2, 2);
    ChunkSizeBytes();
    OneByte(7, 8);
    OneByte(1, 8);
    OneByte(0, 8);
  }

  lemma SampleBody(hash: Hash)
    ensures var m := Sample(hash); Body(m.artifacts) == (ArtifactHeader(m.artifacts[0]) + hash) + ArtifactHeader(m.artifacts[1])
  {
    var m := Sample(hash);
    var ram, metadata := m.artifacts[0], m.artifacts[1];
    assert m.artifacts[1..] == [metadata] && [metadata][1..] == [];
    assert Flat(ram.chunkHashes) == hash + Flat([]);
    assert Body([metadata]) == ArtifactBytes(metadata) + Body([]);
  }

  /** It is written with these bytes. */
  lemma SampleLayout(hash: Hash)
    ensures Wire(Sample(hash)) ==
      [0x54, 0x49, 0x4d, 0x46, 2, 0, 2, 0, 0, 0, 1, 0]
      + (([1] + Zeros(7) + ([7] + Zeros(7)) + ([1] + Zeros(7)) + hash) + ([3] + Zeros(7) + ([0] + Zeros(7)) + ([0] + Zeros(7))))
      + (([1] + Zeros(7)) + [1])
  {
    SampleHeaders(hash);
    SampleBody(hash);
    OneByte(1, 8);
    FirstChunkOnly();
    assert RamChunks(Sample(hash).artifacts) == 1;
  }
}
