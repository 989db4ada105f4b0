/**
  The two packed on-disk records of fat.c: the boot sector header
  (`BootSector`, 55 bytes as the program declares it) and the 32-byte
  root directory entry (`DirectoryEntry`).
 */
module Layout {
  import opened Bytes

  /** `sizeof(BootSector)` of the packed struct. */
  const BOOT_SECTOR_SIZE: nat := 55
  /** `sizeof(DirectoryEntry)` of the packed struct. */
  const DIR_ENTRY_SIZE: nat := 32
  /** Length of a raw 8.3 name: 8 name bytes and 3 extension bytes. */
  const NAME_SIZE: nat := 11

  /**
    The boot sector header in field order. The OEM identifier is a single
    byte here, so `bytesPerSector` sits at offset 4 and each later field seven
    bytes before its place in the standard BIOS parameter block.
   */
  datatype BootSector = BootSector(
    bootJumpInstruction: seq<Byte>,  // offset 0, 3 bytes
    oemIdentifier: Byte,             // offset 3
    bytesPerSector: U16,             // offset 4
    sectorsPerCluster: Byte,         // offset 6
    reservedSectors: U16,            // offset 7
    fatCount: Byte,                  // offset 9
    dirEntriesCount: U16,            // offset 10
    totalSectors: U16,               // offset 12
    mediaDescriptorType: Byte,       // offset 14
    sectorsPerFat: U16,              // offset 15
    sectorsPerTrack: U16,            // offset 17
    heads: U16,                      // offset 19
    hiddenSectors: U32,              // offset 21
    largeSectorCount: U32,           // offset 25
    driveNumber: Byte,               // offset 29
    reserved: Byte,                  // offset 30
    signature: Byte,                 // offset 31
    volumeId: U32,                   // offset 32
    volumeLabel: seq<Byte>,          // offset 36, 11 bytes
    systemId: seq<Byte>)             // offset 47, 8 bytes
  {
    /** The byte arrays have the lengths the struct declares. */
    predicate WellFormed() {
      |bootJumpInstruction| == 3 && |volumeLabel| == 11 && |systemId| == 8
    }
  }

  /** One 32-byte root directory slot in field order. */
  datatype DirEntry = DirEntry(
    name: seq<Byte>,          // offset 0, 11 bytes
    attributes: Byte,         // offset 11
    reserved: Byte,           // offset 12
    createdTimeTenths: Byte,  // offset 13
    createdTime: U16,         // offset 14
    createdDate: U16,         // offset 16
    accessedDate: U16,        // offset 18
    firstClusterHigh: U16,    // offset 20
    modifiedTime: U16,        // offset 22
    modifiedDate: U16,        // offset 24
    firstClusterLow: U16,     // offset 26
    size: U32)                // offset 28
  {
    predicate WellFormed() {
      |name| == NAME_SIZE
    }
  }

  /**
    The header a `BootSector` cast over the first 55 bytes of `s` shows,
    read as four runs of bytes: 0 to 11, 12 to 20, 21 to 31 and 32 to 54.
   */
  function DecodeBootSector(s: seq<Byte>): (b: BootSector)
    requires |s| >= BOOT_SECTOR_SIZE
    ensures b.WellFormed()
  {
    var g, c, d, v := s[0..12], s[12..21], s[21..32], s[32..55];
    BootSector(
      g[0..3], g[3], LE16(g, 4), g[6], LE16(g, 7), g[9], LE16(g, 10),
      LE16(c, 0), c[2], LE16(c, 3), LE16(c, 5), LE16(c, 7),
      LE32(d, 0), LE32(d, 4), d[8], d[9], d[10],
      LE32(v, 0), v[4..15], v[15..23])
  }

  /** The 55 bytes that store `b`; decoding them yields `b` field by field. */
  function EncodeBootSector(b: BootSector): (r: seq<Byte>)
    requires b.WellFormed()
    ensures |r| == BOOT_SECTOR_SIZE
    ensures DecodeBootSector(r) == b
  {
    var geometry, chs, drive, volume := EncodeGeometry(b), EncodeChs(b), EncodeDrive(b), EncodeVolume(b);
    var r := geometry + chs + drive + volume;
    assert r[0..12] == geometry && r[12..21] == chs && r[21..32] == drive && r[32..55] == volume;
    r
  }

  /** Bytes 0 to 11: jump, OEM byte and the geometry `fat.c` uses. */
  function EncodeGeometry(b: BootSector): (r: seq<Byte>)
    requires b.WellFormed()
    ensures |r| == 12 && r[0..3] == b.bootJumpInstruction && r[3] == b.oemIdentifier
    ensures LE16(r, 4) == b.bytesPerSector && r[6] == b.sectorsPerCluster
    ensures LE16(r, 7) == b.reservedSectors && r[9] == b.fatCount
    ensures LE16(r, 10) == b.dirEntriesCount
  {
    var r := b.bootJumpInstruction + [b.oemIdentifier] + Enc16(b.bytesPerSector)
      + [b.sectorsPerCluster] + Enc16(b.reservedSectors) + [b.fatCount]
      + Enc16(b.dirEntriesCount);
    assert r[4..6] == Enc16(b.bytesPerSector);
    assert r[7..9] == Enc16(b.reservedSectors);
    assert r[10..12] == Enc16(b.dirEntriesCount);
    r
  }

  /** Bytes 12 to 20: total sectors, media descriptor, FAT size and CHS geometry. */
  function EncodeChs(b: BootSector): (r: seq<Byte>)
    ensures |r| == 9 && LE16(r, 0) == b.totalSectors && r[2] == b.mediaDescriptorType
    ensures LE16(r, 3) == b.sectorsPerFat && LE16(r, 5) == b.sectorsPerTrack
    ensures LE16(r, 7) == b.heads
  {
    var r := Enc16(b.totalSectors) + [b.mediaDescriptorType] + Enc16(b.sectorsPerFat)
      + Enc16(b.sectorsPerTrack) + Enc16(b.heads);
    assert r[3..5] == Enc16(b.sectorsPerFat);
    assert r[5..7] == Enc16(b.sectorsPerTrack);
    assert r[7..9] == Enc16(b.heads);
    r
  }

  /** Bytes 21 to 31: hidden and large sector counts, drive number, reserved byte, signature. */
  function EncodeDrive(b: BootSector): (r: seq<Byte>)
    ensures |r| == 11 && LE32(r, 0) == b.hiddenSectors && LE32(r, 4) == b.largeSectorCount
    ensures r[8] == b.driveNumber && r[9] == b.reserved && r[10] == b.signature
  {
    var r := Enc32(b.hiddenSectors) + Enc32(b.largeSectorCount) + [b.driveNumber]
      + [b.reserved] + [b.signature];
    assert r[4..8] == Enc32(b.largeSectorCount);
    r
  }

  /** Bytes 32 to 54: volume id, volume label and system id. */
  function EncodeVolume(b: BootSector): (r: seq<Byte>)
    requires b.WellFormed()
    ensures |r| == 23 && LE32(r, 0) == b.volumeId
    ensures r[4..15] == b.volumeLabel && r[15..23] == b.systemId
  {
    Enc32(b.volumeId) + b.volumeLabel + b.systemId
  }

  /** Decoding looks at the first 55 bytes and nothing after them. */
  lemma DecodeBootSectorPrefix(s: seq<Byte>)
    requires |s| >= BOOT_SECTOR_SIZE
    ensures DecodeBootSector(s) == DecodeBootSector(s[..BOOT_SECTOR_SIZE])
  {
    var p := s[..BOOT_SECTOR_SIZE];
    assert p[0..12] == s[0..12] && p[12..21] == s[12..21] && p[21..32] == s[21..32] && p[32..55] == s[32..55];
  }

  /** Every 55-byte header is the encoding of what it decodes to. */
  lemma BootSectorBytesRoundTrip(s: seq<Byte>)
    requires |s| == BOOT_SECTOR_SIZE
    ensures EncodeBootSector(DecodeBootSector(s)) == s
  {
    var b := DecodeBootSector(s);
    GeometryBytesRoundTrip(s);
    ChsBytesRoundTrip(s);
    DriveBytesRoundTrip(s);
    VolumeBytesRoundTrip(s);
    assert s == s[0..12] + s[12..21] + s[21..32] + s[32..55];
  }

  lemma GeometryBytesRoundTrip(s: seq<Byte>)
    requires |s| == BOOT_SECTOR_SIZE
    ensures EncodeGeometry(DecodeBootSector(s)) == s[0..12]
  {
    var g := s[0..12];
    Enc16OfLE16(g, 4);
    Enc16OfLE16(g, 7);
    Enc16OfLE16(g, 10);
    assert g == g[0..3] + [g[3]] + g[4..6] + [g[6]] + g[7..9] + [g[9]] + g[10..12];
  }

  lemma ChsBytesRoundTrip(s: seq<Byte>)
    requires |s| == BOOT_SECTOR_SIZE
    ensures EncodeChs(DecodeBootSector(s)) == s[12..21]
  {
    var c := s[12..21];
    Enc16OfLE16(c, 0);
    Enc16OfLE16(c, 3);
    Enc16OfLE16(c, 5);
    Enc16OfLE16(c, 7);
    assert c == c[0..2] + [c[2]] + c[3..5] + c[5..7] + c[7..9];
  }

  lemma DriveBytesRoundTrip(s: seq<Byte>)
    requires |s| == BOOT_SECTOR_SIZE
    ensures EncodeDrive(DecodeBootSector(s)) == s[21..32]
  {
    var d := s[21..32];
    Enc32OfLE32(d, 0);
    Enc32OfLE32(d, 4);
    assert d == d[0..4] + d[4..8] + [d[8]] + [d[9]] + [d[10]];
  }

  lemma VolumeBytesRoundTrip(s: seq<Byte>)
    requires |s| == BOOT_SECTOR_SIZE
    ensures EncodeVolume(DecodeBootSector(s)) == s[32..55]
  {
    var v := s[32..55];
    Enc32OfLE32(v, 0);
    assert v == v[0..4] + v[4..15] + v[15..23];
  }

  /** The entry a `DirectoryEntry` cast over the first 32 bytes of `s` shows. */
  function DecodeDirEntry(s: seq<Byte>): (e: DirEntry)
    requires |s| >= DIR_ENTRY_SIZE
    ensures e.WellFormed()
  {
    DirEntry(
      s[0..11], s[11], s[12], s[13], LE16(s, 14), LE16(s, 16), LE16(s, 18),
      LE16(s, 20), LE16(s, 22), LE16(s, 24), LE16(s, 26), LE32(s, 28))
  }

  /** The 32 bytes that store `e`; decoding them yields `e` field by field. */
  function EncodeDirEntry(e: DirEntry): (r: seq<Byte>)
    requires e.WellFormed()
    ensures |r| == DIR_ENTRY_SIZE
    ensures r[..NAME_SIZE] == e.name && r[11] == e.attributes
    ensures r[12] == e.reserved && r[13] == e.createdTimeTenths
    ensures LE16(r, 14) == e.createdTime && LE16(r, 16) == e.createdDate && LE16(r, 18) == e.accessedDate
    ensures LE16(r, 20) == e.firstClusterHigh && LE16(r, 22) == e.modifiedTime
    ensures LE16(r, 24) == e.modifiedDate && LE16(r, 26) == e.firstClusterLow && LE32(r, 28) == e.size
    ensures DecodeDirEntry(r) == e
  {
    var r := e.name + [e.attributes] + [e.reserved] + [e.createdTimeTenths]
      + Enc16(e.createdTime) + Enc16(e.createdDate) + Enc16(e.accessedDate)
      + Enc16(e.firstClusterHigh) + Enc16(e.modifiedTime) + Enc16(e.modifiedDate)
      + Enc16(e.firstClusterLow) + Enc32(e.size);
    assert r[0..11] == e.name;
    assert r[11] == e.attributes && r[12] == e.reserved && r[13] == e.createdTimeTenths;
    assert r[14..16] == Enc16(e.createdTime);
    assert r[16..18] == Enc16(e.createdDate);
    assert r[18..20] == Enc16(e.accessedDate);
    assert r[20..22] == Enc16(e.firstClusterHigh);
    assert r[22..24] == Enc16(e.modifiedTime);
    assert r[24..26] == Enc16(e.modifiedDate);
    assert r[26..28] == Enc16(e.firstClusterLow);
    assert r[28..32] == Enc32(e.size);
    r
  }

  /** Every 32-byte slot is the encoding of what it decodes to. */
  lemma DirEntryBytesRoundTrip(s: seq<Byte>)
    requires |s| == DIR_ENTRY_SIZE
    ensures EncodeDirEntry(DecodeDirEntry(s)) == s
  {
    Enc16OfLE16(s, 14);
    Enc16OfLE16(s, 16);
    Enc16OfLE16(s, 18);
    Enc16OfLE16(s, 20);
    Enc16OfLE16(s, 22);
    Enc16OfLE16(s, 24);
    Enc16OfLE16(s, 26);
    Enc32OfLE32(s, 28);
    assert s == s[0..11] + [s[11]] + [s[12]] + [s[13]] + s[14..16] + s[16..18]
      + s[18..20] + s[20..22] + s[22..24] + s[24..26] + s[26..28] + s[28..32];
  }

  /**
    Entry `i` of a root directory buffer: `g_root_directory[i]` views bytes
    `[32 * i, 32 * i + 32)`.
   */
  function EntryAt(root: seq<Byte>, i: nat): (e: DirEntry)
    requires DIR_ENTRY_SIZE * i + DIR_ENTRY_SIZE <= |root|
    ensures e.name == root[DIR_ENTRY_SIZE * i..DIR_ENTRY_SIZE * i + NAME_SIZE]
  {
    DecodeDirEntry(root[DIR_ENTRY_SIZE * i..DIR_ENTRY_SIZE * i + DIR_ENTRY_SIZE])
  }

  /**
    Slot `i` of a root directory buffer is all of bytes `[32 * i, 32 * i + 32)`:
    every field of the entry, size and first cluster included, is read from there.
   */
  lemma EntryAtBytes(root: seq<Byte>, i: nat)
    requires DIR_ENTRY_SIZE * i + DIR_ENTRY_SIZE <= |root|
    ensures EncodeDirEntry(EntryAt(root, i)) == root[DIR_ENTRY_SIZE * i..DIR_ENTRY_SIZE * i + DIR_ENTRY_SIZE]
  {
    DirEntryBytesRoundTrip(root[DIR_ENTRY_SIZE * i..DIR_ENTRY_SIZE * i + DIR_ENTRY_SIZE]);
  }
}
