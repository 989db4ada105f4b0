/**
  The stages of fat.c as functions of the stream they read: one sector-range
  read, the geometry arithmetic of the FAT and root directory regions, the
  name scan and the whole lookup `main` performs, with the exit status it
  returns. The imperative model in FatProgram is proved against these.
 */
module FatSpec {
  import opened Wrappers
  import opened Bytes
  import opened Layout
  import opened Stdio

  /** How `read_sectors` judges the value `fseek` returned. */
  datatype SeekCheck =
    | AsWritten  // `ok && fseek(...)`: only a failed (non-zero) seek lets the read go on
    | Intended   // `ok && fseek(...) == 0`: only a successful seek lets the read go on

  predicate SeekAccepted(check: SeekCheck, rc: int) {
    match check
    case AsWritten => rc != 0
    case Intended => rc == 0
  }

  /** The test as written lets the read go on for exactly the `fseek` results the intended test stops at. */
  lemma SeekTestsDisagree(rc: int)
    ensures SeekAccepted(AsWritten, rc) <==> !SeekAccepted(Intended, rc)
    ensures SeekAccepted(Intended, rc) <==> rc == 0
  {
  }

  /** `INT_MAX` of a 32-bit `int`. */
  const INT_MAX: nat := 0x7fff_ffff

  /** The byte offset `read_sectors` seeks to for sector `lba`: the
      product taken modulo 2^32, as `uint32_t` arithmetic does. */
  function SectorOffset(bytesPerSector: U16, lba: U32): U32 {
    Wrap32(lba * bytesPerSector)
  }

  /**
    The seek offset is the sector's true byte offset whenever that fits in 32
    bits; otherwise it has wrapped to a smaller offset congruent to it.
   */
  lemma SectorOffsetWraps(bytesPerSector: U16, lba: U32)
    ensures lba * bytesPerSector < 0x1_0000_0000 ==> SectorOffset(bytesPerSector, lba) == lba * bytesPerSector
    ensures lba * bytesPerSector >= 0x1_0000_0000 ==> SectorOffset(bytesPerSector, lba) < lba * bytesPerSector
    ensures (lba * bytesPerSector - SectorOffset(bytesPerSector, lba)) % 0x1_0000_0000 == 0
  {
  }

  /** What `read_sectors` reports, the bytes it stored in the buffer and the stream after it. */
  datatype SectorRead = SectorRead(ok: bool, bytes: seq<Byte>, after: Stream)

  /**
    `read_sectors(disk, lba, count, buffer)`: seeks to `lba * bytes_per_sector`
    (computed in `uint32_t`), then, if the seek result passes `check`, reads
    `count` sectors and succeeds only when all of them were read.
   */
  function ReadSectors(check: SeekCheck, s: Stream, bytesPerSector: U16, lba: U32, count: U32): (r: SectorRead)
    ensures |r.bytes| <= count * bytesPerSector
    ensures r.ok ==> |r.bytes| == count * bytesPerSector
    ensures r.after.data == s.data && r.after.seekable == s.seekable
  {
    var seek := Fseek(s, SectorOffset(bytesPerSector, lba));
    if !SeekAccepted(check, seek.rc) then
      SectorRead(false, [], seek.after)
    else
      var read := Fread(seek.after, bytesPerSector, count);
      FreadComplete(seek.after, bytesPerSector, count);
      SectorRead(read.items == count, read.bytes, read.after)
  }

  /**
    As written, a seek that succeeds ends `read_sectors` with failure before
    anything is read; on a seekable image no sector range can ever be read.
   */
  lemma AsWrittenSeekSuccessFails(s: Stream, bytesPerSector: U16, lba: U32, count: U32)
    requires s.seekable
    ensures var r := ReadSectors(AsWritten, s, bytesPerSector, lba, count);
      !r.ok && r.bytes == [] && r.after.pos == SectorOffset(bytesPerSector, lba)
  {
  }

  /**
    As written, on a stream that cannot be positioned the failed seek lets the
    read go on from wherever the stream is: `read_sectors` succeeds exactly
    when `count` whole sectors remain there, delivers the bytes at the current
    position and leaves the stream just past them. Sector `lba` plays no part.
   */
  lemma AsWrittenSeekFailureReadsHere(s: Stream, bytesPerSector: U16, lba: U32, count: U32)
    requires !s.seekable
    ensures var r := ReadSectors(AsWritten, s, bytesPerSector, lba, count);
      r.ok <==> count == 0 || (bytesPerSector > 0 && count * bytesPerSector <= s.Available())
    ensures var r := ReadSectors(AsWritten, s, bytesPerSector, lba, count);
      r.ok ==> r.after == s.(pos := s.pos + count * bytesPerSector)
    ensures var r := ReadSectors(AsWritten, s, bytesPerSector, lba, count);
      r.ok ==> RunInImage(s.data, s.pos, bytesPerSector, count) && r.bytes == RunBytes(s.data, s.pos, bytesPerSector, count)
  {
    FreadComplete(s, bytesPerSector, count);
    assert bytesPerSector * count == count * bytesPerSector;
  }

  /** `count` sectors of `bytesPerSector` bytes starting at byte `at` lie wholly within the image. */
  predicate RunInImage(data: seq<Byte>, at: nat, bytesPerSector: U16, count: U32) {
    count == 0 || (bytesPerSector > 0 && at + count * bytesPerSector <= |data|)
  }

  /** The bytes of the `count` sectors of `bytesPerSector` bytes starting at byte `at` of the image. */
  function RunBytes(data: seq<Byte>, at: nat, bytesPerSector: U16, count: U32): (r: seq<Byte>)
    requires RunInImage(data, at, bytesPerSector, count)
    ensures |r| == count * bytesPerSector
  {
    if count == 0 then [] else data[at..at + count * bytesPerSector]
  }

  /** The `count` sectors from `lba` on lie wholly within the image. */
  predicate SectorsInImage(data: seq<Byte>, bytesPerSector: U16, lba: U32, count: U32) {
    RunInImage(data, SectorOffset(bytesPerSector, lba), bytesPerSector, count)
  }

  /** The bytes of the sectors `[lba, lba + count)` of the image. */
  function SectorBytes(data: seq<Byte>, bytesPerSector: U16, lba: U32, count: U32): (r: seq<Byte>)
    requires SectorsInImage(data, bytesPerSector, lba, count)
    ensures |r| == count * bytesPerSector
  {
    RunBytes(data, SectorOffset(bytesPerSector, lba), bytesPerSector, count)
  }

  /**
    With the seek tested as intended, on a seekable image `read_sectors`
    succeeds exactly when the whole sector range lies within the image, and
    then delivers exactly those bytes; a range running past the end fails.
   */
  lemma {:induction false} IntendedReadSectors(s: Stream, bytesPerSector: U16, lba: U32, count: U32)
    requires s.seekable
    ensures var r := ReadSectors(Intended, s, bytesPerSector, lba, count);
      r.ok <==> SectorsInImage(s.data, bytesPerSector, lba, count)
    ensures var r := ReadSectors(Intended, s, bytesPerSector, lba, count);
      r.ok ==> r.bytes == SectorBytes(s.data, bytesPerSector, lba, count)
  {
    var off := SectorOffset(bytesPerSector, lba);
    var at := s.(pos := off);
    FreadComplete(at, bytesPerSector, count);
    var read := Fread(at, bytesPerSector, count);
    assert bytesPerSector * count == count * bytesPerSector;
    if read.items == count && count > 0 {
      assert off + |read.bytes| <= |s.data|;
      assert read.bytes == s.data[off..off + count * bytesPerSector];
    }
  }

  /** Size in bytes of one FAT copy, the size `read_fat` allocates. */
  function FatBytes(b: BootSector): nat {
    b.sectorsPerFat * b.bytesPerSector
  }

  /** The FAT size is zero exactly when one of its factors is: nothing rejects an empty FAT. */
  lemma EmptyFat(b: BootSector)
    ensures FatBytes(b) == 0 <==> b.sectorsPerFat == 0 || b.bytesPerSector == 0
  {
    if b.sectorsPerFat > 0 && b.bytesPerSector > 0 {
      MulAtLeast(b.sectorsPerFat, b.bytesPerSector);
    }
  }

  /**
    The allocation size at fat.c:81 is an `int` product; beyond `INT_MAX` it
    overflows. Sectors of at most 32768 bytes always fit; the largest header
    values do not.
   */
  predicate FatSizeFits(b: BootSector): (fits: bool)
    ensures b.bytesPerSector <= 0x8000 ==> fits
    ensures b.sectorsPerFat == 0xFFFF && b.bytesPerSector == 0xFFFF ==> !fits
  {
    SmallSectorsFit(b.sectorsPerFat, b.bytesPerSector);
    FatBytes(b) <= INT_MAX
  }

  lemma SmallSectorsFit(sectorsPerFat: U16, bytesPerSector: U16)
    ensures bytesPerSector <= 0x8000 ==> sectorsPerFat * bytesPerSector <= INT_MAX
  {
    if bytesPerSector <= 0x8000 {
      MulBound(sectorsPerFat, bytesPerSector, 0xFFFF, 0x8000);
    }
  }

  /** First sector of the root directory: after the reserved sectors and every FAT copy. */
  function RootDirLba(b: BootSector): (lba: U32)
    ensures lba >= b.reservedSectors
  {
    MulBound(b.sectorsPerFat, b.fatCount, 0xFFFF, 0xFF);
    b.reservedSectors + b.sectorsPerFat * b.fatCount
  }

  lemma MulBound(a: nat, b: nat, maxA: nat, maxB: nat)
    requires a <= maxA && b <= maxB
    ensures a * b <= maxA * maxB
  {
    assert a * b <= maxA * b;
  }

  /** Bytes taken by `dir_entries_count` directory entries. */
  function RootDirBytes(b: BootSector): nat {
    DIR_ENTRY_SIZE * b.dirEntriesCount
  }

  /**
    Sectors `read_root_directory` reads: the entries' byte size divided by the
    sector size, plus one for a remainder: the ceiling of the quotient
    (`RootDirSectorsBounds`).
   */
  function RootDirSectors(b: BootSector): U32
    requires b.bytesPerSector > 0
  {
    var size, bps := RootDirBytes(b), b.bytesPerSector;
    CeilingBounds(size, bps);
    size / bps + (if size % bps > 0 then 1 else 0)
  }

  /** The root directory's sectors hold every entry and less than one sector more. */
  lemma RootDirSectorsBounds(b: BootSector)
    requires b.bytesPerSector > 0
    ensures RootDirBytes(b) <= RootDirSectors(b) * b.bytesPerSector < RootDirBytes(b) + b.bytesPerSector
  {
    CeilingBounds(RootDirBytes(b), b.bytesPerSector);
  }

  lemma {:induction false} MulAtLeast(a: nat, b: nat)
    requires b >= 1
    ensures a * b >= a
  {
    if b > 1 {
      MulAtLeast(a, b - 1);
      assert a * b == a * (b - 1) + a;
    }
  }

  lemma CeilingBounds(size: nat, d: nat)
    requires d > 0
    ensures var c := size / d + (if size % d > 0 then 1 else 0);
      c <= size + 1 && size <= c * d < size + d
  {
    var q, r := size / d, size % d;
    assert q * d + r == size;
    assert q * d <= size;
    assert q <= size by {
      MulAtLeast(q, d);
    }
    if r > 0 {
      assert (q + 1) * d == q * d + d;
    }
  }

  /**
    The scan of `find_file` from slot `from` on: the first slot below `count`
    whose 11 name bytes equal `name`, or none if no such slot exists. Every
    slot is compared, deleted and unused ones included.
   */
  function FirstMatchFrom(root: seq<Byte>, count: nat, name: seq<Byte>, from: nat): (r: Option<nat>)
    requires DIR_ENTRY_SIZE * count <= |root|
    requires from <= count
    ensures r.Some? ==> from <= r.value < count && EntryAt(root, r.value).name == name
    ensures r.Some? ==> forall j :: from <= j < r.value ==> EntryAt(root, j).name != name
    ensures r.None? ==> forall j :: from <= j < count ==> EntryAt(root, j).name != name
    decreases count - from
  {
    if from == count then None
    else if EntryAt(root, from).name == name then Some(from)
    else FirstMatchFrom(root, count, name, from + 1)
  }

  /** The whole scan of `find_file`: the lowest matching slot below `count`. */
  function FirstMatch(root: seq<Byte>, count: nat, name: seq<Byte>): (r: Option<nat>)
    requires DIR_ENTRY_SIZE * count <= |root|
    ensures r.Some? ==> r.value < count && EntryAt(root, r.value).name == name
    ensures r.Some? ==> forall j :: 0 <= j < r.value ==> EntryAt(root, j).name != name
    ensures r.None? <==> forall j :: 0 <= j < count ==> EntryAt(root, j).name != name
  {
    FirstMatchFrom(root, count, name, 0)
  }

  /** The first-match property determines the scan's result. */
  lemma FirstMatchUnique(root: seq<Byte>, count: nat, name: seq<Byte>, r: Option<nat>)
    requires DIR_ENTRY_SIZE * count <= |root|
    requires r.Some? ==> r.value < count && EntryAt(root, r.value).name == name
    requires r.Some? ==> forall j :: 0 <= j < r.value ==> EntryAt(root, j).name != name
    requires r.None? ==> forall j :: 0 <= j < count ==> EntryAt(root, j).name != name
    ensures r == FirstMatch(root, count, name)
  {
  }

  /** The stage at which `main` gives up. */
  datatype Failure =
    | BadArguments             // fewer than three arguments
    | CannotOpenImage          // `fopen` returned NULL
    | BootSectorUnreadable
    | FatUnreadable
    | RootDirectoryUnreadable
    | FileNotFound

  /** Points at which the C program's behaviour is undefined. */
  datatype UndefinedCause =
    | FatSizeOverflow  // `int` overflow of `sectors_per_fat * bytes_per_sector` at fat.c:81
    | DivisionByZero   // `bytes_per_sector == 0` at fat.c:91

  /** How one lookup ends. */
  datatype Outcome =
    | Found(index: nat, entry: DirEntry)
    | Failed(failure: Failure)
    | Undefined(cause: UndefinedCause)

  /** What the process returns. */
  datatype Status = Exit(code: int) | UndefinedBehaviour(cause: UndefinedCause)

  /** The exit code `main` returns for each failing stage. */
  function ExitCode(f: Failure): (code: int)
    ensures -5 <= code <= -1
  {
    match f
    case BadArguments => -1
    case CannotOpenImage => -1
    case BootSectorUnreadable => -2
    case FatUnreadable => -3
    case RootDirectoryUnreadable => -4
    case FileNotFound => -5
  }

  /** What `main` returns for an outcome: 0 exactly when the name was found. */
  function StatusOf(o: Outcome): (s: Status)
    ensures s == Exit(0) <==> o.Found?
    ensures s.UndefinedBehaviour? <==> o.Undefined?
  {
    match o
    case Found(_, _) => Exit(0)
    case Failed(f) => Exit(ExitCode(f))
    case Undefined(c) => UndefinedBehaviour(c)
  }

  /**
    The stages of `main` after the image is open, on the stream `s0`: read
    the boot sector, the FAT, the root directory, then scan for `name`. The
    first stage that fails decides the outcome.
   */
  function LookupOnImage(check: SeekCheck, s0: Stream, name: seq<Byte>): (o: Outcome)
    requires |name| == NAME_SIZE
    ensures o.Found? ==> o.entry.name == name
    ensures o.Failed? ==> o.failure != BadArguments && o.failure != CannotOpenImage
    ensures o == Failed(BootSectorUnreadable) <==> s0.Available() < BOOT_SECTOR_SIZE
  {
    var bootRead := Fread(s0, BOOT_SECTOR_SIZE, 1);
    FreadComplete(s0, BOOT_SECTOR_SIZE, 1);
    if !(bootRead.items > 0) then Failed(BootSectorUnreadable)
    else LoadFat(check, DecodeBootSector(bootRead.bytes), bootRead.after, name)
  }

  /** The stages from `read_fat` on, with the geometry `boot` and the stream `s1`. */
  function LoadFat(check: SeekCheck, boot: BootSector, s1: Stream, name: seq<Byte>): (o: Outcome)
    requires |name| == NAME_SIZE
    ensures o.Found? ==> o.entry.name == name && o.index < boot.dirEntriesCount
    ensures o.Failed? ==> o.failure in {FatUnreadable, RootDirectoryUnreadable, FileNotFound}
    ensures o == Undefined(FatSizeOverflow) <==> !FatSizeFits(boot)
    ensures o == Failed(FatUnreadable) <==>
      FatSizeFits(boot) && !ReadSectors(check, s1, boot.bytesPerSector, boot.reservedSectors, boot.sectorsPerFat).ok
  {
    if !FatSizeFits(boot) then Undefined(FatSizeOverflow)
    else
      var fat := ReadSectors(check, s1, boot.bytesPerSector, boot.reservedSectors, boot.sectorsPerFat);
      if !fat.ok then Failed(FatUnreadable)
      else LoadRootDirectory(check, boot, fat.after, name)
  }

  /** The stages from `read_root_directory` on, with the geometry `boot` and the stream `s2`. */
  function LoadRootDirectory(check: SeekCheck, boot: BootSector, s2: Stream, name: seq<Byte>): (o: Outcome)
    requires |name| == NAME_SIZE
    ensures o.Found? ==> o.entry.name == name && o.index < boot.dirEntriesCount
    ensures o.Failed? ==> o.failure == RootDirectoryUnreadable || o.failure == FileNotFound
    ensures o.Undefined? <==> boot.bytesPerSector == 0
    ensures o.Undefined? ==> o.cause == DivisionByZero
    ensures o == Failed(RootDirectoryUnreadable) <==>
      boot.bytesPerSector > 0 && !ReadSectors(check, s2, boot.bytesPerSector, RootDirLba(boot), RootDirSectors(boot)).ok
  {
    if boot.bytesPerSector == 0 then Undefined(DivisionByZero)
    else
      var root := ReadSectors(check, s2, boot.bytesPerSector, RootDirLba(boot), RootDirSectors(boot));
      if !root.ok then Failed(RootDirectoryUnreadable)
      else RootDirSectorsBounds(boot); ScanRoot(boot, root.bytes, name)
  }

  /**
    The final stage: `find_file` over the loaded root directory bytes. A hit
    is the lowest slot holding `name`, and the entry reported is that slot
    decoded (`EntryAtBytes`: it encodes back to exactly the slot's 32 bytes);
    otherwise no slot below `dir_entries_count` holds `name`.
   */
  function ScanRoot(boot: BootSector, root: seq<Byte>, name: seq<Byte>): (o: Outcome)
    requires |name| == NAME_SIZE && RootDirBytes(boot) <= |root|
    ensures o.Found? || o == Failed(FileNotFound)
    ensures o.Found? ==> o.index < boot.dirEntriesCount && o.entry.name == name
    ensures o.Found? ==> o.entry == EntryAt(root, o.index)
    ensures o.Found? ==> forall j :: 0 <= j < o.index ==> EntryAt(root, j).name != name
    ensures o.Failed? <==> forall j :: 0 <= j < boot.dirEntriesCount ==> EntryAt(root, j).name != name
  {
    match FirstMatch(root, boot.dirEntriesCount, name)
    case None => Failed(FileNotFound)
    case Some(i) => Found(i, EntryAt(root, i))
  }

  /**
    All of `main`: the argument count, the result of `fopen`, then the stages.
    `name` is `argv[2]` with its terminating zero. `memcmp` compares its first
    11 bytes; the rest of a longer argument is never looked at.
   */
  function Lookup(check: SeekCheck, argc: int, disk: Option<Stream>, name: seq<Byte>): (o: Outcome)
    requires argc >= 3 ==> |name| >= NAME_SIZE
    ensures o == Failed(BadArguments) <==> argc < 3
    ensures o == Failed(CannotOpenImage) <==> argc >= 3 && disk.None?
    ensures o.Found? ==> argc >= 3 && disk.Some? && o.entry.name == name[..NAME_SIZE]
  {
    if argc < 3 then Failed(BadArguments)
    else if disk.None? then Failed(CannotOpenImage)
    else LookupOnImage(check, disk.value, name[..NAME_SIZE])
  }

  /**
    Reference lookup over the regions of the image: the boot sector at the
    start, the FAT at sector `reserved_sectors`, the root directory after the
    FAT copies, and the lowest slot there holding `name`.
   */
  function ImageLookup(data: seq<Byte>, name: seq<Byte>): (o: Outcome)
    requires |name| == NAME_SIZE
    ensures o.Failed? ==> o.failure != BadArguments && o.failure != CannotOpenImage
    ensures o == Failed(BootSectorUnreadable) <==> |data| < BOOT_SECTOR_SIZE
    ensures o.Found? ==> o.entry.name == name
  {
    if |data| < BOOT_SECTOR_SIZE then Failed(BootSectorUnreadable)
    else RegionLookup(data, DecodeBootSector(data[..BOOT_SECTOR_SIZE]), name)
  }

  /**
    The reference lookup once the header `boot` is known: the FAT and the
    root directory are the bytes at their sectors' offsets in the image, and
    a hit is the lowest root slot below `dir_entries_count` holding `name`.
   */
  function RegionLookup(data: seq<Byte>, boot: BootSector, name: seq<Byte>): (o: Outcome)
    requires |name| == NAME_SIZE
    ensures o.Failed? ==> o.failure in {FatUnreadable, RootDirectoryUnreadable, FileNotFound}
    ensures o.Found? ==> o.entry.name == name && o.index < boot.dirEntriesCount
  {
    var bps := boot.bytesPerSector;
    if !FatSizeFits(boot) then Undefined(FatSizeOverflow)
    else if !SectorsInImage(data, bps, boot.reservedSectors, boot.sectorsPerFat) then Failed(FatUnreadable)
    else if bps == 0 then Undefined(DivisionByZero)
    else if !SectorsInImage(data, bps, RootDirLba(boot), RootDirSectors(boot)) then Failed(RootDirectoryUnreadable)
    else
      RootDirSectorsBounds(boot);
      ScanRoot(boot, SectorBytes(data, bps, RootDirLba(boot), RootDirSectors(boot)), name)
  }

  /**
    With the seek tested as intended, looking a name up on a seekable image
    opened at its start is the reference lookup over the image's regions.
   */
  lemma {:induction false} IntendedLookupIsImageLookup(data: seq<Byte>, name: seq<Byte>)
    requires |name| == NAME_SIZE
    ensures LookupOnImage(Intended, Stream(data, 0, true), name) == ImageLookup(data, name)
  {
    var s0 := Stream(data, 0, true);
    FreadComplete(s0, BOOT_SECTOR_SIZE, 1);
    var bootRead := Fread(s0, BOOT_SECTOR_SIZE, 1);
    if |data| >= BOOT_SECTOR_SIZE {
      assert bootRead.bytes == data[..BOOT_SECTOR_SIZE];
      var boot := DecodeBootSector(bootRead.bytes);
      var bps := boot.bytesPerSector;
      if FatSizeFits(boot) {
        IntendedReadSectors(bootRead.after, bps, boot.reservedSectors, boot.sectorsPerFat);
        var fat := ReadSectors(Intended, bootRead.after, bps, boot.reservedSectors, boot.sectorsPerFat);
        if fat.ok && bps > 0 {
          IntendedReadSectors(fat.after, bps, RootDirLba(boot), RootDirSectors(boot));
        }
      }
    }
  }

  /**
    As written, on a seekable image the lookup never gets past the FAT: it
    ends with the boot sector unread, with the FAT unread, or in the
    undefined allocation size.
   */
  lemma AsWrittenSeekableStopsAtFat(s0: Stream, name: seq<Byte>)
    requires s0.seekable && |name| == NAME_SIZE
    ensures LookupOnImage(AsWritten, s0, name) in
      {Failed(BootSectorUnreadable), Failed(FatUnreadable), Undefined(FatSizeOverflow)}
  {
    FreadComplete(s0, BOOT_SECTOR_SIZE, 1);
    var bootRead := Fread(s0, BOOT_SECTOR_SIZE, 1);
    if bootRead.items > 0 {
      var boot := DecodeBootSector(bootRead.bytes);
      AsWrittenSeekSuccessFails(bootRead.after, boot.bytesPerSector, boot.reservedSectors, boot.sectorsPerFat);
    }
  }

  /**
    Reference lookup over an image that cannot be positioned, such as one
    piped in: each region is read where the previous one ended. The header is
    the first 55 bytes, the FAT the `sectors_per_fat` sectors straight after
    it and the root directory the sectors straight after those, wherever
    `reserved_sectors` and the FAT copies put them in the image.
   */
  function SequentialLookup(data: seq<Byte>, name: seq<Byte>): (o: Outcome)
    requires |name| == NAME_SIZE
    ensures o == Failed(BootSectorUnreadable) <==> |data| < BOOT_SECTOR_SIZE
    ensures o.Found? ==> o.entry.name == name
  {
    if |data| < BOOT_SECTOR_SIZE then Failed(BootSectorUnreadable)
    else SequentialRegions(data, DecodeBootSector(data[..BOOT_SECTOR_SIZE]), name)
  }

  /** The sequential reference lookup once the header `boot` is known. */
  function SequentialRegions(data: seq<Byte>, boot: BootSector, name: seq<Byte>): (o: Outcome)
    requires |name| == NAME_SIZE
    ensures o.Failed? ==> o.failure in {FatUnreadable, RootDirectoryUnreadable, FileNotFound}
    ensures o.Found? ==> o.entry.name == name
  {
    var bps := boot.bytesPerSector;
    if !FatSizeFits(boot) then Undefined(FatSizeOverflow)
    else if !RunInImage(data, BOOT_SECTOR_SIZE, bps, boot.sectorsPerFat) then Failed(FatUnreadable)
    else if bps == 0 then Undefined(DivisionByZero)
    else SequentialRoot(data, boot, BOOT_SECTOR_SIZE + FatBytes(boot), name)
  }

  /** The sequential reference lookup from the root directory on, which starts at byte `at`. */
  function SequentialRoot(data: seq<Byte>, boot: BootSector, at: nat, name: seq<Byte>): (o: Outcome)
    requires |name| == NAME_SIZE && boot.bytesPerSector > 0
    ensures o.Failed? ==> o.failure == RootDirectoryUnreadable || o.failure == FileNotFound
    ensures o.Found? ==> o.entry.name == name
  {
    var sectors := RootDirSectors(boot);
    if !RunInImage(data, at, boot.bytesPerSector, sectors) then Failed(RootDirectoryUnreadable)
    else RootDirSectorsBounds(boot); ScanRoot(boot, RunBytes(data, at, boot.bytesPerSector, sectors), name)
  }

  /**
    As written, looking a name up on an image that cannot be positioned is
    the sequential reference lookup: the FAT is taken from byte 55 on, not
    from sector `reserved_sectors`, and the root directory from the end of
    the FAT, not from sector `reserved_sectors + sectors_per_fat * fat_count`.
   */
  lemma {:induction false} AsWrittenUnseekableIsSequential(data: seq<Byte>, name: seq<Byte>)
    requires |name| == NAME_SIZE
    ensures LookupOnImage(AsWritten, Stream(data, 0, false), name) == SequentialLookup(data, name)
  {
    var s0 := Stream(data, 0, false);
    FreadComplete(s0, BOOT_SECTOR_SIZE, 1);
    var bootRead := Fread(s0, BOOT_SECTOR_SIZE, 1);
    if |data| >= BOOT_SECTOR_SIZE {
      assert bootRead.bytes == data[..BOOT_SECTOR_SIZE];
      assert bootRead.after == Stream(data, BOOT_SECTOR_SIZE, false);
      AsWrittenUnseekableRegions(data, DecodeBootSector(bootRead.bytes), name);
    }
  }

  /** The stages after the header, on an unpositionable stream standing at byte 55. */
  lemma {:induction false} AsWrittenUnseekableRegions(data: seq<Byte>, boot: BootSector, name: seq<Byte>)
    requires |name| == NAME_SIZE && |data| >= BOOT_SECTOR_SIZE
    ensures LoadFat(AsWritten, boot, Stream(data, BOOT_SECTOR_SIZE, false), name) == SequentialRegions(data, boot, name)
  {
    var bps := boot.bytesPerSector;
    var s1 := Stream(data, BOOT_SECTOR_SIZE, false);
    if FatSizeFits(boot) {
      AsWrittenSeekFailureReadsHere(s1, bps, boot.reservedSectors, boot.sectorsPerFat);
      var fat := ReadSectors(AsWritten, s1, bps, boot.reservedSectors, boot.sectorsPerFat);
      assert fat.ok <==> RunInImage(data, BOOT_SECTOR_SIZE, bps, boot.sectorsPerFat);
      if fat.ok {
        AsWrittenUnseekableAfterFat(data, boot, name);
      }
    }
  }

  /** Once the FAT has been read from byte 55 on, the stream stands at its end. */
  lemma {:induction false} AsWrittenUnseekableAfterFat(data: seq<Byte>, boot: BootSector, name: seq<Byte>)
    requires |name| == NAME_SIZE && |data| >= BOOT_SECTOR_SIZE && FatSizeFits(boot)
    requires RunInImage(data, BOOT_SECTOR_SIZE, boot.bytesPerSector, boot.sectorsPerFat)
    ensures LoadFat(AsWritten, boot, Stream(data, BOOT_SECTOR_SIZE, false), name) == SequentialRegions(data, boot, name)
  {
    var rootAt := BOOT_SECTOR_SIZE + FatBytes(boot);
    AsWrittenUnseekableFatRead(data, boot);
    LoadFatOnceRead(AsWritten, boot, Stream(data, BOOT_SECTOR_SIZE, false), name);
    if boot.bytesPerSector > 0 {
      AsWrittenUnseekableRoot(data, boot, rootAt, name);
    }
  }

  /** Once the FAT is read, the lookup goes on with the root directory from where the stream stands. */
  lemma LoadFatOnceRead(check: SeekCheck, boot: BootSector, s1: Stream, name: seq<Byte>)
    requires |name| == NAME_SIZE && FatSizeFits(boot)
    requires ReadSectors(check, s1, boot.bytesPerSector, boot.reservedSectors, boot.sectorsPerFat).ok
    ensures LoadFat(check, boot, s1, name) == LoadRootDirectory(check, boot,
      ReadSectors(check, s1, boot.bytesPerSector, boot.reservedSectors, boot.sectorsPerFat).after, name)
  {
  }

  /** The FAT read on an unpositionable stream at byte 55 that holds the whole FAT. */
  lemma AsWrittenUnseekableFatRead(data: seq<Byte>, boot: BootSector)
    requires |data| >= BOOT_SECTOR_SIZE && RunInImage(data, BOOT_SECTOR_SIZE, boot.bytesPerSector, boot.sectorsPerFat)
    ensures var fat := ReadSectors(AsWritten, Stream(data, BOOT_SECTOR_SIZE, false), boot.bytesPerSector,
                                   boot.reservedSectors, boot.sectorsPerFat);
      fat.ok && fat.after == Stream(data, BOOT_SECTOR_SIZE + FatBytes(boot), false)
  {
    AsWrittenSeekFailureReadsHere(Stream(data, BOOT_SECTOR_SIZE, false), boot.bytesPerSector,
                                  boot.reservedSectors, boot.sectorsPerFat);
  }

  /** The root directory stage, on an unpositionable stream standing at byte `at`. */
  lemma {:induction false} AsWrittenUnseekableRoot(data: seq<Byte>, boot: BootSector, at: nat, name: seq<Byte>)
    requires |name| == NAME_SIZE && boot.bytesPerSector > 0
    ensures LoadRootDirectory(AsWritten, boot, Stream(data, at, false), name) == SequentialRoot(data, boot, at, name)
  {
    var bps, sectors := boot.bytesPerSector, RootDirSectors(boot);
    var s2 := Stream(data, at, false);
    AsWrittenSeekFailureReadsHere(s2, bps, RootDirLba(boot), sectors);
    var root := ReadSectors(AsWritten, s2, bps, RootDirLba(boot), sectors);
    assert root.ok <==> RunInImage(data, at, bps, sectors);
  }
}
