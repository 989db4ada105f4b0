/**
  A minimal FAT12 image built field by field: 512-byte sectors, one reserved
  sector, one FAT of one sector and a one-sector root directory of 16 slots
  whose first slot holds `KERNEL  BIN`. The lemmas follow the whole lookup
  over it, as the program tests the seek and as it is evidently meant to.
 */
module Scenario {
  import opened Wrappers
  import opened Bytes
  import opened Layout
  import opened Stdio
  import opened FatSpec

  /** `n` zero bytes. */
  function Zeros(n: nat): (r: seq<Byte>)
    ensures |r| == n && forall i :: 0 <= i < n ==> r[i] == 0
  {
    seq(n, _ => 0 as Byte)
  }

  /** The raw 8.3 name `KERNEL  BIN`. */
  const KERNEL_NAME: seq<Byte> := [75, 69, 82, 78, 69, 76, 32, 32, 66, 73, 78]
  /** The raw 8.3 name `MISSING BIN`. */
  const MISSING_NAME: seq<Byte> := [77, 73, 83, 83, 73, 78, 71, 32, 66, 73, 78]

  /** Every byte of `s` is zero. */
  predicate AllZero(s: seq<Byte>) {
    forall i :: 0 <= i < |s| ==> s[i] == 0
  }

  /** The scenario's geometry: 512-byte sectors, 1 reserved sector, 1 FAT of 1 sector, 16 root slots. */
  predicate ScenarioBoot(b: BootSector) {
    b.WellFormed() && b.bytesPerSector == 512 && b.sectorsPerCluster == 1
    && b.reservedSectors == 1 && b.fatCount == 1 && b.sectorsPerFat == 1
    && b.dirEntriesCount == 16
  }

  /**
    An image of three sectors: sector 0 starts with the header `boot`, sector 1
    is the FAT (any contents), sector 2 is the root directory, whose slot 0
    holds `kernel`, named `KERNEL  BIN`, and whose other 15 slots are zero.
   */
  predicate ScenarioImage(data: seq<Byte>, boot: BootSector, kernel: DirEntry) {
    ScenarioBoot(boot) && kernel.WellFormed() && kernel.name == KERNEL_NAME
    && |data| == 3 * 512
    && data[..BOOT_SECTOR_SIZE] == EncodeBootSector(boot)
    && data[1024..1056] == EncodeDirEntry(kernel)
    && AllZero(data[1056..])
  }

  /** The slot a name of zero bytes matches in the scenario: every field zero. */
  function ZeroSlot(name: seq<Byte>): DirEntry {
    DirEntry(name, 0, 0, 0, 0, 0, 0, 0, 0, 0, 0, 0)
  }

  /** Lays the scenario image out from its header, its FAT sector and its one file. */
  function BuildImage(boot: BootSector, fat: seq<Byte>, kernel: DirEntry): (data: seq<Byte>)
    requires ScenarioBoot(boot) && kernel.WellFormed() && kernel.name == KERNEL_NAME
    requires |fat| == 512
    ensures ScenarioImage(data, boot, kernel)
    ensures data[512..1024] == fat
  {
    Sectors(EncodeBootSector(boot), fat, EncodeDirEntry(kernel))
  }

  /** Three sectors: `header` zero-padded, `fat`, then `entry` zero-padded. */
  function Sectors(header: seq<Byte>, fat: seq<Byte>, entry: seq<Byte>): (data: seq<Byte>)
    requires |header| == BOOT_SECTOR_SIZE && |fat| == 512 && |entry| == DIR_ENTRY_SIZE
    ensures |data| == 3 * 512 && data[..BOOT_SECTOR_SIZE] == header
    ensures data[512..1024] == fat && data[1024..1056] == entry && AllZero(data[1056..])
  {
    var data := header + Zeros(457) + fat + entry + Zeros(480);
    assert data[..BOOT_SECTOR_SIZE] == header;
    assert data[512..1024] == fat;
    assert data[1024..1056] == entry;
    assert data[1056..] == Zeros(480);
    data
  }

  /**
    The scan over the scenario's root directory: `KERNEL  BIN` finds slot 0,
    a name of zero bytes finds the never-used slot 1 (the scan neither stops
    at nor skips empty slots), and every other name is not found.
   */
  lemma ScenarioScan(boot: BootSector, root: seq<Byte>, kernel: DirEntry, name: seq<Byte>)
    requires ScenarioBoot(boot) && kernel.WellFormed() && !AllZero(kernel.name) && |name| == NAME_SIZE
    requires |root| == 512 && root[..32] == EncodeDirEntry(kernel) && AllZero(root[32..])
    ensures ScanRoot(boot, root, name) ==
      if name == kernel.name then Found(0, kernel)
      else if AllZero(name) then Found(1, ZeroSlot(name))
      else Failed(FileNotFound)
  {
    assert EntryAt(root, 0) == kernel;
    ZeroSlotNames(root);
    if name == kernel.name {
      FirstMatchUnique(root, 16, name, Some(0));
    } else if AllZero(name) {
      assert name == EntryAt(root, 1).name;
      ZeroEntry(root[32..64]);
      assert root[32..64] == root[32..][..32];
      FirstMatchUnique(root, 16, name, Some(1));
    } else {
      FirstMatchUnique(root, 16, name, None);
    }
  }

  /** Past slot 0, every slot of the scenario's root directory has a name of zero bytes. */
  lemma ZeroSlotNames(root: seq<Byte>)
    requires |root| == 512 && AllZero(root[32..])
    ensures forall j :: 1 <= j < 16 ==> AllZero(EntryAt(root, j).name)
  {
    forall j | 1 <= j < 16
      ensures AllZero(EntryAt(root, j).name)
    {
      assert forall k :: 0 <= k < NAME_SIZE ==> EntryAt(root, j).name[k] == root[32..][32 * j - 32 + k];
    }
  }

  /** A slot of zero bytes decodes to the entry whose fields are all zero. */
  lemma ZeroEntry(s: seq<Byte>)
    requires |s| == DIR_ENTRY_SIZE && AllZero(s)
    ensures DecodeDirEntry(s) == ZeroSlot(s[..NAME_SIZE])
  {
  }

  /** The reference lookup over a scenario image, for every 11-byte name. */
  lemma ScenarioImageLookup(data: seq<Byte>, boot: BootSector, kernel: DirEntry, name: seq<Byte>)
    requires ScenarioImage(data, boot, kernel) && |name| == NAME_SIZE
    ensures ImageLookup(data, name) ==
      if name == KERNEL_NAME then Found(0, kernel)
      else if AllZero(name) then Found(1, ZeroSlot(name))
      else Failed(FileNotFound)
  {
    assert DecodeBootSector(data[..BOOT_SECTOR_SIZE]) == boot;
    assert SectorOffset(512, 1) == 512;
    assert SectorOffset(512, 2) == 1024;
    assert RootDirLba(boot) == 2;
    assert RootDirSectors(boot) == 1;
    var root := SectorBytes(data, 512, 2, 1);
    assert root == data[1024..1536];
    assert root[..32] == data[1024..1056];
    assert root[32..] == data[1056..];
    assert !AllZero(KERNEL_NAME) by { assert KERNEL_NAME[0] != 0; }
    ScenarioScan(boot, root, kernel, name);
  }

  /**
    With the seek tested as intended, `main` on a scenario image finds
    `KERNEL  BIN` in slot 0 with every field, size and first cluster
    included, as it was built, and exits with 0.
   */
  lemma IntendedFindsKernel(data: seq<Byte>, boot: BootSector, kernel: DirEntry)
    requires ScenarioImage(data, boot, kernel)
    ensures var o := Lookup(Intended, 3, Some(Stream(data, 0, true)), KERNEL_NAME);
      o == Found(0, kernel) && o.entry.size == kernel.size
      && o.entry.firstClusterLow == kernel.firstClusterLow
      && o.entry.firstClusterHigh == kernel.firstClusterHigh && StatusOf(o) == Exit(0)
  {
    assert KERNEL_NAME[..NAME_SIZE] == KERNEL_NAME;
    IntendedLookupIsImageLookup(data, KERNEL_NAME);
    ScenarioImageLookup(data, boot, kernel, KERNEL_NAME);
    assert Lookup(Intended, 3, Some(Stream(data, 0, true)), KERNEL_NAME) == Found(0, kernel);
  }

  /** With the seek tested as intended, `MISSING BIN` is not found: exit code -5. */
  lemma IntendedMissingNotFound(data: seq<Byte>, boot: BootSector, kernel: DirEntry)
    requires ScenarioImage(data, boot, kernel)
    ensures var o := Lookup(Intended, 3, Some(Stream(data, 0, true)), MISSING_NAME);
      o == Failed(FileNotFound) && StatusOf(o) == Exit(-5)
  {
    assert MISSING_NAME[..NAME_SIZE] == MISSING_NAME;
    IntendedLookupIsImageLookup(data, MISSING_NAME);
    assert MISSING_NAME[0] != KERNEL_NAME[0] && MISSING_NAME[0] != 0;
    ScenarioImageLookup(data, boot, kernel, MISSING_NAME);
    assert Lookup(Intended, 3, Some(Stream(data, 0, true)), MISSING_NAME) == Failed(FileNotFound);
    FailureStatuses();
  }

  /** The exit codes of the two failures the scenario reaches. */
  lemma FailureStatuses()
    ensures StatusOf(Failed(FileNotFound)) == Exit(-5)
    ensures StatusOf(Failed(FatUnreadable)) == Exit(-3)
  {
  }

  /**
    With the seek tested as written, a scenario image fails at the FAT: the
    seek to sector 1 succeeds, which the test reads as failure, so `main`
    exits with -3 whatever the name.
   */
  lemma AsWrittenFailsAtFat(data: seq<Byte>, boot: BootSector, kernel: DirEntry, name: seq<Byte>)
    requires ScenarioImage(data, boot, kernel) && |name| == NAME_SIZE
    ensures var o := Lookup(AsWritten, 3, Some(Stream(data, 0, true)), name);
      o == Failed(FatUnreadable) && StatusOf(o) == Exit(-3)
  {
    assert name[..NAME_SIZE] == name;
    AsWrittenImageFailsAtFat(data, boot, kernel, name);
    FailureStatuses();
  }

  /** The stages after `fopen`: the header is read, then the FAT read fails. */
  lemma AsWrittenImageFailsAtFat(data: seq<Byte>, boot: BootSector, kernel: DirEntry, name: seq<Byte>)
    requires ScenarioImage(data, boot, kernel) && |name| == NAME_SIZE
    ensures LookupOnImage(AsWritten, Stream(data, 0, true), name) == Failed(FatUnreadable)
  {
    var s0 := Stream(data, 0, true);
    FreadComplete(s0, BOOT_SECTOR_SIZE, 1);
    var bootRead := Fread(s0, BOOT_SECTOR_SIZE, 1);
    assert bootRead.bytes == data[..BOOT_SECTOR_SIZE];
    assert DecodeBootSector(bootRead.bytes) == boot;
    AsWrittenSeekSuccessFails(bootRead.after, 512, 1, 1);
  }
}
