/**
  fat.c as the program is written: process-wide state (`g_boot_sector`,
  `g_fat`, `g_root_directory`) that each stage overwrites, buffers that
  `fread` fills in place, and `main` running the stages in order, returning
  the first failing stage's code and freeing the buffers it allocated.
 */
module FatProgram {
  import opened Wrappers
  import opened Bytes
  import opened Layout
  import opened Stdio
  import opened FatSpec

  /** The globals of fat.c and the functions that work on them. */
  class FatReader {
    /** How `read_sectors` tests the seek: `AsWritten` is the program, `Intended` its correction. */
    const seekCheck: SeekCheck
    /** The 55 bytes of the packed global `g_boot_sector`. */
    const bootSector: array<Byte>
    /** `g_fat`: null until `read_fat` allocates it. */
    var fat: array?<Byte>
    /** `g_root_directory`, as the bytes its entries occupy: null until `read_root_directory` allocates it. */
    var rootDirectory: array?<Byte>
    /** Every buffer `malloc` returned, in order. */
    ghost var allocations: seq<array<Byte>>
    /** Every buffer passed to `free`, in order. */
    ghost var frees: seq<array<Byte>>

    ghost predicate Valid() {
      bootSector.Length == BOOT_SECTOR_SIZE
    }

    /** The program at start-up: globals zero-initialised, nothing allocated. */
    constructor (check: SeekCheck)
      ensures Valid() && seekCheck == check && fresh(bootSector)
      ensures bootSector[..] == seq(BOOT_SECTOR_SIZE, _ => 0)
      ensures fat == null && rootDirectory == null && allocations == [] && frees == []
    {
      seekCheck := check;
      bootSector := new Byte[BOOT_SECTOR_SIZE](_ => 0);
      fat, rootDirectory := null, null;
      allocations, frees := [], [];
    }

    /** The fields of `g_boot_sector`. */
    function Boot(): BootSector
      reads bootSector
      requires Valid()
    {
      DecodeBootSector(bootSector[..])
    }

    /**
      `read_boot_sector`: one `fread` of a whole 55-byte record into
      `g_boot_sector`; it succeeds exactly when the record was read in full.
     */
    method ReadBootSector(disk: Disk) returns (ok: bool)
      requires Valid()
      modifies disk`pos, bootSector
      ensures var r := Fread(old(disk.State()), BOOT_SECTOR_SIZE, 1);
        ok == (r.items > 0) && disk.State() == r.after
        && bootSector[..|r.bytes|] == r.bytes
        && bootSector[|r.bytes|..] == old(bootSector[|r.bytes|..])
      ensures ok <==> old(disk.State()).Available() >= BOOT_SECTOR_SIZE
      ensures ok ==> Boot() == DecodeBootSector(Fread(old(disk.State()), BOOT_SECTOR_SIZE, 1).bytes)
    {
      FreadComplete(disk.State(), BOOT_SECTOR_SIZE, 1);
      var items := disk.Read(bootSector, BOOT_SECTOR_SIZE, 1);
      ok := items > 0;
      if ok {
        assert bootSector[..] == bootSector[..BOOT_SECTOR_SIZE];
      }
    }

    /**
      `read_sectors`: seeks to sector `lba` and, when the seek result passes
      the test, reads `count` sectors into the front of `buffer`.
     */
    method ReadSectors(disk: Disk, lba: U32, count: U32, buffer: array<Byte>) returns (ok: bool)
      requires Valid() && buffer != bootSector
      requires count * Boot().bytesPerSector <= buffer.Length
      modifies disk`pos, buffer
      ensures var r := FatSpec.ReadSectors(seekCheck, old(disk.State()), Boot().bytesPerSector, lba, count);
        ok == r.ok && disk.State() == r.after
        && buffer[..|r.bytes|] == r.bytes
        && buffer[|r.bytes|..] == old(buffer[|r.bytes|..])
    {
      var bps := Boot().bytesPerSector;
      var offset := SectorOffset(bps, lba);
      ghost var seek := Fseek(disk.State(), offset);
      ghost var r := FatSpec.ReadSectors(seekCheck, disk.State(), bps, lba, count);
      ok := true;
      var rc := disk.Seek(offset);
      assert rc == seek.rc && disk.State() == seek.after;
      ok := ok && SeekAccepted(seekCheck, rc);
      if ok {
        ghost var read := Fread(seek.after, bps, count);
        assert r == SectorRead(read.items == count, read.bytes, read.after);
        assert bps * count == count * bps;
        var items := disk.Read(buffer, bps, count);
        ok := items == count;
      } else {
        assert r == SectorRead(false, [], seek.after);
      }
    }

    /**
      `read_fat`: allocates `sectors_per_fat * bytes_per_sector` bytes and
      reads `sectors_per_fat` sectors from sector `reserved_sectors` into them;
      a complete read fills the buffer exactly.
     */
    method ReadFat(disk: Disk) returns (ok: bool)
      requires Valid() && FatSizeFits(Boot())
      modifies this`fat, this`allocations, disk`pos
      ensures fat != null && fresh(fat) && fat.Length == FatBytes(Boot())
      ensures allocations == old(allocations) + [fat]
      ensures var r := FatSpec.ReadSectors(seekCheck, old(disk.State()), Boot().bytesPerSector,
                                           Boot().reservedSectors, Boot().sectorsPerFat);
        ok == r.ok && disk.State() == r.after && fat[..|r.bytes|] == r.bytes
        && (ok ==> |r.bytes| == fat.Length)
    {
      var b := Boot();
      fat := new Byte[b.sectorsPerFat * b.bytesPerSector];
      allocations := allocations + [fat];
      ok := ReadSectors(disk, b.reservedSectors, b.sectorsPerFat, fat);
    }

    /**
      `read_root_directory`: allocates and reads the ceiling of
      `32 * dir_entries_count / bytes_per_sector` sectors starting after the
      reserved sectors and every FAT copy; the buffer holds every entry.
     */
    method ReadRootDirectory(disk: Disk) returns (ok: bool)
      requires Valid() && Boot().bytesPerSector > 0
      modifies this`rootDirectory, this`allocations, disk`pos
      ensures rootDirectory != null && fresh(rootDirectory)
      ensures rootDirectory.Length == RootDirSectors(Boot()) * Boot().bytesPerSector
      ensures RootDirBytes(Boot()) <= rootDirectory.Length < RootDirBytes(Boot()) + Boot().bytesPerSector
      ensures allocations == old(allocations) + [rootDirectory]
      ensures var r := FatSpec.ReadSectors(seekCheck, old(disk.State()), Boot().bytesPerSector,
                                           RootDirLba(Boot()), RootDirSectors(Boot()));
        ok == r.ok && disk.State() == r.after && rootDirectory[..|r.bytes|] == r.bytes
        && (ok ==> |r.bytes| == rootDirectory.Length)
    {
      var b := Boot();
      var lba := RootDirLba(b);
      var sectors := RootDirSectors(b);
      RootDirSectorsBounds(b);
      rootDirectory := new Byte[sectors * b.bytesPerSector];
      allocations := allocations + [rootDirectory];
      ok := ReadSectors(disk, lba, sectors, rootDirectory);
    }

    /**
      `find_file`: the lowest slot below `dir_entries_count` whose 11 name
      bytes equal `name`, or none; no slot at or past `dir_entries_count` is
      looked at, and deleted or unused slots are compared like any other.
     */
    method FindFile(name: seq<Byte>) returns (r: Option<nat>)
      requires Valid() && |name| == NAME_SIZE && rootDirectory != null
      requires RootDirBytes(Boot()) <= rootDirectory.Length
      ensures r == FirstMatch(rootDirectory[..], Boot().dirEntriesCount, name)
    {
      var count := Boot().dirEntriesCount;
      ghost var root := rootDirectory[..];
      var i: nat := 0;
      while i < count
        invariant i <= count
        invariant forall j :: 0 <= j < i ==> EntryAt(root, j).name != name
      {
        if rootDirectory[DIR_ENTRY_SIZE * i..DIR_ENTRY_SIZE * i + NAME_SIZE] == name {
          assert EntryAt(root, i).name == name;
          r := Some(i);
          FirstMatchUnique(root, count, name, r);
          return;
        }
        i := i + 1;
      }
      r := None;
      FirstMatchUnique(root, count, name, r);
    }

    /**
      `main` given its argument count, the stream `fopen` returned for the
      image (null if it failed) and `argv[2]` with its terminating zero, of
      which `memcmp` reads the first 11 bytes: runs the stages in order and
      returns the first failing
      stage's exit code, or 0 when the name is found. On every path that
      exits, `g_fat` is freed if it was allocated and `g_root_directory`
      likewise, and the paths that stop before `read_fat` allocate and free
      nothing; the two undefined-behaviour outcomes promise nothing more.
     */
    method Run(argc: int, disk: Disk?, name: seq<Byte>) returns (status: Status)
      requires Valid() && fat == null && rootDirectory == null && allocations == [] && frees == []
      requires argc >= 3 ==> |name| >= NAME_SIZE
      modifies this, bootSector, disk
      ensures status == StatusOf(Lookup(seekCheck, argc, if disk == null then None else Some(old(disk.State())), name))
      ensures status == Exit(-1) || status == Exit(-2) ==> allocations == [] && frees == []
      ensures status == Exit(-3) ==> |allocations| == 1 && frees == allocations
      ensures status == Exit(-4) || status == Exit(-5) || status == Exit(0) ==>
        |allocations| == 2 && frees == allocations
    {
      if argc < 3 {
        return Exit(-1);
      }
      if disk == null {
        return Exit(-1);
      }
      ghost var s0 := disk.State();
      assert Lookup(seekCheck, argc, Some(s0), name) == LookupOnImage(seekCheck, s0, name[..NAME_SIZE]);
      status := RunStages(disk, name[..NAME_SIZE]);
    }

    /** The part of `main` after `fopen` succeeded: the four stages and the frees. */
    method RunStages(disk: Disk, name: seq<Byte>) returns (status: Status)
      requires Valid() && fat == null && rootDirectory == null && allocations == [] && frees == []
      requires |name| == NAME_SIZE
      modifies this, bootSector, disk
      ensures status == StatusOf(LookupOnImage(seekCheck, old(disk.State()), name))
      ensures status.Exit? ==> status.code in {-2, -3, -4, -5, 0}
      ensures status == Exit(-2) ==> allocations == [] && frees == []
      ensures status == Exit(-3) ==> |allocations| == 1 && frees == allocations
      ensures status == Exit(-4) || status == Exit(-5) || status == Exit(0) ==>
        |allocations| == 2 && frees == allocations
    {
      ghost var s0 := disk.State();
      ghost var bootRead := Fread(s0, BOOT_SECTOR_SIZE, 1);
      var ok := ReadBootSector(disk);
      if !ok {
        return Exit(-2);
      }
      var boot := Boot();
      assert LookupOnImage(seekCheck, s0, name) == LoadFat(seekCheck, boot, bootRead.after, name);
      if !FatSizeFits(boot) {
        return UndefinedBehaviour(FatSizeOverflow);
      }
      status := LoadAndScan(disk, name);
    }

    /** `main` from `read_fat` on, once the boot sector has been read. */
    method LoadAndScan(disk: Disk, name: seq<Byte>) returns (status: Status)
      requires Valid() && fat == null && rootDirectory == null && allocations == [] && frees == []
      requires |name| == NAME_SIZE && FatSizeFits(Boot())
      modifies this`fat, this`rootDirectory, this`allocations, this`frees, disk`pos
      ensures status == StatusOf(LoadFat(seekCheck, Boot(), old(disk.State()), name))
      ensures status.Exit? ==> status.code in {-3, -4, -5, 0}
      ensures status == Exit(-3) ==> |allocations| == 1 && frees == allocations
      ensures status != Exit(-3) && status.Exit? ==> |allocations| == 2 && frees == allocations
    {
      var boot := Boot();
      ghost var s1 := disk.State();
      ghost var fatRead := FatSpec.ReadSectors(seekCheck, s1, boot.bytesPerSector,
                                               boot.reservedSectors, boot.sectorsPerFat);
      var ok := ReadFat(disk);
      assert Boot() == boot;
      assert ok == fatRead.ok && disk.State() == fatRead.after;
      if !ok {
        frees := frees + [fat];  // free(g_fat)
        return Exit(-3);
      }
      assert LoadFat(seekCheck, boot, s1, name) == LoadRootDirectory(seekCheck, boot, fatRead.after, name);
      status := LoadRootAndScan(disk, name);
    }

    /** `main` from `read_root_directory` on, once the FAT has been read. */
    method LoadRootAndScan(disk: Disk, name: seq<Byte>) returns (status: Status)
      requires Valid() && fat != null && rootDirectory == null && allocations == [fat] && frees == []
      requires |name| == NAME_SIZE
      modifies this`rootDirectory, this`allocations, this`frees, disk`pos
      ensures status == StatusOf(LoadRootDirectory(seekCheck, Boot(), old(disk.State()), name))
      ensures status.Exit? ==> status.code in {-4, -5, 0}
      ensures status.Exit? ==> |allocations| == 2 && frees == allocations
    {
      var boot := Boot();
      if boot.bytesPerSector == 0 {
        return UndefinedBehaviour(DivisionByZero);
      }
      ghost var rootRead := FatSpec.ReadSectors(seekCheck, disk.State(), boot.bytesPerSector,
                                                RootDirLba(boot), RootDirSectors(boot));
      var ok := ReadRootDirectory(disk);
      assert Boot() == boot;
      assert ok == rootRead.ok && allocations == [fat, rootDirectory];
      if !ok {
        frees := frees + [fat];            // free(g_fat)
        frees := frees + [rootDirectory];  // free(g_root_directory)
        assert frees == allocations;
        return Exit(-4);
      }
      assert rootDirectory[..] == rootRead.bytes;
      status := ScanAndRelease(name);
    }

    /** The end of `main` once both tables are loaded: `find_file`, then both frees on either branch. */
    method ScanAndRelease(name: seq<Byte>) returns (status: Status)
      requires Valid() && fat != null && rootDirectory != null
      requires allocations == [fat, rootDirectory] && frees == []
      requires |name| == NAME_SIZE && RootDirBytes(Boot()) <= rootDirectory.Length
      modifies this`frees
      ensures status == StatusOf(ScanRoot(Boot(), rootDirectory[..], name))
      ensures status == Exit(-5) || status == Exit(0)
      ensures frees == allocations
    {
      ghost var o := ScanRoot(Boot(), rootDirectory[..], name);
      var fileEntry := FindFile(name);
      if fileEntry.None? {
        assert StatusOf(o) == Exit(-5);
        ReleaseBoth();
        return Exit(-5);
      }
      assert StatusOf(o) == Exit(0);
      ReleaseBoth();
      return Exit(0);
    }

    /** `free(g_fat); free(g_root_directory);`, as each exit after `read_root_directory` does. */
    method ReleaseBoth()
      requires fat != null && rootDirectory != null
      modifies this`frees
      ensures frees == old(frees) + [fat, rootDirectory]
    {
      frees := frees + [fat];            // free(g_fat)
      frees := frees + [rootDirectory];  // free(g_root_directory)
    }
  }
}
