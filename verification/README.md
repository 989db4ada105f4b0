# koftaOS FAT lookup tool, modelled in Dafny

`tools/fat/fat.c` is a small host tool that opens a FAT12/16 disk image and
looks a file up in the root directory. It takes the image path and the raw
11-byte 8.3 name (such as `KERNEL  BIN`). It reads the packed boot sector
header into a global. Then it allocates and reads the FAT and the root
directory. It scans the root directory's slots for the first one whose name
equals the argument. It exits with 0 when the name is found, and with -1 to
-5 naming the stage that failed.

The model has seven modules:

- `Bytes`: bytes, 16- and 32-bit unsigned integers, and their
  little-endian encoding.
- `Layout`: the two packed records, `BootSector` (55 bytes) and
  `DirectoryEntry` (32 bytes), as datatypes with decoders and encoders.
  Both directions of the byte round trip are proved.
- `Stdio`: a read-only binary stream with `fseek(SEEK_SET)` and `fread`,
  following sections 7.21.9.2 and 7.21.8.1 of ISO C11. It is a value
  (`Stream`) plus a class (`Disk`) whose position moves.
- `FatSpec`: every stage of the program as a function of the stream it
  reads, the whole lookup of `main` (`Lookup`), and two reference lookups
  over the image's bytes. `ImageLookup` reads each region at its sector's
  offset. It is proved equal to the stages when the seek is tested as
  intended and the image is a seekable stream opened at its first byte.
  `SequentialLookup` reads each region where the previous one ended. It is
  proved equal to the stages as written on a stream that cannot seek, such
  as a pipe, opened at its first byte.
- `FatProgram`: the program as written. The class `FatReader` holds the
  globals `g_boot_sector`, `g_fat` and `g_root_directory`. Its methods
  fill them in place. `FindFile` is the counting loop of `find_file`.
  `Run` is `main`, proved to return the status `Lookup` gives. On every
  path that exits with a code, it frees exactly the buffers it allocated.
  The two undefined-behaviour outcomes carry no promise about memory.
- `Scenario`: a three-sector image with 512-byte sectors, one reserved
  sector, one FAT sector and 16 root slots, the first holding
  `KERNEL  BIN`. The whole lookup is followed over it.
- `Wrappers`: `Option`.

`read_sectors` tests the result of `fseek` the wrong way round (see
Findings). The model therefore carries the test as a parameter: `AsWritten`
is the code, `Intended` the correction. Everything else is shared.

Where the code and the usual description of the format differ, the model
follows the code:

- The boot sector struct declares `oem_indentifier` as one byte, not eight.
  `bytes_per_sector` therefore sits at offset 4, and the record is 55 bytes
  rather than the standard BIOS parameter block.
- `read_boot_sector` reads that 55-byte record, not a whole sector.
- Nothing rejects `bytes_per_sector == 0`. Nothing checks the result of
  `malloc` or rejects a zero-sized FAT. With the seek tested as intended, a
  zero-sector FAT read succeeds, because `fread` of zero items returns 0,
  which equals the count.
- A seek that fails does not stop the read as written; only a seek that
  succeeds does. On a stream that cannot seek, the FAT is therefore read
  from byte 55, straight after the header, and the root directory straight
  after the FAT.
- `memcmp` compares the first 11 bytes of `argv[2]`. A longer argument is
  looked up by its first 11 bytes, so `KERNEL  BINX` finds `KERNEL  BIN`.

C's integer rules are written out:

- The seek offset `lba * bytes_per_sector` is `uint32_t` arithmetic
  (`Wrap32`).
- The FAT size `sectors_per_fat * bytes_per_sector` is a signed `int`
  product. Past `INT_MAX` it overflows, which is undefined behaviour.
- A zero `bytes_per_sector` in `read_root_directory` is a division by
  zero.

Both undefined cases are outcomes of their own (`UndefinedBehaviour`) rather
than preconditions.

## Model

| member | source | states |
|---|---|---|
| Bytes.LE16 | tools/fat/fat.c:12-36 | a 16-bit field of the packed records reads its low byte first and its high byte second |
| Bytes.LE32 | tools/fat/fat.c:12-36 | a 32-bit field's low half is the 16-bit field at its offset and its high half the one two bytes on |
| Bytes.Wrap32 | tools/fat/fat.c:72 | the `uint32_t` product is the true product when it fits and congruent to it modulo 2^32 otherwise |
| Bytes.Enc16 | tools/fat/fat.c:12-36 | the two little-endian bytes of a 16-bit field read back as that field |
| Bytes.Enc32 | tools/fat/fat.c:12-36 | the four little-endian bytes of a 32-bit field read back as that field |
| Bytes.Enc16OfLE16 | tools/fat/fat.c:12-36 | re-encoding a 16-bit field read from bytes gives back those two bytes |
| Bytes.Enc32OfLE32 | tools/fat/fat.c:12-36 | re-encoding a 32-bit field read from bytes gives back those four bytes |
| Layout.DecodeBootSector | tools/fat/fat.c:12-36 | the header cast over 55 bytes has a 3-byte jump, an 11-byte label and an 8-byte system id |
| Layout.EncodeBootSector | tools/fat/fat.c:12-36 | every header is stored in exactly 55 bytes that decode back to it field by field, unused fields included |
| Layout.BootSectorBytesRoundTrip | tools/fat/fat.c:12-36 | every 55-byte run is the encoding of the header it decodes to, so no byte of the record is lost or shared |
| Layout.EncodeGeometry | tools/fat/fat.c:14-20 | bytes 0 to 11 hold the jump at 0 to 2, the OEM byte at 3, `bytes_per_sector` at 4, `sectors_per_cluster` at 6, `reserved_sectors` at 7, `fat_count` at 9 and `dir_entries_count` at 10 |
| Layout.EncodeChs | tools/fat/fat.c:21-25 | bytes 12 to 20 hold `total_sectors` at 12, the media type at 14, `sectors_per_fat` at 15, `sectors_per_track` at 17 and `heads` at 19 |
| Layout.EncodeDrive | tools/fat/fat.c:26-31 | bytes 21 to 31 hold `hidden_sectors` at 21, `large_sector_count` at 25, then the drive number, the reserved byte and the signature at 29, 30 and 31 |
| Layout.EncodeVolume | tools/fat/fat.c:32-34 | bytes 32 to 54 hold `volume_id` at 32, the 11-byte label at 36 and the 8-byte system id at 47 |
| Layout.GeometryBytesRoundTrip | tools/fat/fat.c:14-20 | bytes 0 to 11 (jump, OEM byte, sector size, cluster size, reserved sectors, FAT count, root slots) survive decode and encode |
| Layout.ChsBytesRoundTrip | tools/fat/fat.c:21-25 | bytes 12 to 20 (total sectors, media type, FAT size, CHS geometry) survive decode and encode |
| Layout.DriveBytesRoundTrip | tools/fat/fat.c:26-31 | bytes 21 to 31 (hidden and large sector counts, drive, reserved byte, signature) survive decode and encode |
| Layout.VolumeBytesRoundTrip | tools/fat/fat.c:32-34 | bytes 32 to 54 (volume id, label, system id) survive decode and encode |
| Layout.DecodeBootSectorPrefix | tools/fat/fat.c:36 | the header depends on the first 55 bytes only |
| Layout.DecodeDirEntry | tools/fat/fat.c:39-54 | a slot cast over 32 bytes has an 11-byte name; where it reads every other field follows from `EncodeDirEntry` and `DirEntryBytesRoundTrip` |
| Layout.EncodeDirEntry | tools/fat/fat.c:39-54 | every slot is stored in exactly 32 bytes: the name at 0 to 10, `attributes` at 11, the reserved byte at 12, `created_time_tenths` at 13, then 16-bit `created_time` at 14, `created_date` at 16, `accessed_date` at 18, `first_cluster_high` at 20, `modified_time` at 22, `modified_date` at 24, `first_cluster_low` at 26, and the 32-bit `size` at 28; they decode back to it field by field |
| Layout.DirEntryBytesRoundTrip | tools/fat/fat.c:39-54 | every 32-byte run is the encoding of the slot it decodes to, so the decoder reads each field at the offset `EncodeDirEntry` stores it |
| Layout.EntryAt | tools/fat/fat.c:103 | `g_root_directory[i].name` is bytes `32*i` to `32*i+11` of the root directory buffer |
| Layout.EntryAtBytes | tools/fat/fat.c:103-104 | the entry `&g_root_directory[i]` points at is all of bytes `32*i` to `32*i+32`: it encodes back to exactly them, size and first cluster included |
| Stdio.Fseek | tools/fat/fat.c:72 | `fseek` returns 0 exactly on a seekable stream, and only then moves to the offset; the image never changes |
| Stdio.Fread | tools/fat/fat.c:64 | `fread` returns at most `count` items and reads at most `size*count` bytes, no more than remain; those bytes are the image's from the position on; the position advances past them |
| Stdio.FreadComplete | tools/fat/fat.c:73 | `fread` returns `count` exactly when `count` is 0 or `size*count` bytes remain with `size > 0`, and then it read all `size*count` bytes |
| Stdio.Disk.Open | tools/fat/fat.c:120 | a successfully opened image is read from its first byte |
| Stdio.Disk.Seek | tools/fat/fat.c:72 | the stream method returns and moves exactly as `Fseek` says |
| Stdio.Disk.Read | tools/fat/fat.c:73 | the stream method returns what `Fread` says, stores the bytes at the front of the buffer and leaves the rest of the buffer alone |
| FatSpec.SeekAccepted | tools/fat/fat.c:72 | the test `ok && (fseek(...))` as written lets the read go on exactly when `fseek` returned non-zero; the intended test exactly when it returned 0 (`SeekTestsDisagree`) |
| FatSpec.SeekTestsDisagree | tools/fat/fat.c:72 | for every `fseek` result, the test as written accepts it exactly when the intended test, which accepts only 0, rejects it |
| FatSpec.SectorOffset | tools/fat/fat.c:72 | the `uint32_t` seek offset `lba * bytes_per_sector`; its relation to the true product is `SectorOffsetWraps` |
| FatSpec.SectorOffsetWraps | tools/fat/fat.c:72 | the seek offset is the sector's true byte offset when it fits in 32 bits; past that it has wrapped to a smaller offset congruent to it modulo 2^32 |
| FatSpec.ReadSectors | tools/fat/fat.c:69-76 | `read_sectors` yields at most `count*bytes_per_sector` bytes and exactly that many when it succeeds; it never alters the image |
| FatSpec.AsWrittenSeekSuccessFails | tools/fat/fat.c:72 | as written, on a seekable stream `read_sectors` always fails, reads nothing, and leaves the stream at the sector's offset |
| FatSpec.AsWrittenSeekFailureReadsHere | tools/fat/fat.c:69-76 | as written, on a stream that cannot seek `read_sectors` reads from where the stream stands, whatever the sector: it succeeds exactly when `count` is 0 or `count*bytes_per_sector` bytes remain with `bytes_per_sector > 0`, then delivers those bytes and leaves the stream just past them |
| FatSpec.IntendedReadSectors | tools/fat/fat.c:69-76 | with the seek tested as intended, on a seekable stream `read_sectors` succeeds exactly when the whole sector range lies in the image, and then delivers exactly those bytes; a short read fails |
| FatSpec.SectorBytes | tools/fat/fat.c:69-76 | the sectors `[lba, lba+count)` of the image are `count*bytes_per_sector` bytes |
| FatSpec.FatBytes | tools/fat/fat.c:81 | the FAT allocation size `sectors_per_fat * bytes_per_sector`; when it is zero is `EmptyFat`, when it fits in an `int` is `FatSizeFits` |
| FatSpec.EmptyFat | tools/fat/fat.c:81 | the FAT allocation is of zero bytes exactly when `sectors_per_fat` or `bytes_per_sector` is 0; nothing rejects it |
| FatSpec.FatSizeFits | tools/fat/fat.c:81 | the `int` product fits whenever sectors are at most 32768 bytes, and overflows for the largest header values |
| FatSpec.RootDirLba | tools/fat/fat.c:89 | the root directory starts at or after `reserved_sectors` |
| FatSpec.RootDirBytes | tools/fat/fat.c:90 | `size`, 32 bytes per root directory slot; `RootDirSectorsBounds` relates it to the sectors read |
| FatSpec.RootDirSectors | tools/fat/fat.c:90-93 | the quotient of `size` by `bytes_per_sector`, plus one for a remainder; `RootDirSectorsBounds` proves it is the ceiling |
| FatSpec.RootDirSectorsBounds | tools/fat/fat.c:90-93 | the sector count is the ceiling of `32*dir_entries_count / bytes_per_sector`: the sectors hold every slot and waste less than one sector |
| FatSpec.FirstMatchFrom | tools/fat/fat.c:100-110 | the scan returns a slot below `dir_entries_count` whose name equals the argument with no earlier slot matching, or nothing when no slot matches; deleted and empty slots are compared like any other |
| FatSpec.FirstMatch | tools/fat/fat.c:100-110 | `find_file` returns the lowest slot below `dir_entries_count` whose name equals the argument, and returns NULL exactly when no such slot holds it |
| FatSpec.FirstMatchUnique | tools/fat/fat.c:100-110 | the first-match property determines the scan's result |
| FatSpec.ExitCode | tools/fat/fat.c:113-156 | every failing stage exits with a code between -5 and -1 |
| FatSpec.StatusOf | tools/fat/fat.c:113-156 | `main` returns 0 exactly when the name was found, and its behaviour is undefined exactly on the two undefined outcomes |
| FatSpec.LookupOnImage | tools/fat/fat.c:126-156 | after `fopen`, the boot sector stage fails exactly when fewer than 55 bytes remain; no later stage fails with an argument or `fopen` failure; a found entry carries the argument's name |
| FatSpec.LoadFat | tools/fat/fat.c:131-156 | from `read_fat` on, the FAT size is undefined behaviour exactly when it does not fit in an `int`, and the stage fails exactly when the size fits and `read_sectors` of the FAT fails; a found slot lies below `dir_entries_count` and carries the argument's name |
| FatSpec.LoadRootDirectory | tools/fat/fat.c:137-156 | from `read_root_directory` on, the outcome is undefined (a division by zero) exactly when `bytes_per_sector` is 0, and the stage fails exactly when the root read fails; any other failure is "not found" |
| FatSpec.ScanRoot | tools/fat/fat.c:144-150 | `find_file` over the loaded bytes either finds or fails with -5; a hit is the lowest slot below `dir_entries_count` holding the name and is that slot decoded; it fails exactly when no slot below `dir_entries_count` holds the name |
| FatSpec.Lookup | tools/fat/fat.c:113-124 | `main` fails with the argument error exactly when `argc < 3` and with the open error exactly when `fopen` returned NULL; a found entry's name is the first 11 bytes of `argv[2]` |
| FatSpec.ImageLookup | tools/fat/fat.c:62-110 | the reference lookup over an image's regions fails at the boot sector exactly when the image is shorter than 55 bytes, never with an argument or `fopen` failure, and a found entry carries the name |
| FatSpec.RegionLookup | tools/fat/fat.c:79-110 | once the header is known, the reference lookup fails only at the FAT, at the root directory or with "not found", and a found slot lies below `dir_entries_count` and carries the name |
| FatSpec.IntendedLookupIsImageLookup | tools/fat/fat.c:62-110 | with the seek tested as intended, `main`'s stages on a seekable image opened at its first byte equal the reference lookup: header from bytes 0 to 54, FAT at sector `reserved_sectors`, root directory after every FAT copy, first matching slot |
| FatSpec.AsWrittenSeekableStopsAtFat | tools/fat/fat.c:72 | as written, on any seekable image the lookup ends with the boot sector unread, the FAT unread, or the FAT size overflowing; it never reaches the root directory |
| FatSpec.SequentialLookup | tools/fat/fat.c:62-76 | the lookup that reads each region where the previous one ended fails at the boot sector exactly when the image is shorter than 55 bytes, and a found entry carries the name |
| FatSpec.SequentialRegions | tools/fat/fat.c:79-84 | once the header is known, the sequential lookup fails only at the FAT, at the root directory or with "not found", and a found entry carries the name |
| FatSpec.SequentialRoot | tools/fat/fat.c:87-97 | from the root directory on, the sequential lookup fails only at the root directory or with "not found", and a found entry carries the name |
| FatSpec.AsWrittenUnseekableIsSequential | tools/fat/fat.c:69-76 | as written, `main`'s stages on a stream that cannot seek, opened at its first byte, equal the sequential lookup: the FAT is read from byte 55 rather than from sector `reserved_sectors`, and the root directory from the end of the FAT |
| FatProgram.FatReader.constructor | tools/fat/fat.c:57-59 | the globals start zeroed and null, nothing allocated or freed |
| FatProgram.FatReader.ReadBootSector | tools/fat/fat.c:62-66 | `read_boot_sector` succeeds exactly when 55 bytes remain; `g_boot_sector` then holds the header those bytes decode to, and the stream moved past them |
| FatProgram.FatReader.ReadSectors | tools/fat/fat.c:69-76 | the method's result, stream and buffer contents are those of `FatSpec.ReadSectors`; bytes past what was read are untouched |
| FatProgram.FatReader.ReadFat | tools/fat/fat.c:79-84 | `read_fat` allocates a fresh `sectors_per_fat*bytes_per_sector` buffer and records the allocation; it reads `sectors_per_fat` sectors from `reserved_sectors`, and a success fills the buffer exactly |
| FatProgram.FatReader.ReadRootDirectory | tools/fat/fat.c:87-97 | `read_root_directory` allocates whole sectors holding every slot, less than a sector more than needed, and reads them from after the FATs |
| FatProgram.FatReader.FindFile | tools/fat/fat.c:100-110 | the counting loop returns the first slot index the scan specification names, or none |
| FatProgram.FatReader.Run | tools/fat/fat.c:113-156 | `main` returns the status of `FatSpec.Lookup`; exits -1 and -2 allocate nothing; exit -3 frees its one buffer; exits -4, -5 and 0 free both buffers |
| FatProgram.FatReader.RunStages | tools/fat/fat.c:126-156 | after `fopen`, the exit codes are -2 to -5 or 0, with the allocation and free trace of each |
| FatProgram.FatReader.LoadAndScan | tools/fat/fat.c:131-156 | from `read_fat` on, a failed FAT read exits -3 having freed `g_fat` |
| FatProgram.FatReader.LoadRootAndScan | tools/fat/fat.c:137-156 | from `read_root_directory` on, every exit frees both buffers |
| FatProgram.FatReader.ScanAndRelease | tools/fat/fat.c:144-155 | the scan exits -5 or 0 as the specification's scan says, after freeing both buffers |
| FatProgram.FatReader.ReleaseBoth | tools/fat/fat.c:152-153 | the two frees after `read_root_directory` append `g_fat` and then `g_root_directory` to the free trace, nothing else |
| Scenario.BuildImage | tools/fat/fat.c:12-54 | a header, a FAT sector and the kernel's slot laid out in three sectors form a scenario image |
| Scenario.ScenarioScan | tools/fat/fat.c:100-110 | over the scenario's root directory, `KERNEL  BIN` finds slot 0; eleven zero bytes find the never-used slot 1; every other name is not found |
| Scenario.ScenarioImageLookup | tools/fat/fat.c:62-110 | the reference lookup over a scenario image, for every 11-byte name |
| Scenario.IntendedFindsKernel | tools/fat/fat.c:113-156 | with the intended seek test, `main` finds `KERNEL  BIN` in slot 0 with size and first cluster as built, and exits 0 |
| Scenario.IntendedMissingNotFound | tools/fat/fat.c:144-150 | with the intended seek test, `MISSING BIN` is not found and `main` exits -5 |
| Scenario.AsWrittenFailsAtFat | tools/fat/fat.c:72 | as written, `main` on a scenario image exits -3 for every name |

## Left out

- The messages `main` prints and the program name in `argv[0]` are output only.
- `fopen` is a parameter: `Run` receives the opened stream or null. The image is never closed, in the model as in the program.
- `malloc` is taken to succeed. The contents of a fresh buffer beyond what `fread` wrote are not specified.
- Host byte order: the packed structs are read as little-endian, as on the x86 hosts the tool is built for.
- `FatSpec.Lookup`: `name` is `argv[2]` with its terminating zero, so a 10-character argument is passed as its characters followed by 0. The model requires at least 11 such bytes when three arguments are given. `memcmp` on an argument of 9 characters or fewer reads past its terminating zero into memory the model does not have.
- `Stdio.Fseek` assumes an LP64 `long`, so the `uint32_t` offset is never negative. An `fseek` past the end of the image succeeds, and the following read is short.
- The FAT is loaded but never interpreted, in the model as in the program. No cluster chain is followed.
- `FatProgram.FatReader.Run` is split into `RunStages`, `LoadAndScan`, `LoadRootAndScan` and `ScanAndRelease`, one per stage of `main`. The statements of `main` keep their order. `RunStages` and `LoadRootAndScan` add one exit each, returning `UndefinedBehaviour` where the C program's behaviour is undefined (the `int` overflow at fat.c:81 and the division at fat.c:91); `main` has no such statement.
- `Scenario`: the image is described by its layout (`ScenarioImage`) rather than by one literal byte string. Every image with that geometry and root directory is covered, whatever its other header fields and FAT contents.

## Findings

| source | as written | input that shows it | evidently intended | confidence | as-written member | corrected member |
|---|---|---|---|---|---|---|
| tools/fat/fat.c:72 | `ok = ok && (fseek(...))` passes when `fseek` returns non-zero, i.e. when the seek failed, and stops the read when it succeeded | any regular image file, e.g. a scenario image with `KERNEL  BIN`: the seek to sector 1 succeeds, `read_fat` reports failure and `main` exits -3 | `fseek(...) == 0`, so that a successful seek lets the sectors be read and the kernel is found with exit 0 | high; not executed | FatSpec.AsWrittenSeekableStopsAtFat, Scenario.AsWrittenFailsAtFat | FatSpec.IntendedReadSectors, FatSpec.IntendedLookupIsImageLookup, Scenario.IntendedFindsKernel |
