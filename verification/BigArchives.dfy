/**
 Which archives are accepted (validateBig in
 WebAssembly/harness/launcher-asset-worker.js), told by their bytes.
 */
module BigArchives {
  import opened Common
  import opened Numbers
  import opened BigFormat
  import opened BigWriter
  import opened BigRoundTrip

  // ----- Archives

  function RecordOf(e: Entry): (bytes: Bytes)
    ensures |bytes| == 9 + |e.path|
  {
    BigEndian(e.offset) + BigEndian(e.size) + e.path + [0]
  }

  function DirectoryOf(entries: seq<Entry>): Bytes {
    if entries == [] then [] else DirectoryOf(entries[..|entries| - 1]) + RecordOf(entries[|entries| - 1])
  }

  /** A path that can be read back, and a stretch of the archive after the directory. */
  ghost predicate IsEntry(e: Entry, directoryEnd: nat, archiveSize: nat) {
    ValidPath(e.path) && directoryEnd <= e.offset && e.offset + e.size <= archiveSize
  }

  /**
   "BIGF", the size and the number of entries, four bytes of no matter, the
   records, and after them, wherever the records say, the contents; there may be
   gaps, overlaps and more bytes than the size says.
   */
  ghost predicate IsArchive(archive: Bytes, archiveSize: nat, entries: seq<Entry>) {
    var directory := DirectoryOf(entries);
    && 16 <= archiveSize <= |archive| && archiveSize < TWO_TO_32
    && archive[..4] == [0x42, 0x49, 0x47, 0x46]
    && archive[4..8] == LittleEndian(archiveSize)
    && archive[8..12] == BigEndian(|entries|)
    && |entries| <= 200000 && |directory| <= 64 * 1024 * 1024 && 16 + |directory| <= archiveSize
    && archive[16..16 + |directory|] == directory
    && forall i :: 0 <= i < |entries| ==> IsEntry(entries[i], 16 + |directory|, archiveSize)
  }

  ghost predicate HasAll(entries: seq<Entry>, required: set<string>, key: Bytes -> string) {
    forall k :: k in required ==> exists i :: 0 <= i < |entries| && key(entries[i].path) == k
  }

  // ----- Records

  lemma ReadBigEndianAt(bytes: Bytes, at: nat, value: nat)
    requires at + 4 <= |bytes| && value < TWO_TO_32
    ensures bytes[at..at + 4] == BigEndian(value) <==> ReadBigEndian(bytes, at) == value
  {
    hide Join, ByteAt;
    NumbersRoundTrip(value);
    BytesOfJoin(bytes[at], bytes[at + 1], bytes[at + 2], bytes[at + 3]);
    var four := bytes[at..at + 4];
    assert four == [bytes[at], bytes[at + 1], bytes[at + 2], bytes[at + 3]];
    if four == BigEndian(value) {
      assert four[0] == BigEndian(value)[0] && four[1] == BigEndian(value)[1];
      assert four[2] == BigEndian(value)[2] && four[3] == BigEndian(value)[3];
    }
  }

  lemma ReadLittleEndianAt(bytes: Bytes, at: nat, value: nat)
    requires at + 4 <= |bytes| && value < TWO_TO_32
    ensures bytes[at..at + 4] == LittleEndian(value) <==> ReadLittleEndian(bytes, at) == value
  {
    hide Join, ByteAt;
    NumbersRoundTrip(value);
    BytesOfJoin(bytes[at + 3], bytes[at + 2], bytes[at + 1], bytes[at]);
    var four := bytes[at..at + 4];
    assert four == [bytes[at], bytes[at + 1], bytes[at + 2], bytes[at + 3]];
    if four == LittleEndian(value) {
      assert four[0] == LittleEndian(value)[0] && four[1] == LittleEndian(value)[1];
      assert four[2] == LittleEndian(value)[2] && four[3] == LittleEndian(value)[3];
    }
  }

  lemma BytesOfJoin(b3: Byte, b2: Byte, b1: Byte, b0: Byte)
    ensures var n := Join(b3, b2, b1, b0);
            && 0 <= n < TWO_TO_32
            && ByteAt(n, 0) == b0 && ByteAt(n, 1) == b1 && ByteAt(n, 2) == b2 && ByteAt(n, 3) == b3
  {
    var n := Join(b3, b2, b1, b0);
    Split(n, b3 * 0x1_0000 + b2 * 0x100 + b1, b0);
    Split(n / 256, b3 * 0x100 + b2, b1);
    Split(n / 256 / 256, b3, b2);
  }

  lemma Split(n: nat, quotient: nat, rest: Byte)
    requires n == 256 * quotient + rest
    ensures n / 256 == quotient && n % 256 == rest
  {
  }

  /** A record that stands in the directory is read as the entry it was written for. */
  lemma RecordIsRead(directory: Bytes, archiveSize: nat, cursor: nat, index: nat, e: Entry)
    requires archiveSize >= 16 && |directory| == Min(archiveSize - 16, MAX_DIRECTORY) && archiveSize < TWO_TO_32
    requires cursor + 9 + |e.path| <= |directory| && directory[cursor..cursor + 9 + |e.path|] == RecordOf(e)
    requires ValidPath(e.path) && e.offset + e.size <= archiveSize
    ensures ParseEntry(directory, archiveSize, cursor, index) == Ok((e, cursor + 9 + |e.path|))
  {
    hide ParseEntry, BigEndian;
    RecordParses(directory, archiveSize, cursor, index, File(e.path, seq(e.size, _ => 0)), e.offset);
  }

  /** What is read as an entry stands in the directory as its record. */
  lemma ReadIsRecord(directory: Bytes, archiveSize: nat, cursor: nat, index: nat, e: Entry, next: nat)
    requires archiveSize >= 16 && |directory| == Min(archiveSize - 16, MAX_DIRECTORY) && archiveSize < TWO_TO_32
    requires ParseEntry(directory, archiveSize, cursor, index) == Ok((e, next))
    ensures ValidPath(e.path) && e.offset + e.size <= archiveSize
    ensures next == cursor + 9 + |e.path| <= |directory| && directory[cursor..next] == RecordOf(e)
  {
    hide BigEndian, Join, ByteAt;
    ReadBigEndianAt(directory, cursor, e.offset);
    ReadBigEndianAt(directory, cursor + 4, e.size);
    var record := directory[cursor..next];
    assert record == directory[cursor..cursor + 4] + directory[cursor + 4..cursor + 8] + directory[cursor + 8..next - 1]
                     + [directory[next - 1]];
  }

  lemma NextRecord(entries: seq<Entry>, k: nat)
    requires k < |entries|
    ensures DirectoryOf(entries[..k + 1]) == DirectoryOf(entries[..k]) + RecordOf(entries[k])
  {
    hide RecordOf;
    assert entries[..k + 1][..k] == entries[..k];
  }

  lemma {:induction false} DirectoryPrefix(entries: seq<Entry>, k: nat)
    requires k <= |entries|
    ensures DirectoryOf(entries[..k]) <= DirectoryOf(entries)
  {
    hide RecordOf;
    if k == |entries| {
      assert entries[..k] == entries;
    } else {
      assert entries[..|entries| - 1][..k] == entries[..k];
      DirectoryPrefix(entries[..|entries| - 1], k);
    }
  }

  /** The directory of an archive is read entry by entry. */
  lemma {:induction false} DirectoryIsRead(directory: Bytes, archiveSize: nat, entries: seq<Entry>, k: nat)
    requires archiveSize >= 16 && |directory| == Min(archiveSize - 16, MAX_DIRECTORY) && archiveSize < TWO_TO_32
    requires DirectoryOf(entries) <= directory && k <= |entries|
    requires forall i :: 0 <= i < |entries| ==>
               ValidPath(entries[i].path) && entries[i].offset + entries[i].size <= archiveSize
    ensures ParseEntries(directory, archiveSize, k) == Ok((entries[..k], |DirectoryOf(entries[..k])|))
  {
    hide ParseEntry, RecordOf, DirectoryOf;
    if k == 0 {
      NoEntries(entries);
    } else {
      DirectoryIsRead(directory, archiveSize, entries, k - 1);
      NextRecord(entries, k - 1);
      DirectoryPrefix(entries, k);
      var before, e := DirectoryOf(entries[..k - 1]), entries[k - 1];
      assert directory[..|before| + 9 + |e.path|] == before + RecordOf(e);
      assert directory[|before|..|before| + 9 + |e.path|] == RecordOf(e);
      RecordIsRead(directory, archiveSize, |before|, k - 1, e);
      assert entries[..k] == entries[..k - 1] + [e];
    }
  }

  lemma NoEntries(entries: seq<Entry>)
    ensures DirectoryOf(entries[..0]) == [] && entries[..0] == []
  {
  }

  /** What is read of a directory is what it says. */
  lemma {:induction false} ReadIsDirectory(directory: Bytes, archiveSize: nat, count: nat)
    requires archiveSize >= 16 && |directory| == Min(archiveSize - 16, MAX_DIRECTORY) && archiveSize < TWO_TO_32
    requires ParseEntries(directory, archiveSize, count).Ok?
    ensures var (entries, cursor) := ParseEntries(directory, archiveSize, count).value;
            && |entries| == count && cursor == |DirectoryOf(entries)| && DirectoryOf(entries) <= directory
            && forall i :: 0 <= i < |entries| ==>
                 ValidPath(entries[i].path) && entries[i].offset + entries[i].size <= archiveSize
  {
    hide ParseEntry, RecordOf, ValidPath;
    if count > 0 {
      ReadIsDirectory(directory, archiveSize, count - 1);
      var (before, cursor) := ParseEntries(directory, archiveSize, count - 1).value;
      var (e, next) := ParseEntry(directory, archiveSize, cursor, count - 1).value;
      ReadIsRecord(directory, archiveSize, cursor, count - 1, e, next);
      var entries := before + [e];
      assert entries[..count - 1] == before;
      assert directory[..next] == directory[..cursor] + directory[cursor..next];
    }
  }

  // ----- The header

  lemma HeaderIsRead(archive: Bytes, archiveSize: nat, count: nat)
    requires |archive| >= 16 && archiveSize < TWO_TO_32 && count < TWO_TO_32
    ensures archive[4..8] == LittleEndian(archiveSize) && archive[8..12] == BigEndian(count) <==>
            ReadLittleEndian(archive, 4) == archiveSize && ReadBigEndian(archive, 8) == count
  {
    hide BigEndian, LittleEndian, Join;
    ReadLittleEndianAt(archive, 4, archiveSize);
    ReadBigEndianAt(archive, 8, count);
  }

  lemma VisibleStart(archive: Bytes, archiveSize: nat, directory: Bytes)
    requires 16 <= archiveSize <= |archive| && |directory| <= MAX_DIRECTORY && 16 + |directory| <= archiveSize
    ensures archive[16..16 + |directory|] == directory <==> directory <= Visible(archive, archiveSize)
  {
    SliceOfSlice(archive, 16, 16 + Min(archiveSize - 16, MAX_DIRECTORY), 0, |directory|);
  }

  lemma LowestIsOutside(entries: seq<Entry>, directoryEnd: nat)
    requires entries != []
    ensures entries[Lowest(entries)].offset >= directoryEnd <==>
            forall i :: 0 <= i < |entries| ==> directoryEnd <= entries[i].offset
  {
  }

  lemma KeysAreAll(entries: seq<Entry>, required: set<string>, key: Bytes -> string)
    ensures required <= Keys(entries, key) <==> HasAll(entries, required, key)
  {
    if HasAll(entries, required, key) {
      forall k | k in required ensures k in Keys(entries, key) {
        var i :| 0 <= i < |entries| && key(entries[i].path) == k;
      }
    }
  }

  /** Every archive with the required contents is accepted. */
  lemma ArchiveIsAccepted(archive: Bytes, archiveSize: nat, entries: seq<Entry>, required: set<string>,
                          key: Bytes -> string)
    requires IsArchive(archive, archiveSize, entries) && HasAll(entries, required, key)
    ensures Validate(archive, required, key) == Ok((archiveSize, |entries|))
  {
    hide BigEndian, LittleEndian, Join, DirectoryOf, ParseEntries, Visible, Lowest, Keys, HasAll, ValidPath;
    var directory := DirectoryOf(entries);
    HeaderIsRead(archive, archiveSize, |entries|);
    VisibleStart(archive, archiveSize, directory);
    VisibleLength(archive, archiveSize);
    DirectoryIsRead(Visible(archive, archiveSize), archiveSize, entries, |entries|);
    assert entries[..|entries|] == entries;
    KeysAreAll(entries, required, key);
    if entries != [] {
      LowestIsOutside(entries, 16 + |directory|);
    }
  }

  lemma VisibleLength(archive: Bytes, archiveSize: nat)
    requires 16 <= archiveSize <= |archive|
    ensures |Visible(archive, archiveSize)| == Min(archiveSize - 16, MAX_DIRECTORY)
  {
  }

  /** Whatever is accepted is such an archive. */
  lemma AcceptedIsArchive(archive: Bytes, required: set<string>, key: Bytes -> string)
    returns (archiveSize: nat, entries: seq<Entry>)
    requires Validate(archive, required, key).Ok?
    ensures IsArchive(archive, archiveSize, entries) && HasAll(entries, required, key)
    ensures Validate(archive, required, key) == Ok((archiveSize, |entries|))
  {
    hide BigEndian, LittleEndian, Join, DirectoryOf, ParseEntries, Visible, Lowest, Keys, HasAll, ValidPath;
    archiveSize := ReadLittleEndian(archive, 4);
    var count := ReadBigEndian(archive, 8);
    SizeIsSmall(archive);
    VisibleLength(archive, archiveSize);
    ReadIsDirectory(Visible(archive, archiveSize), archiveSize, count);
    entries := ParseEntries(Visible(archive, archiveSize), archiveSize, count).value.0;
    HeaderIsRead(archive, archiveSize, count);
    VisibleStart(archive, archiveSize, DirectoryOf(entries));
    KeysAreAll(entries, required, key);
    if entries != [] {
      LowestIsOutside(entries, 16 + |DirectoryOf(entries)|);
    }
  }

  lemma SizeIsSmall(archive: Bytes)
    requires |archive| >= 16
    ensures 0 <= ReadLittleEndian(archive, 4) < TWO_TO_32
  {
    hide Join;
    BytesOfJoin(archive[7], archive[6], archive[5], archive[4]);
  }

  /** The archives accepted are exactly those, with the required contents among their entries. */
  lemma AcceptsExactlyArchives(archive: Bytes, required: set<string>, key: Bytes -> string)
    ensures Validate(archive, required, key).Ok? <==>
            exists archiveSize: nat, entries :: IsArchive(archive, archiveSize, entries)
                                                && HasAll(entries, required, key)
  {
    hide Validate, IsArchive, HasAll;
    if Validate(archive, required, key).Ok? {
      var archiveSize, entries := AcceptedIsArchive(archive, required, key);
    }
    if archiveSize: nat, entries :| IsArchive(archive, archiveSize, entries) && HasAll(entries, required, key) {
      ArchiveIsAccepted(archive, archiveSize, entries, required, key);
    }
  }
}
