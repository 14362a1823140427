/**
 The BIG archive format as launcher-asset-worker.js reads and writes it: a
 16-byte header, a directory of big-endian records with NUL-terminated paths,
 and the files' bytes.
 */
module BigFormat {
  import opened Common
  import opened Numbers

  const MAX_ENTRIES := 200000
  const MAX_DIRECTORY := 64 * 1024 * 1024
  const MAX_PATH := 260
  const MAGIC: Bytes := [0x42, 0x49, 0x47, 0x46]

  // ----- Reading

  datatype Entry = Entry(path: Bytes, offset: nat, size: nat)

  datatype BigError =
    | TooSmall
    | NotBig
    | BadSize(size: nat)
    | TooManyEntries(count: nat)
    | DirectoryTooLarge
    | EndedBefore(index: nat)
    | PathTooLong(index: nat)
    | NoTerminator(index: nat)
    | EmptyPath(index: nat)
    | PastEnd(index: nat)
    | OverlapsDirectory(index: nat)
    | MissingContent(keys: set<string>)

  /** The first NUL at or after `from`, or the end. */
  function FirstNul(bytes: Bytes, from: nat): (at: nat)
    requires from <= |bytes|
    ensures from <= at <= |bytes|
    ensures forall k :: from <= k < at ==> bytes[k] != 0
    ensures at < |bytes| ==> bytes[at] == 0
    decreases |bytes| - from
  {
    if from == |bytes| || bytes[from] == 0 then from else FirstNul(bytes, from + 1)
  }

  /** What the archive shows of its directory: everything after the header, as far as a directory may reach. */
  function Visible(archive: Bytes, archiveSize: nat): Bytes
    requires 16 <= archiveSize <= |archive|
  {
    archive[16..16 + Min(archiveSize - 16, MAX_DIRECTORY)]
  }

  /** The index-th record, which starts at `cursor`, and where the next one starts. */
  function ParseEntry(directory: Bytes, archiveSize: nat, cursor: nat, index: nat): Result<(Entry, nat), BigError>
    requires archiveSize >= 16 && |directory| == Min(archiveSize - 16, MAX_DIRECTORY)
  {
    if cursor + 9 > MAX_DIRECTORY then Err(DirectoryTooLarge)
    else if cursor + 9 > archiveSize - 16 then Err(EndedBefore(index))
    else
      var end := FirstNul(directory, cursor + 8);
      var offset, size := ReadBigEndian(directory, cursor), ReadBigEndian(directory, cursor + 4);
      if end - cursor - 8 > MAX_PATH then Err(PathTooLong(index))
      else if end == |directory| then Err(if |directory| == MAX_DIRECTORY then DirectoryTooLarge
                                          else NoTerminator(index))
      else if end == cursor + 8 then Err(EmptyPath(index))
      else if offset + size > archiveSize then Err(PastEnd(index))
      else Ok((Entry(directory[cursor + 8..end], offset, size), end + 1))
  }

  /** The first `count` records, and where the next one would start. */
  function ParseEntries(directory: Bytes, archiveSize: nat, count: nat): (r: Result<(seq<Entry>, nat), BigError>)
    requires archiveSize >= 16 && |directory| == Min(archiveSize - 16, MAX_DIRECTORY)
    ensures r.Ok? ==> |r.value.0| == count && r.value.1 <= |directory|
  {
    if count == 0 then Ok(([], 0))
    else
      match ParseEntries(directory, archiveSize, count - 1)
      case Err(e) => Err(e)
      case Ok((entries, cursor)) =>
        match ParseEntry(directory, archiveSize, cursor, count - 1)
        case Err(e) => Err(e)
        case Ok((entry, next)) => Ok((entries + [entry], next))
  }

  /** The first of the entries with the lowest offset. */
  function Lowest(entries: seq<Entry>): (index: nat)
    requires entries != []
    ensures index < |entries|
    ensures forall i :: 0 <= i < |entries| ==> entries[index].offset <= entries[i].offset
    ensures forall i :: 0 <= i < index ==> entries[index].offset < entries[i].offset
  {
    if |entries| == 1 then 0
    else
      var before := Lowest(entries[..|entries| - 1]);
      if entries[|entries| - 1].offset < entries[before].offset then |entries| - 1 else before
  }

  function Keys(entries: seq<Entry>, key: Bytes -> string): set<string> {
    set i | 0 <= i < |entries| :: key(entries[i].path)
  }

  function CheckDirectory(directory: Bytes, archiveSize: nat, count: nat, required: set<string>, key: Bytes -> string)
    : Result<(nat, nat), BigError>
    requires archiveSize >= 16 && |directory| == Min(archiveSize - 16, MAX_DIRECTORY)
  {
    match ParseEntries(directory, archiveSize, count)
    case Err(e) => Err(e)
    case Ok((entries, cursor)) =>
      if entries != [] && entries[Lowest(entries)].offset < 16 + cursor then Err(OverlapsDirectory(Lowest(entries)))
      else if !(required <= Keys(entries, key)) then Err(MissingContent(required - Keys(entries, key)))
      else Ok((archiveSize, count))
  }

  /**
   Reading the whole directory at once. `key` is the lower-cased
   windows-1252 reading of a path, `required` the keys that must be present.
   */
  function Validate(archive: Bytes, required: set<string>, key: Bytes -> string): Result<(nat, nat), BigError> {
    if |archive| < 16 then Err(TooSmall)
    else if archive[..4] != MAGIC then Err(NotBig)
    else
      var archiveSize, count := ReadLittleEndian(archive, 4), ReadBigEndian(archive, 8);
      if archiveSize < 16 || archiveSize > |archive| then Err(BadSize(archiveSize))
      else if count > MAX_ENTRIES then Err(TooManyEntries(count))
      else CheckDirectory(Visible(archive, archiveSize), archiveSize, count, required, key)
  }

  /** A directory that fails to parse fails however many more entries are asked for. */
  lemma {:induction false} ErrorsPersist(directory: Bytes, archiveSize: nat, few: nat, many: nat)
    requires archiveSize >= 16 && |directory| == Min(archiveSize - 16, MAX_DIRECTORY)
    requires few <= many && ParseEntries(directory, archiveSize, few).Err?
    ensures ParseEntries(directory, archiveSize, many) == ParseEntries(directory, archiveSize, few)
  {
    if few < many {
      ErrorsPersist(directory, archiveSize, few, many - 1);
    }
  }

  // ----- What acceptance means

  ghost predicate ValidPath(path: Bytes) {
    1 <= |path| <= MAX_PATH && forall k :: 0 <= k < |path| ==> path[k] != 0
  }

  ghost function RecordsSize(entries: seq<Entry>): nat {
    if entries == [] then 0 else RecordsSize(entries[..|entries| - 1]) + 9 + |entries[|entries| - 1].path|
  }

  lemma {:induction false} ParsedEntriesFit(directory: Bytes, archiveSize: nat, count: nat)
    requires archiveSize >= 16 && |directory| == Min(archiveSize - 16, MAX_DIRECTORY)
    requires ParseEntries(directory, archiveSize, count).Ok?
    ensures var (entries, cursor) := ParseEntries(directory, archiveSize, count).value;
            && cursor == RecordsSize(entries)
            && forall i :: 0 <= i < |entries| ==>
                 ValidPath(entries[i].path) && entries[i].offset + entries[i].size <= archiveSize
  {
    hide Join;
    if count > 0 {
      ParsedEntriesFit(directory, archiveSize, count - 1);
      var (entries, cursor) := ParseEntries(directory, archiveSize, count).value;
      assert entries[..|entries| - 1] == ParseEntries(directory, archiveSize, count - 1).value.0;
    }
  }

  /** In an accepted archive every entry lies inside the archive and none starts inside the directory. */
  lemma AcceptedEntriesFit(archive: Bytes, required: set<string>, key: Bytes -> string)
    requires Validate(archive, required, key).Ok?
    ensures var archiveSize, count := ReadLittleEndian(archive, 4), ReadBigEndian(archive, 8);
            && 16 <= archiveSize <= |archive| && count <= MAX_ENTRIES
            && var parsed := ParseEntries(Visible(archive, archiveSize), archiveSize, count);
            && parsed.Ok?
            && var (entries, cursor) := parsed.value;
            && cursor == RecordsSize(entries) <= MAX_DIRECTORY
            && required <= Keys(entries, key)
            && forall i :: 0 <= i < |entries| ==>
                 && ValidPath(entries[i].path)
                 && 16 + cursor <= entries[i].offset <= entries[i].offset + entries[i].size <= archiveSize
  {
    hide Join, ParseEntries;
    var archiveSize, count := ReadLittleEndian(archive, 4), ReadBigEndian(archive, 8);
    ParsedEntriesFit(Visible(archive, archiveSize), archiveSize, count);
  }
}
