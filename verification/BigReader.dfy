/**
 validateBigReader (WebAssembly/harness/launcher-asset-worker.js:195-276):
 the directory is read in chunks into a growing buffer, and the outcome is
 that of reading it at once.
 */
module BigReader {
  import opened Common
  import opened Numbers
  import opened BigFormat

  const CHUNK := 64 * 1024
  const LINEAR_GROWTH_LIMIT := CHUNK * 4

  lemma VisibleSlice(archive: Bytes, archiveSize: nat, from: nat, to: nat)
    requires 16 <= archiveSize <= |archive| && from <= to <= |Visible(archive, archiveSize)|
    ensures Visible(archive, archiveSize)[from..to] == archive[16 + from..16 + to]
  {
    SliceOfSlice(archive, 16, 16 + |Visible(archive, archiveSize)|, from, to);
  }

  lemma PrefixGrows(before: Bytes, after: Bytes, whole: Bytes, length: nat, next: Bytes)
    requires length + |next| <= |before| == |after| && length + |next| <= |whole|
    requires before[..length] == whole[..length] && next == whole[length..length + |next|]
    requires forall k :: 0 <= k < |after| ==>
               after[k] == if length <= k < length + |next| then next[k - length] else before[k]
    ensures after[..length + |next|] == whole[..length + |next|]
  {
    forall k | 0 <= k < length + |next| ensures after[k] == whole[k] {
      if k < length {
        assert before[k] == before[..length][k];
      }
    }
  }

  /** The buffer that `ensure` fills: always the start of what the archive shows of its directory. */
  class DirectoryBuffer {
    const archive: Bytes
    const archiveSize: nat
    var directory: array<Byte>
    var length: nat

    ghost predicate Valid()
      reads this, directory
    {
      && 16 <= archiveSize <= |archive|
      && length <= directory.Length <= MAX_DIRECTORY
      && length <= |Visible(archive, archiveSize)|
      && directory[..length] == Visible(archive, archiveSize)[..length]
    }

    constructor (archive: Bytes, archiveSize: nat)
      requires 16 <= archiveSize <= |archive|
      ensures Valid() && fresh(directory) && this.archive == archive && this.archiveSize == archiveSize
    {
      this.archive, this.archiveSize := archive, archiveSize;
      directory := new Byte[0];
      length := 0;
    }

    /** Room for `needed` bytes: by chunks at first, then by doubling up to the limit. */
    method Grow(needed: nat)
      requires Valid() && directory.Length < needed <= MAX_DIRECTORY
      modifies this`directory
      ensures Valid() && fresh(directory) && directory.Length >= needed
    {
      var capacity := directory.Length;
      while capacity < needed
        invariant directory.Length <= capacity <= MAX_DIRECTORY
      {
        capacity := if capacity < LINEAR_GROWTH_LIMIT then capacity + CHUNK else Min(capacity * 2, MAX_DIRECTORY);
      }
      var expanded := new Byte[capacity](_ => 0);
      forall k | 0 <= k < length {
        expanded[k] := directory[k];
      }
      assert expanded[..length] == directory[..length];
      directory := expanded;
    }

    /** Appends bytes that follow those already there. */
    method Append(next: Bytes)
      requires Valid() && length + |next| <= |Visible(archive, archiveSize)|
      requires next == Visible(archive, archiveSize)[length..length + |next|]
      modifies this, directory
      ensures Valid() && length == old(length) + |next| && (directory == old(directory) || fresh(directory))
    {
      ghost var visible := Visible(archive, archiveSize);
      if length + |next| > directory.Length {
        Grow(length + |next|);
      }
      ghost var before := directory[..];
      assert before[..length] == visible[..length];
      Put(directory, length, next);
      PrefixGrows(before, directory[..], visible, length, next);
      length := length + |next|;
    }

    method Ensure(needed: nat, ended: BigError) returns (failure: Option<BigError>)
      requires Valid()
      modifies this, directory
      ensures Valid() && length >= old(length) && (directory == old(directory) || fresh(directory))
      ensures failure == if needed > MAX_DIRECTORY then Some(DirectoryTooLarge)
                         else if needed > archiveSize - 16 then Some(ended)
                         else None
      ensures failure.None? ==> length >= needed
    {
      if needed > MAX_DIRECTORY {
        return Some(DirectoryTooLarge);
      }
      if needed > archiveSize - 16 {
        return Some(ended);
      }
      while length < needed
        invariant Valid() && length >= old(length) && (directory == old(directory) || fresh(directory))
      {
        var start := 16 + length;
        var size := Min(CHUNK, Min(archiveSize - start, MAX_DIRECTORY - length));
        var next := archive[start..start + size];
        VisibleSlice(archive, archiveSize, length, length + size);
        Append(next);
      }
      return None;
    }
  }

  /** How a path's terminator comes out of the whole directory. */
  function Terminator(visible: Bytes, cursor: nat, index: nat): Result<nat, BigError>
    requires cursor + 8 <= |visible|
  {
    var end := FirstNul(visible, cursor + 8);
    if end - cursor - 8 > MAX_PATH then Err(PathTooLong(index))
    else if end == |visible| then Err(if |visible| == MAX_DIRECTORY then DirectoryTooLarge else NoTerminator(index))
    else Ok(end)
  }

  /** Scans for a path's terminator, fetching more of the directory whenever the scan runs out of it. */
  method FindTerminator(buffer: DirectoryBuffer, cursor: nat, index: nat) returns (r: Result<nat, BigError>)
    requires buffer.Valid() && cursor + 9 <= buffer.length
    modifies buffer, buffer.directory
    ensures buffer.Valid() && buffer.length >= old(buffer.length)
    ensures buffer.directory == old(buffer.directory) || fresh(buffer.directory)
    ensures r == Terminator(Visible(buffer.archive, buffer.archiveSize), cursor, index)
    ensures r.Ok? ==> cursor + 8 <= r.value < buffer.length
  {
    ghost var visible := Visible(buffer.archive, buffer.archiveSize);
    var pathEnd := cursor + 8;
    while true
      invariant buffer.Valid() && buffer.length >= old(buffer.length)
      invariant buffer.directory == old(buffer.directory) || fresh(buffer.directory)
      invariant cursor + 8 <= pathEnd <= buffer.length
      invariant forall k :: cursor + 8 <= k < pathEnd ==> visible[k] != 0
      decreases |visible| - buffer.length
    {
      while pathEnd < buffer.length && buffer.directory[pathEnd] != 0
        invariant cursor + 8 <= pathEnd <= buffer.length
        invariant forall k :: cursor + 8 <= k < pathEnd ==> visible[k] != 0
      {
        assert buffer.directory[pathEnd] == buffer.directory[..buffer.length][pathEnd];
        pathEnd := pathEnd + 1;
      }
      if pathEnd - cursor - 8 > MAX_PATH {
        return Err(PathTooLong(index));
      }
      if pathEnd < buffer.length {
        assert buffer.directory[pathEnd] == buffer.directory[..buffer.length][pathEnd];
        return Ok(pathEnd);
      }
      var failure := buffer.Ensure(buffer.length + 1, NoTerminator(index));
      if failure.Some? {
        return Err(failure.value);
      }
    }
  }

  /** Reads one record, as if from the whole directory. */
  method ReadRecord(buffer: DirectoryBuffer, cursor: nat, index: nat) returns (r: Result<(Entry, nat), BigError>)
    requires buffer.Valid()
    modifies buffer, buffer.directory
    ensures buffer.Valid() && (buffer.directory == old(buffer.directory) || fresh(buffer.directory))
    ensures r == ParseEntry(Visible(buffer.archive, buffer.archiveSize), buffer.archiveSize, cursor, index)
  {
    hide Join, FirstNul;
    var failure := buffer.Ensure(cursor + 9, EndedBefore(index));
    if failure.Some? {
      return Err(failure.value);
    }
    var offset := ReadBigEndian(buffer.directory[..buffer.length], cursor);
    var size := ReadBigEndian(buffer.directory[..buffer.length], cursor + 4);
    var terminator := FindTerminator(buffer, cursor, index);
    if terminator.Err? {
      return Err(terminator.error);
    }
    var pathEnd := terminator.value;
    if pathEnd == cursor + 8 {
      return Err(EmptyPath(index));
    }
    var path := buffer.directory[..buffer.length][cursor + 8..pathEnd];
    assert path == Visible(buffer.archive, buffer.archiveSize)[cursor + 8..pathEnd];
    if offset + size > buffer.archiveSize {
      return Err(PastEnd(index));
    }
    return Ok((Entry(path, offset, size), pathEnd + 1));
  }

  /** The lowest offset so far, and the first entry that has it. */
  ghost predicate IsLowest(lowest: Option<(nat, nat)>, entries: seq<Entry>) {
    if entries == [] then lowest == None else lowest == Some((entries[Lowest(entries)].offset, Lowest(entries)))
  }

  lemma LowestOfMore(entries: seq<Entry>, entry: Entry)
    ensures var more := entries + [entry];
            Lowest(more) == if entries == [] || entry.offset < entries[Lowest(entries)].offset then |entries|
                else Lowest(entries)
  {
    assert (entries + [entry])[..|entries|] == entries;
  }

  lemma VisibleLength(archive: Bytes, archiveSize: nat)
    requires 16 <= archiveSize <= |archive|
    ensures |Visible(archive, archiveSize)| == Min(archiveSize - 16, MAX_DIRECTORY)
  {
  }

  lemma NoKeys(key: Bytes -> string)
    ensures Keys([], key) == {}
  {
  }

  lemma KeysOfMore(entries: seq<Entry>, entry: Entry, key: Bytes -> string)
    ensures Keys(entries + [entry], key) == Keys(entries, key) + {key(entry.path)}
  {
    var more := entries + [entry];
    assert forall i :: 0 <= i < |entries| ==> more[i] == entries[i];
    assert more[|entries|] == entry;
    forall k | k in Keys(entries, key) ensures k in Keys(more, key) {
      var i :| 0 <= i < |entries| && key(entries[i].path) == k;
      assert key(more[i].path) == k;
    }
  }

  method ReadDirectory(archive: Bytes, archiveSize: nat, entryCount: nat, required: set<string>, key: Bytes -> string)
    returns (r: Result<(nat, nat), BigError>)
    requires 16 <= archiveSize <= |archive|
    ensures r == CheckDirectory(Visible(archive, archiveSize), archiveSize, entryCount, required, key)
  {
    hide ParseEntry, Keys, Lowest, Visible;
    var buffer := new DirectoryBuffer(archive, archiveSize);
    var cursor := 0;
    var lowest: Option<(nat, nat)> := None;
    var missing := required;
    ghost var visible, entries: seq<Entry> := Visible(archive, archiveSize), [];
    VisibleLength(archive, archiveSize);
    NoKeys(key);
    for index := 0 to entryCount
      invariant buffer.Valid() && fresh(buffer.directory) && buffer.archive == archive
                && buffer.archiveSize == archiveSize
      invariant ParseEntries(visible, archiveSize, index) == Ok((entries, cursor))
      invariant IsLowest(lowest, entries)
      invariant missing == required - Keys(entries, key)
    {
      var record := ReadRecord(buffer, cursor, index);
      if record.Err? {
        ErrorsPersist(visible, archiveSize, index + 1, entryCount);
        return Err(record.error);
      }
      var (entry, next) := record.value;
      if missing != {} {
        missing := missing - {key(entry.path)};
      }
      if lowest.None? || entry.offset < lowest.value.0 {
        lowest := Some((entry.offset, index));
      }
      KeysOfMore(entries, entry, key);
      LowestOfMore(entries, entry);
      entries, cursor := entries + [entry], next;
    }
    if lowest.Some? && lowest.value.0 < 16 + cursor {
      return Err(OverlapsDirectory(lowest.value.1));
    }
    if missing != {} {
      return Err(MissingContent(missing));
    }
    return Ok((archiveSize, entryCount));
  }

  /** The whole validation, in chunks: its outcome is that of reading the directory at once. */
  method ValidateBig(archive: Bytes, required: set<string>, key: Bytes -> string)
    returns (r: Result<(nat, nat), BigError>)
    ensures r == Validate(archive, required, key)
  {
    if |archive| < 16 {
      return Err(TooSmall);
    }
    var header := archive[..16];
    if header[..4] != MAGIC {
      return Err(NotBig);
    }
    var archiveSize, entryCount := ReadLittleEndian(header, 4), ReadBigEndian(header, 8);
    if archiveSize < 16 || archiveSize > |archive| {
      return Err(BadSize(archiveSize));
    }
    if entryCount > MAX_ENTRIES {
      return Err(TooManyEntries(entryCount));
    }
    r := ReadDirectory(archive, archiveSize, entryCount, required, key);
  }
}
