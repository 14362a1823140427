/**
 Cabinet folders (WebAssembly/harness/launcher-asset-worker.js:757-783 and
 1057-1089): a folder is a stream expanded block by block, each block against
 the bytes before it, and every file is a stretch of that stream.
 */
module Cabinet {
  import opened Common
  import opened Numbers

  datatype Entry = Entry(folderOffset: nat, size: nat)

  datatype Folder = Folder(dataOffset: nat, blockCount: nat, compression: nat)

  /** `source` is the cabinet file, `reserve` the per-block reserved bytes, `inflate` raw DEFLATE with a dictionary. */
  datatype Source = Source(source: Bytes, reserve: nat, inflate: (Bytes, Bytes) -> Option<Bytes>)

  datatype CabError =
    | NoEntries
    | EntryTooLarge
    | InvalidFolder
    | UnsupportedFolder
    | OutsideSource
    | BadSignature
    | InflateFailed
    | BlockSizeMismatch
    | EndedEarly
    | StorageFull
    | StorageMisbehaved
    | BadHeader(target: nat)

  const WINDOW := 32768

  // ----- The dictionary

  /** The last bytes of what has been expanded, as many as the window holds. */
  function Window(stream: Bytes): Bytes {
    stream[|stream| - Min(WINDOW, |stream|)..]
  }

  lemma WindowInTwo(previous: Bytes, block: Bytes)
    ensures var keep := Min(WINDOW, |previous| + |block|);
            var fromBlock := Min(keep, |block|);
            && keep - fromBlock <= |previous|
            && Window(previous + block) == previous[|previous| - (keep - fromBlock)..] + block[|block| - fromBlock..]
  {
    SliceAcrossAppend(previous, block, |previous| + |block| - Min(WINDOW, |previous| + |block|), |previous| + |block|);
  }

  method UpdatedDictionary(previous: Bytes, block: Bytes) returns (dictionary: Bytes)
    ensures dictionary == Window(previous + block)
  {
    hide Window;
    var keep := Min(WINDOW, |previous| + |block|);
    var buffer := new Byte[keep](_ => 0);
    var fromBlock := Min(keep, |block|);
    Put(buffer, keep - fromBlock, block[|block| - fromBlock..]);
    var fromPrevious := keep - fromBlock;
    if fromPrevious > 0 {
      Put(buffer, 0, previous[|previous| - fromPrevious..]);
    }
    WindowInTwo(previous, block);
    assert buffer[..] == previous[|previous| - fromPrevious..] + block[|block| - fromBlock..];
    return buffer[..];
  }

  /** Keeping only the window loses nothing: the next window depends on no more. */
  lemma WindowOfWindow(stream: Bytes, block: Bytes)
    ensures Window(Window(stream) + block) == Window(stream + block)
  {
    var skipped := |stream| - Min(WINDOW, |stream|);
    assert Window(stream) + block == (stream + block)[skipped..];
  }

  // ----- Expanding a folder

  function Payload(s: Source, compression: nat, compressed: Bytes, dictionary: Bytes): Result<Bytes, CabError> {
    if compression != 1 then Ok(compressed)
    else if |compressed| < 2 || compressed[0] != 0x43 || compressed[1] != 0x4b then Err(BadSignature)
    else
      var block := s.inflate(compressed[2..], dictionary);
      if block.None? then Err(InflateFailed) else Ok(block.value)
  }

  /** The block whose header is at `at`, and where the next header is. */
  function ReadBlock(s: Source, compression: nat, at: nat, dictionary: Bytes): Result<(Bytes, nat), CabError> {
    if at + 8 + s.reserve > |s.source| then Err(OutsideSource)
    else
      var compressedSize, size := Read16(s.source, at + 4), Read16(s.source, at + 6);
      var data := at + 8 + s.reserve;
      if data + compressedSize > |s.source| then Err(OutsideSource)
      else
        var block := Payload(s, compression, s.source[data..data + compressedSize], dictionary);
        if block.Err? then Err(block.error)
        else if |block.value| != size then Err(BlockSizeMismatch)
        else Ok((block.value, data + compressedSize))
  }

  /** The stream after at most `blocks` blocks, none read once `enough` bytes are there, and the next block's place. */
  function Expand(s: Source, folder: Folder, enough: nat, blocks: nat): Result<(Bytes, nat), CabError> {
    if blocks == 0 then Ok(([], folder.dataOffset))
    else
      match Expand(s, folder, enough, blocks - 1)
      case Err(e) => Err(e)
      case Ok((stream, at)) =>
        if |stream| >= enough then Ok((stream, at))
        else
          match ReadBlock(s, folder.compression, at, Window(stream))
          case Err(e) => Err(e)
          case Ok((block, next)) => Ok((stream + block, next))
  }

  lemma NothingExpanded(s: Source, folder: Folder, enough: nat)
    ensures Window([]) == [] && Expand(s, folder, enough, 0) == Ok(([], folder.dataOffset))
  {
  }

  lemma OneMoreBlock(s: Source, folder: Folder, enough: nat, blocks: nat, stream: Bytes, at: nat)
    requires Expand(s, folder, enough, blocks) == Ok((stream, at)) && |stream| < enough
    ensures Expand(s, folder, enough, blocks + 1) ==
            match ReadBlock(s, folder.compression, at, Window(stream))
            case Err(e) => Err(e)
            case Ok((block, next)) => Ok((stream + block, next))
  {
    hide ReadBlock, Window;
  }

  lemma {:induction false} ExpandSettles(s: Source, folder: Folder, enough: nat, few: nat, many: nat)
    requires few <= many
    requires var r := Expand(s, folder, enough, few); r.Err? || |r.value.0| >= enough
    ensures Expand(s, folder, enough, many) == Expand(s, folder, enough, few)
  {
    hide ReadBlock;
    if few < many {
      ExpandSettles(s, folder, enough, few, many - 1);
    }
  }

  function LastByte(entries: seq<Entry>): nat {
    if entries == [] then 0
    else
      var last := entries[|entries| - 1];
      Max(LastByte(entries[..|entries| - 1]), last.folderOffset + last.size)
  }

  lemma {:induction false} LastByteBounds(entries: seq<Entry>, i: nat)
    requires i < |entries|
    ensures entries[i].folderOffset + entries[i].size <= LastByte(entries)
  {
    if i < |entries| - 1 {
      LastByteBounds(entries[..|entries| - 1], i);
    }
  }

  /** The part of a stream that an entry occupies, as far as the stream goes. */
  function Part(stream: Bytes, entry: Entry): Bytes {
    if |stream| <= entry.folderOffset then []
    else stream[entry.folderOffset..Min(|stream|, entry.folderOffset + entry.size)]
  }

  /** What a group of entries of a folder must yield. */
  function Stream(s: Source, folder: Folder, entries: seq<Entry>): Result<Bytes, CabError> {
    match Expand(s, folder, LastByte(entries), folder.blockCount)
    case Err(e) => Err(e)
    case Ok((stream, _)) => if |stream| < LastByte(entries) then Err(EndedEarly) else Ok(stream)
  }

  // ----- One block and one entry

  /** Where a block and an entry overlap: the block's bytes, and their place in the entry; None if they do not. */
  function Overlap(folderCursor: nat, block: Bytes, entry: Entry): Option<(Bytes, nat)> {
    var entryEnd := entry.folderOffset + entry.size;
    if folderCursor + |block| <= entry.folderOffset || folderCursor >= entryEnd then None
    else
      var sourceStart := Max(0, entry.folderOffset - folderCursor);
      var sourceEnd := Min(|block|, entryEnd - folderCursor);
      Some((block[sourceStart..sourceEnd], Max(0, folderCursor - entry.folderOffset)))
  }

  lemma NothingMissing(stream: Bytes, block: Bytes, entry: Entry)
    requires |stream| + |block| <= entry.folderOffset || |stream| >= entry.folderOffset + entry.size
    ensures Part(stream + block, entry) == Part(stream, entry)
  {
    if |stream| > entry.folderOffset {
      SliceOfAppend(stream, block, entry.folderOffset, entry.folderOffset + entry.size);
    } else if |stream| + |block| > entry.folderOffset {
      assert entry.size == 0;
    }
  }

  lemma MissingSinceBefore(stream: Bytes, block: Bytes, entry: Entry)
    requires entry.folderOffset < |stream| < entry.folderOffset + entry.size
    ensures Part(stream + block, entry)
              == Part(stream, entry) + block[..Min(|block|, entry.folderOffset + entry.size - |stream|)]
    ensures |Part(stream, entry)| == |stream| - entry.folderOffset
  {
    SliceAcrossAppend(stream, block, entry.folderOffset,
                      Min(|stream| + |block|, entry.folderOffset + entry.size));
  }

  lemma MissingFromStart(stream: Bytes, block: Bytes, entry: Entry)
    requires |stream| <= entry.folderOffset < |stream| + |block|
    ensures Part(stream, entry) == []
    ensures Part(stream + block, entry)
              == block[entry.folderOffset - |stream|..Min(|block|, entry.folderOffset + entry.size - |stream|)]
  {
    var from, to := entry.folderOffset, Min(|stream| + |block|, entry.folderOffset + entry.size);
    var part := (stream + block)[from..to];
    assert |part| == to - from && forall k :: 0 <= k < |part| ==> part[k] == block[from - |stream| + k];
  }

  /** The overlap is what the entry was missing, at the place where it was missing it. */
  lemma OverlapContinues(stream: Bytes, block: Bytes, entry: Entry)
    ensures var overlap := Overlap(|stream|, block, entry);
            && (overlap.None? ==> Part(stream + block, entry) == Part(stream, entry))
            && (overlap.Some? ==> overlap.value.1 == |Part(stream, entry)|
                                  && Part(stream + block, entry) == Part(stream, entry) + overlap.value.0)
  {
    hide Part;
    if Overlap(|stream|, block, entry).None? {
      NothingMissing(stream, block, entry);
    } else if |stream| > entry.folderOffset {
      MissingSinceBefore(stream, block, entry);
    } else {
      MissingFromStart(stream, block, entry);
    }
  }

  lemma PartIsNoLarger(stream: Bytes, entry: Entry)
    ensures |Part(stream, entry)| <= entry.size
  {
  }

  /** An output buffer of the entry's size that holds its part of the stream so far. */
  ghost predicate Holds(output: Bytes, stream: Bytes, entry: Entry) {
    |output| == entry.size && Part(stream, entry) <= output
  }

  method CopyOverlap(output: array<Byte>, entry: Entry, ghost stream: Bytes, folderCursor: nat, block: Bytes)
    requires folderCursor == |stream| && Holds(output[..], stream, entry)
    modifies output
    ensures Holds(output[..], stream + block, entry)
  {
    hide Part;
    OverlapContinues(stream, block, entry);
    PartIsNoLarger(stream + block, entry);
    var blockEnd := folderCursor + |block|;
    var entryEnd := entry.folderOffset + entry.size;
    if blockEnd <= entry.folderOffset || folderCursor >= entryEnd {
      return;
    }
    var sourceStart := Max(0, entry.folderOffset - folderCursor);
    var sourceEnd := Min(|block|, entryEnd - folderCursor);
    var destination := Max(0, folderCursor - entry.folderOffset);
    ghost var before := output[..];
    Put(output, destination, block[sourceStart..sourceEnd]);
    assert output[..destination] == before[..destination];
  }

  ghost predicate AllHold(outputs: seq<array<Byte>>, stream: Bytes, entries: seq<Entry>)
    reads outputs
  {
    |outputs| == |entries| && forall i :: 0 <= i < |entries| ==> Holds(outputs[i][..], stream, entries[i])
  }

  lemma NothingHeld(outputs: seq<array<Byte>>, entries: seq<Entry>)
    requires |outputs| == |entries| && forall i :: 0 <= i < |entries| ==> outputs[i].Length == entries[i].size
    ensures AllHold(outputs, [], entries)
  {
  }

  /** Every buffer is exactly its entry's stretch of the stream. */
  ghost predicate Yield(outputs: seq<array<Byte>>, stream: Bytes, entries: seq<Entry>)
    reads outputs
  {
    |outputs| == |entries| &&
    forall i :: 0 <= i < |entries| ==>
      entries[i].folderOffset + entries[i].size <= |stream|
      && outputs[i][..] == stream[entries[i].folderOffset..entries[i].folderOffset + entries[i].size]
  }

  /** The inner loop of a block. */
  method CopyOverlaps(outputs: seq<array<Byte>>, entries: seq<Entry>, ghost stream: Bytes, folderCursor: nat,
                      block: Bytes)
    requires folderCursor == |stream| && Distinct(outputs) && AllHold(outputs, stream, entries)
    modifies outputs
    ensures AllHold(outputs, stream + block, entries)
  {
    hide Holds;
    for i := 0 to |entries|
      invariant forall k :: 0 <= k < i ==> Holds(outputs[k][..], stream + block, entries[k])
      invariant forall k :: i <= k < |entries| ==> Holds(outputs[k][..], stream, entries[k])
    {
      CopyOverlap(outputs[i], entries[i], stream, folderCursor, block);
    }
  }

  // ----- Reading a group of entries into memory (lines 1048-1091)

  method Unpack(s: Source, compression: nat, compressed: Bytes, dictionary: Bytes) returns (r: Result<Bytes, CabError>)
    ensures r == Payload(s, compression, compressed, dictionary)
  {
    if compression != 1 {
      return Ok(compressed);
    }
    if |compressed| < 2 || compressed[0] != 0x43 || compressed[1] != 0x4b {
      return Err(BadSignature);
    }
    match s.inflate(compressed[2..], dictionary) {
      case None => return Err(InflateFailed);
      case Some(block) => return Ok(block);
    }
  }

  lemma SizesInHeader(source: Bytes, from: nat, to: nat)
    requires from + 8 <= to <= |source|
    ensures Read16(source[from..to], 4) == Read16(source, from + 4)
    ensures Read16(source[from..to], 6) == Read16(source, from + 6)
  {
  }

  method NextBlock(s: Source, compression: nat, dataCursor: nat, dictionary: Bytes)
    returns (r: Result<(Bytes, nat), CabError>)
    ensures r == ReadBlock(s, compression, dataCursor, dictionary)
  {
    hide Payload, Read16;
    if dataCursor + 8 + s.reserve > |s.source| {
      return Err(OutsideSource);
    }
    var header := s.source[dataCursor..dataCursor + 8 + s.reserve];
    SizesInHeader(s.source, dataCursor, dataCursor + 8 + s.reserve);
    var compressedSize, uncompressedSize := Read16(header, 4), Read16(header, 6);
    var data := dataCursor + 8 + s.reserve;
    if data + compressedSize > |s.source| {
      return Err(OutsideSource);
    }
    var block := Unpack(s, compression, s.source[data..data + compressedSize], dictionary);
    if block.Err? {
      return Err(block.error);
    }
    if |block.value| != uncompressedSize {
      return Err(BlockSizeMismatch);
    }
    var end: nat := data + compressedSize;
    return Ok((block.value, end));
  }

  method FindLastByte(entries: seq<Entry>) returns (last: nat)
    ensures last == LastByte(entries)
  {
    last := 0;
    for i := 0 to |entries|
      invariant last == LastByte(entries[..i])
    {
      assert entries[..i + 1][..i] == entries[..i];
      last := Max(last, entries[i].folderOffset + entries[i].size);
    }
    assert entries[..|entries|] == entries;
  }

  method NewOutputs(entries: seq<Entry>) returns (outputs: seq<array<Byte>>)
    ensures |outputs| == |entries| && Distinct(outputs) && fresh(outputs)
    ensures forall i :: 0 <= i < |entries| ==> outputs[i].Length == entries[i].size
  {
    outputs := [];
    for i := 0 to |entries|
      invariant |outputs| == i && Distinct(outputs) && fresh(outputs)
      invariant forall k :: 0 <= k < i ==> outputs[k].Length == entries[k].size
    {
      var output := new Byte[entries[i].size](_ => 0);
      outputs := outputs + [output];
    }
  }

  /** Each buffer ends up with exactly its entry's stretch of the expanded folder. */
  method ReadGroup(s: Source, folder: Option<Folder>, entries: seq<Entry>, maxBytes: nat)
    returns (r: Result<seq<array<Byte>>, CabError>)
    ensures entries == [] ==> r == Err(NoEntries)
    ensures entries != [] && (exists i :: 0 <= i < |entries| && entries[i].size > maxBytes) ==> r == Err(EntryTooLarge)
    ensures entries != [] && (forall i :: 0 <= i < |entries| ==> entries[i].size <= maxBytes) ==>
              if folder.None? || folder.value.compression > 1 then r == Err(UnsupportedFolder)
              else match Stream(s, folder.value, entries)
                   case Err(e) => r == Err(e)
                   case Ok(stream) => r.Ok? && fresh(r.value) && Yield(r.value, stream, entries)
  {
    if |entries| == 0 {
      return Err(NoEntries);
    }
    if exists i :: 0 <= i < |entries| && entries[i].size > maxBytes {
      return Err(EntryTooLarge);
    }
    if folder.None? || folder.value.compression > 1 {
      return Err(UnsupportedFolder);
    }
    r := ReadFolder(s, folder.value, entries);
  }

  method ReadFolder(s: Source, folder: Folder, entries: seq<Entry>) returns (r: Result<seq<array<Byte>>, CabError>)
    requires folder.compression <= 1
    ensures match Stream(s, folder, entries)
            case Err(e) => r == Err(e)
            case Ok(stream) => r.Ok? && fresh(r.value) && Yield(r.value, stream, entries)
  {
    hide AllHold, LastByte, Expand, Yield;
    var outputs := NewOutputs(entries);
    var finalByte := FindLastByte(entries);
    NothingHeld(outputs, entries);
    var expanded := FillFromBlocks(s, folder, entries, outputs, finalByte);
    if expanded.Err? {
      return Err(expanded.error);
    }
    ghost var stream := Stream(s, folder, entries).value;
    AllWhole(outputs, stream, entries);
    return Ok(outputs);
  }

  /** The loop over blocks. */
  method FillFromBlocks(s: Source, folder: Folder, entries: seq<Entry>, outputs: seq<array<Byte>>, finalByte: nat)
    returns (r: Result<nat, CabError>)
    requires Distinct(outputs) && AllHold(outputs, [], entries)
    modifies outputs
    ensures match Expand(s, folder, finalByte, folder.blockCount)
            case Err(e) => r == Err(e)
            case Ok((stream, _)) =>
              AllHold(outputs, stream, entries) && r == if |stream| < finalByte then Err(EndedEarly) else Ok(|stream|)
  {
    hide ReadBlock, AllHold, Window, Expand, Distinct;
    var dataCursor, folderCursor, dictionary: Bytes := folder.dataOffset, 0, [];
    ghost var stream: Bytes := [];
    NothingExpanded(s, folder, finalByte);
    var blockIndex := 0;
    while blockIndex < folder.blockCount && folderCursor < finalByte
      invariant 0 <= blockIndex <= folder.blockCount && folderCursor == |stream| && dictionary == Window(stream)
      invariant Expand(s, folder, finalByte, blockIndex) == Ok((stream, dataCursor))
      invariant AllHold(outputs, stream, entries)
    {
      var next := NextBlock(s, folder.compression, dataCursor, dictionary);
      OneMoreBlock(s, folder, finalByte, blockIndex, stream, dataCursor);
      if next.Err? {
        ExpandSettles(s, folder, finalByte, blockIndex + 1, folder.blockCount);
        return Err(next.error);
      }
      var block := next.value.0;
      CopyOverlaps(outputs, entries, stream, folderCursor, block);
      WindowOfWindow(stream, block);
      dictionary := UpdatedDictionary(dictionary, block);
      folderCursor := folderCursor + |block|;
      dataCursor := next.value.1;
      stream := stream + block;
      blockIndex := blockIndex + 1;
    }
    if folderCursor < finalByte {
      return Err(EndedEarly);
    }
    ExpandSettles(s, folder, finalByte, blockIndex, folder.blockCount);
    return Ok(folderCursor);
  }

  /** Once the stream covers the last entry, every buffer is full. */
  lemma AllWhole(outputs: seq<array<Byte>>, stream: Bytes, entries: seq<Entry>)
    requires AllHold(outputs, stream, entries) && |stream| >= LastByte(entries)
    ensures Yield(outputs, stream, entries)
  {
    hide Holds;
    forall i | 0 <= i < |entries|
      ensures entries[i].folderOffset + entries[i].size <= |stream|
      ensures outputs[i][..] == stream[entries[i].folderOffset..entries[i].folderOffset + entries[i].size]
    {
      WholeEntry(outputs[i][..], stream, entries, i);
    }
  }

  lemma WholeEntry(output: Bytes, stream: Bytes, entries: seq<Entry>, i: nat)
    requires i < |entries| && |stream| >= LastByte(entries) && Holds(output, stream, entries[i])
    ensures entries[i].folderOffset + entries[i].size <= |stream|
    ensures output == stream[entries[i].folderOffset..entries[i].folderOffset + entries[i].size]
  {
    LastByteBounds(entries, i);
    if entries[i].size == 0 {
      assert output == [];
    } else {
      assert |Part(stream, entries[i])| == |output|;
    }
  }
}
