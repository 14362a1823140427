/**
 Extracting a cabinet folder to storage (WebAssembly/harness/
 launcher-asset-worker.js:769-783 and 804-886): files written in pieces, by
 writes that may take only part of what they are given.
 */
module CabinetExtraction {
  import opened Common
  import opened Cabinet

  // ----- Storage

  /** A file with `bytes` written at `at`: a gap before them is filled with zeros. */
  function Overlay(content: Bytes, at: nat, bytes: Bytes): Bytes {
    if bytes == [] then content
    else
      var before := if at <= |content| then content[..at] else content + seq(at - |content|, _ => 0);
      before + bytes + (if at + |bytes| < |content| then content[at + |bytes|..] else [])
  }

  /** Byte k of such a file. */
  function OverlayByte(content: Bytes, at: nat, bytes: Bytes, k: nat): Byte {
    if at <= k < at + |bytes| then bytes[k - at] else if k < |content| then content[k] else 0
  }

  lemma OverlayLength(content: Bytes, at: nat, bytes: Bytes)
    requires bytes != []
    ensures |Overlay(content, at, bytes)| == Max(|content|, at + |bytes|)
  {
  }

  lemma OverlayAt(content: Bytes, at: nat, bytes: Bytes, k: nat)
    requires bytes != [] && k < |Overlay(content, at, bytes)|
    ensures Overlay(content, at, bytes)[k] == OverlayByte(content, at, bytes, k)
  {
    if at <= |content| {
      OverlayInside(content, at, bytes, k);
    } else {
      OverlayBeyond(content, at, bytes, k);
    }
  }

  lemma OverlayInside(content: Bytes, at: nat, bytes: Bytes, k: nat)
    requires bytes != [] && at <= |content| && k < |Overlay(content, at, bytes)|
    ensures Overlay(content, at, bytes)[k] == OverlayByte(content, at, bytes, k)
  {
  }

  lemma OverlayBeyond(content: Bytes, at: nat, bytes: Bytes, k: nat)
    requires bytes != [] && at > |content| && k < |Overlay(content, at, bytes)|
    ensures Overlay(content, at, bytes)[k] == OverlayByte(content, at, bytes, k)
  {
  }

  /** One byte of two overlays, one after the other, and of the overlay of both. */
  lemma OverlaySplitsAt(content: Bytes, at: nat, first: Bytes, second: Bytes, k: nat)
    requires first != [] && second != []
    requires var once := Overlay(content, at, first);
             k < |Overlay(once, at + |first|, second)| && k < |Overlay(content, at, first + second)|
    ensures Overlay(Overlay(content, at, first), at + |first|, second)[k] == Overlay(content, at, first + second)[k]
  {
    hide Overlay;
    var once := Overlay(content, at, first);
    OverlayLength(content, at, first);
    OverlayLength(once, at + |first|, second);
    OverlayAt(once, at + |first|, second, k);
    OverlayAt(content, at, first + second, k);
    if k < |once| {
      OverlayAt(content, at, first, k);
    }
  }

  /** Two pieces written one after the other are as good as both at once. */
  lemma OverlaySplits(content: Bytes, at: nat, first: Bytes, second: Bytes)
    ensures Overlay(Overlay(content, at, first), at + |first|, second) == Overlay(content, at, first + second)
  {
    if first == [] {
      assert first + second == second;
    } else if second == [] {
      assert first + second == first;
    } else {
      hide Overlay;
      var once := Overlay(content, at, first);
      var twice, both := Overlay(once, at + |first|, second), Overlay(content, at, first + second);
      OverlayLength(content, at, first);
      OverlayLength(once, at + |first|, second);
      OverlayLength(content, at, first + second);
      forall k | 0 <= k < |both| ensures twice[k] == both[k] {
        OverlaySplitsAt(content, at, first, second, k);
      }
    }
  }

  predicate StorageError(e: CabError) {
    e.StorageFull? || e.StorageMisbehaved?
  }

  /** A storage handle; `accepts` says how much the n-th write of so many bytes takes. */
  class OutputFile {
    const accepts: (nat, nat) -> int
    var content: Bytes
    var writes: nat

    constructor (accepts: (nat, nat) -> int)
      ensures content == [] && this.accepts == accepts
    {
      this.accepts := accepts;
      content, writes := [], 0;
    }

    /** Every write takes something, and no more than it is given. */
    ghost predicate Reliable() {
      forall n: nat, size: nat :: size > 0 ==> 0 < accepts(n, size) <= size
    }

    method Write(bytes: Bytes, at: nat) returns (written: int)
      modifies this
      ensures content == Overlay(old(content), at, if 0 <= written <= |bytes| then bytes[..written] else [])
      ensures Reliable() && bytes != [] ==> 0 < written <= |bytes|
    {
      written := accepts(writes, |bytes|);
      writes := writes + 1;
      if 0 <= written <= |bytes| {
        content := Overlay(content, at, bytes[..written]);
      }
    }
  }

  /** The first `done` of the bytes have been written. */
  ghost predicate Written(before: Bytes, content: Bytes, at: nat, bytes: Bytes, done: nat) {
    done <= |bytes| && content == Overlay(before, at, bytes[..done])
  }

  lemma WritingStartsAndEnds(before: Bytes, content: Bytes, at: nat, bytes: Bytes)
    ensures Written(before, before, at, bytes, 0)
    ensures Written(before, content, at, bytes, |bytes|) ==> content == Overlay(before, at, bytes)
  {
    assert bytes[..|bytes|] == bytes;
  }

  lemma WriteMore(before: Bytes, content: Bytes, at: nat, bytes: Bytes, done: nat, more: nat)
    requires Written(before, content, at, bytes, done) && done + more <= |bytes|
    ensures Written(before, Overlay(content, at + done, bytes[done..][..more]), at, bytes, done + more)
  {
    hide Overlay;
    OverlaySplits(before, at, bytes[..done], bytes[done..][..more]);
    assert bytes[..done] + bytes[done..][..more] == bytes[..done + more];
  }

  method WriteAll(output: OutputFile, bytes: Bytes, at: nat) returns (r: Result<nat, CabError>)
    modifies output
    ensures r.Ok? ==> r.value == |bytes| && output.content == Overlay(old(output.content), at, bytes)
    ensures r.Err? ==> StorageError(r.error) && !output.Reliable()
  {
    hide Overlay, Written, OutputFile.Reliable;
    var offset := 0;
    WritingStartsAndEnds(output.content, output.content, at, bytes);
    while offset < |bytes|
      invariant 0 <= offset <= |bytes| && Written(old(output.content), output.content, at, bytes, offset)
    {
      var remaining := |bytes| - offset;
      ghost var content := output.content;
      var written := output.Write(bytes[offset..], at + offset);
      if written == 0 {
        return Err(StorageFull);
      }
      if written < 0 || written > remaining {
        return Err(StorageMisbehaved);
      }
      WriteMore(old(output.content), content, at, bytes, offset, written);
      offset := offset + written;
    }
    WritingStartsAndEnds(old(output.content), output.content, at, bytes);
    return Ok(|bytes|);
  }

  // ----- Progress

  class Progress {
    var completed: nat

    constructor ()
      ensures completed == 0
    {
      completed := 0;
    }
  }

  function Total(parts: seq<Bytes>): nat {
    if parts == [] then 0 else Total(parts[..|parts| - 1]) + |parts[|parts| - 1]|
  }

  lemma {:induction false} TotalUpdates(parts: seq<Bytes>, i: nat, part: Bytes)
    requires i < |parts|
    ensures Total(parts[i := part]) == Total(parts) - |parts[i]| + |part|
  {
    var init := parts[..|parts| - 1];
    if i < |parts| - 1 {
      assert parts[i := part][..|parts| - 1] == init[i := part];
      TotalUpdates(init, i, part);
    } else {
      assert parts[i := part][..|parts| - 1] == init;
    }
  }

  /** What each file holds once the stream has come this far. */
  function Parts(stream: Bytes, entries: seq<Entry>): (parts: seq<Bytes>)
    ensures |parts| == |entries|
  {
    seq(|entries|, i requires 0 <= i < |entries| => Part(stream, entries[i]))
  }

  /** The first `done` files have the new block, the others not yet. */
  function Mixed(stream: Bytes, block: Bytes, entries: seq<Entry>, done: nat): (parts: seq<Bytes>)
    requires done <= |entries|
    ensures |parts| == |entries|
  {
    Parts(stream + block, entries)[..done] + Parts(stream, entries)[done..]
  }

  lemma MixedAdvances(stream: Bytes, block: Bytes, entries: seq<Entry>, done: nat)
    requires done < |entries|
    ensures Mixed(stream, block, entries, done)[done] == Part(stream, entries[done])
    ensures Mixed(stream, block, entries, done + 1) ==
            Mixed(stream, block, entries, done)[done := Part(stream + block, entries[done])]
  {
    hide Part;
  }

  ghost predicate Contain(outputs: seq<OutputFile>, parts: seq<Bytes>)
    reads outputs
  {
    |outputs| == |parts| && forall i :: 0 <= i < |outputs| ==> outputs[i].content == parts[i]
  }

  // ----- One block

  /** Writes a block's share to one file, whose content ends where the share begins. */
  method WriteShare(output: OutputFile, entry: Entry, ghost stream: Bytes, folderCursor: nat, block: Bytes,
                    progress: Progress)
    returns (failure: Option<CabError>)
    requires folderCursor == |stream| && output.content == Part(stream, entry)
    modifies output, progress
    ensures failure.None? ==> output.content == Part(stream + block, entry)
    ensures failure.None? ==>
              progress.completed == old(progress.completed) + |Part(stream + block, entry)| - |Part(stream, entry)|
    ensures failure.Some? ==> StorageError(failure.value) && !output.Reliable()
  {
    hide Part;
    OverlapContinues(stream, block, entry);
    var blockEnd := folderCursor + |block|;
    var entryEnd := entry.folderOffset + entry.size;
    if blockEnd <= entry.folderOffset || folderCursor >= entryEnd {
      return None;
    }
    var sourceStart := Max(0, entry.folderOffset - folderCursor);
    var sourceEnd := Min(|block|, entryEnd - folderCursor);
    var destination := Max(0, folderCursor - entry.folderOffset);
    var slice := block[sourceStart..sourceEnd];
    var written := WriteAll(output, slice, destination);
    if written.Err? {
      return Some(written.error);
    }
    progress.completed := progress.completed + written.value;
    return None;
  }

  method WriteShares(outputs: seq<OutputFile>, entries: seq<Entry>, ghost stream: Bytes, folderCursor: nat,
                     block: Bytes, progress: Progress)
    returns (failure: Option<CabError>)
    requires folderCursor == |stream| && Distinct(outputs) && |outputs| == |entries|
             && Contain(outputs, Parts(stream, entries))
    modifies outputs, progress
    ensures failure.None? ==>
              && Contain(outputs, Parts(stream + block, entries))
              && progress.completed == old(progress.completed)
                   + Total(Parts(stream + block, entries)) - Total(Parts(stream, entries))
    ensures failure.Some? ==> StorageError(failure.value) && exists i :: 0 <= i < |outputs| && !outputs[i].Reliable()
  {
    hide Part, Parts, Mixed, Total;
    ghost var parts := Parts(stream, entries);
    MixedEnds(stream, block, entries);
    for i := 0 to |entries|
      invariant |parts| == |entries| && parts == Mixed(stream, block, entries, i)
      invariant Contain(outputs, parts)
      invariant progress.completed == old(progress.completed) + Total(parts) - Total(Parts(stream, entries))
    {
      MixedAdvances(stream, block, entries, i);
      failure := WriteShare(outputs[i], entries[i], stream, folderCursor, block, progress);
      if failure.Some? {
        return;
      }
      TotalUpdates(parts, i, Part(stream + block, entries[i]));
      parts := parts[i := Part(stream + block, entries[i])];
    }
    return None;
  }

  lemma MixedEnds(stream: Bytes, block: Bytes, entries: seq<Entry>)
    ensures Mixed(stream, block, entries, 0) == Parts(stream, entries)
    ensures Mixed(stream, block, entries, |entries|) == Parts(stream + block, entries)
  {
    hide Part;
  }

  // ----- A whole folder

  /** `video` says which header the finished file must show. */
  datatype Target = Target(entry: Entry, video: bool)

  function Entries(targets: seq<Target>): (entries: seq<Entry>)
    ensures |entries| == |targets|
  {
    seq(|targets|, i requires 0 <= i < |targets| => targets[i].entry)
  }

  const BIGF: Bytes := [0x42, 0x49, 0x47, 0x46]
  const BIK: Bytes := [0x42, 0x49, 0x4b]
  const KB2: Bytes := [0x4b, 0x42, 0x32]

  predicate ValidHeader(content: Bytes, video: bool) {
    if video then BIK <= content || KB2 <= content else BIGF <= content
  }

  /** An archive must begin with "BIGF", a video with "BIK" or "KB2". */
  lemma HeadersAreMagic(content: Bytes)
    ensures ValidHeader(content, false) <==>
            |content| >= 4 && content[..4] == ['B' as int, 'I' as int, 'G' as int, 'F' as int]
    ensures ValidHeader(content, true) <==>
            |content| >= 3 && (content[..3] == ['B' as int, 'I' as int, 'K' as int]
                               || content[..3] == ['K' as int, 'B' as int, '2' as int])
  {
  }

  predicate FirstInvalid(contents: seq<Bytes>, targets: seq<Target>, i: nat)
    requires |contents| == |targets|
  {
    && i < |targets| && !ValidHeader(contents[i], targets[i].video)
    && forall k :: 0 <= k < i ==> ValidHeader(contents[k], targets[k].video)
  }

  /** Each target's stretch of the stream. */
  function Stretches(stream: Bytes, entries: seq<Entry>): (parts: seq<Bytes>)
    requires |stream| >= LastByte(entries)
    ensures |parts| == |entries|
  {
    seq(|entries|, i requires 0 <= i < |entries| =>
      LastByteBounds(entries, i);
      stream[entries[i].folderOffset..entries[i].folderOffset + entries[i].size])
  }

  lemma PartsAreStretches(stream: Bytes, entries: seq<Entry>)
    requires |stream| >= LastByte(entries)
    ensures Parts(stream, entries) == Stretches(stream, entries)
  {
    forall i | 0 <= i < |entries| ensures Parts(stream, entries)[i] == Stretches(stream, entries)[i] {
      LastByteBounds(entries, i);
      assert entries[i].size == 0 ==> Stretches(stream, entries)[i] == [];
    }
  }

  function Sizes(entries: seq<Entry>): nat {
    if entries == [] then 0 else Sizes(entries[..|entries| - 1]) + entries[|entries| - 1].size
  }

  lemma {:induction false} TotalOfStretches(stream: Bytes, entries: seq<Entry>)
    requires |stream| >= LastByte(entries)
    ensures Total(Stretches(stream, entries)) == Sizes(entries)
  {
    if entries != [] {
      var init := entries[..|entries| - 1];
      TotalOfStretches(stream, init);
      LastByteBounds(entries, |entries| - 1);
      assert Stretches(stream, entries)[..|entries| - 1] == Stretches(stream, init);
    }
  }

  /** The loop over blocks. */
  method WriteBlocks(s: Source, folder: Folder, entries: seq<Entry>, outputs: seq<OutputFile>, finalByte: nat,
                     progress: Progress)
    returns (r: Result<nat, CabError>)
    requires Distinct(outputs) && |outputs| == |entries| && Contain(outputs, Parts([], entries))
             && finalByte == LastByte(entries)
    modifies outputs, progress
    ensures r.Ok? ==>
              && Stream(s, folder, entries).Ok?
              && Contain(outputs, Parts(Stream(s, folder, entries).value, entries))
              && progress.completed == old(progress.completed) + Total(Parts(Stream(s, folder, entries).value, entries))
    ensures r.Err? ==> StorageError(r.error) || Stream(s, folder, entries) == Err(r.error)
    ensures r.Err? && StorageError(r.error) ==>
              exists i :: 0 <= i < |outputs| && !outputs[i].Reliable()
  {
    hide ReadBlock, Window, Expand, Distinct, Parts, Total, Contain, LastByte;
    var dataCursor, folderCursor, dictionary: Bytes := folder.dataOffset, 0, [];
    ghost var stream: Bytes := [];
    NothingExpanded(s, folder, finalByte);
    NothingWritten(entries);
    var blockIndex := 0;
    while blockIndex < folder.blockCount && folderCursor < finalByte
      invariant 0 <= blockIndex <= folder.blockCount && folderCursor == |stream| && dictionary == Window(stream)
      invariant Expand(s, folder, finalByte, blockIndex) == Ok((stream, dataCursor))
      invariant Contain(outputs, Parts(stream, entries))
      invariant progress.completed == old(progress.completed) + Total(Parts(stream, entries))
    {
      var next := NextBlock(s, folder.compression, dataCursor, dictionary);
      OneMoreBlock(s, folder, finalByte, blockIndex, stream, dataCursor);
      if next.Err? {
        ExpandSettles(s, folder, finalByte, blockIndex + 1, folder.blockCount);
        BlockErrorsAreNotStorage(s, folder.compression, dataCursor, dictionary);
        return Err(next.error);
      }
      var block := next.value.0;
      var failure := WriteShares(outputs, entries, stream, folderCursor, block, progress);
      if failure.Some? {
        return Err(failure.value);
      }
      WindowOfWindow(stream, block);
      dictionary := UpdatedDictionary(dictionary, block);
      folderCursor := folderCursor + |block|;
      dataCursor := next.value.1;
      stream := stream + block;
      blockIndex := blockIndex + 1;
    }
    if folderCursor < finalByte {
      return Err(EndedEarly);
    }
    ExpandSettles(s, folder, finalByte, blockIndex, folder.blockCount);
    return Ok(folderCursor);
  }

  lemma EmptyParts(entries: seq<Entry>)
    ensures forall i :: 0 <= i < |entries| ==> Parts([], entries)[i] == []
  {
  }

  lemma NothingWritten(entries: seq<Entry>)
    ensures Total(Parts([], entries)) == 0
  {
    if entries != [] {
      NothingWritten(entries[..|entries| - 1]);
      assert Parts([], entries)[..|entries| - 1] == Parts([], entries[..|entries| - 1]);
    }
  }

  lemma BlockErrorsAreNotStorage(s: Source, compression: nat, at: nat, dictionary: Bytes)
    requires ReadBlock(s, compression, at, dictionary).Err?
    ensures !StorageError(ReadBlock(s, compression, at, dictionary).error)
  {
  }

  /** The checks on the finished files; that of their sizes cannot fail. */
  method CheckHeaders(outputs: seq<OutputFile>, targets: seq<Target>, ghost contents: seq<Bytes>)
    returns (r: Option<nat>)
    requires |outputs| == |targets| && Contain(outputs, contents)
    requires forall i :: 0 <= i < |targets| ==> |contents[i]| == targets[i].entry.size
    ensures r.None? ==> forall i :: 0 <= i < |targets| ==> ValidHeader(contents[i], targets[i].video)
    ensures r.Some? ==> FirstInvalid(contents, targets, r.value)
  {
    for i := 0 to |targets|
      invariant forall k :: 0 <= k < i ==> ValidHeader(contents[k], targets[k].video)
    {
      assert |outputs[i].content| == targets[i].entry.size;
      if !ValidHeader(outputs[i].content, targets[i].video) {
        return Some(i);
      }
    }
    return None;
  }

  /**
   Extracts one folder's targets into empty files. On success each file is
   exactly its entry's stretch of the expanded folder and progress has grown
   by the sum of the sizes; otherwise the failure is the folder's own, the
   first bad header, or the storage's, and reliable storage never fails.
   */
  method ExtractFolder(s: Source, folder: Option<Folder>, targets: seq<Target>, outputs: seq<OutputFile>,
                       progress: Progress)
    returns (failure: Option<CabError>)
    requires Distinct(outputs) && |outputs| == |targets| && forall i :: 0 <= i < |outputs| ==> outputs[i].content == []
    modifies outputs, progress
    ensures folder.None? ==> failure == Some(InvalidFolder)
    ensures folder.Some? && folder.value.compression > 1 ==> failure == Some(UnsupportedFolder)
    ensures failure.None? ==> folder.Some? && Stream(s, folder.value, Entries(targets)).Ok?
    ensures failure.None? ==>
              var contents := Stretches(Stream(s, folder.value, Entries(targets)).value, Entries(targets));
              && Contain(outputs, contents)
              && (forall i :: 0 <= i < |targets| ==> ValidHeader(contents[i], targets[i].video))
              && progress.completed == old(progress.completed) + Sizes(Entries(targets))
    ensures failure.Some? && folder.Some? && folder.value.compression <= 1 ==>
              match failure.value
              case StorageFull => exists i :: 0 <= i < |outputs| && !outputs[i].Reliable()
              case StorageMisbehaved => exists i :: 0 <= i < |outputs| && !outputs[i].Reliable()
              case BadHeader(i) =>
                && Stream(s, folder.value, Entries(targets)).Ok?
                && FirstInvalid(Stretches(Stream(s, folder.value, Entries(targets)).value, Entries(targets)),
                                targets, i)
              case error => Stream(s, folder.value, Entries(targets)) == Err(error)
  {
    hide Expand, Total, Sizes, LastByte, Parts, Stretches, ValidHeader;
    if folder.None? {
      return Some(InvalidFolder);
    }
    if folder.value.compression != 0 && folder.value.compression != 1 {
      return Some(UnsupportedFolder);
    }
    var entries := Entries(targets);
    var finalByte := FindLastByte(entries);
    EmptyParts(entries);
    var written := WriteBlocks(s, folder.value, entries, outputs, finalByte, progress);
    if written.Err? {
      if !StorageError(written.error) {
        StreamErrors(s, folder.value, entries);
      }
      return Some(written.error);
    }
    ghost var stream := Stream(s, folder.value, entries).value;
    PartsAreStretches(stream, entries);
    TotalOfStretches(stream, entries);
    StretchSizes(stream, entries);
    var bad := CheckHeaders(outputs, targets, Stretches(stream, entries));
    if bad.Some? {
      return Some(BadHeader(bad.value));
    }
    return None;
  }

  lemma StretchSizes(stream: Bytes, entries: seq<Entry>)
    requires |stream| >= LastByte(entries)
    ensures forall i :: 0 <= i < |entries| ==> |Stretches(stream, entries)[i]| == entries[i].size
  {
    forall i | 0 <= i < |entries| ensures |Stretches(stream, entries)[i]| == entries[i].size {
      LastByteBounds(entries, i);
    }
  }

  /** Expanding a folder fails in its own ways only. */
  lemma StreamErrors(s: Source, folder: Folder, entries: seq<Entry>)
    requires Stream(s, folder, entries).Err?
    ensures var e := Stream(s, folder, entries).error; !StorageError(e) && !e.BadHeader?
  {
    hide Payload, LastByte;
    ExpandErrors(s, folder, LastByte(entries), folder.blockCount);
  }

  lemma {:induction false} ExpandErrors(s: Source, folder: Folder, enough: nat, blocks: nat)
    ensures var r := Expand(s, folder, enough, blocks);
            r.Err? ==> !StorageError(r.error) && !r.error.BadHeader?
  {
    hide Window;
    if blocks > 0 {
      ExpandErrors(s, folder, enough, blocks - 1);
    }
  }
}
