/** How a folder was cut into blocks does not matter to what is extracted from it. */
module CabinetSplitting {
  import opened Common
  import opened Numbers
  import opened Cabinet
  import opened CabinetExtraction

  function Concat(blocks: seq<Bytes>): Bytes {
    if blocks == [] then [] else Concat(blocks[..|blocks| - 1]) + blocks[|blocks| - 1]
  }

  /** Where the header of the block after these payloads is. */
  function HeaderAt(s: Source, folder: Folder, payloads: seq<Bytes>): nat {
    if payloads == [] then folder.dataOffset
    else HeaderAt(s, folder, payloads[..|payloads| - 1]) + 8 + s.reserve + |payloads[|payloads| - 1]|
  }

  /** What an inflater may refer back to: the last 32768 of the bytes before a block, or all of them. */
  function Dictionary(before: Bytes): Bytes {
    if |before| <= 32768 then before else before[|before| - 32768..]
  }

  /** A block as it is kept: plain, or "CK" and something that inflates to it. */
  ghost predicate Represents(s: Source, compression: nat, payload: Bytes, block: Bytes, before: Bytes) {
    if compression == 0 then payload == block
    else |payload| >= 2 && payload[..2] == [0x43, 0x4b] && s.inflate(payload[2..], Dictionary(before)) == Some(block)
  }

  /** A payload stands at the place of the i-th block, after a header with these sizes. */
  ghost predicate Stands(s: Source, folder: Folder, payloads: seq<Bytes>, payload: Bytes, size: nat, i: nat)
    requires i <= |payloads|
  {
    var at := HeaderAt(s, folder, payloads[..i]);
    && at + 8 + s.reserve + |payload| <= |s.source|
    && Read16(s.source, at + 4) == |payload|
    && Read16(s.source, at + 6) == size
    && s.source[at + 8 + s.reserve..at + 8 + s.reserve + |payload|] == payload
  }

  /** The i-th block is stored at its place, with its sizes. */
  ghost predicate Stored(s: Source, folder: Folder, payloads: seq<Bytes>, blocks: seq<Bytes>, i: nat)
    requires i < |payloads| == |blocks|
  {
    && Stands(s, folder, payloads, payloads[i], |blocks[i]|, i)
    && Represents(s, folder.compression, payloads[i], blocks[i], Concat(blocks[..i]))
  }

  /** The folder begins with these blocks. */
  ghost predicate BeginsWith(s: Source, folder: Folder, payloads: seq<Bytes>, blocks: seq<Bytes>) {
    && folder.compression <= 1 && |payloads| == |blocks| <= folder.blockCount
    && forall i :: 0 <= i < |blocks| ==> Stored(s, folder, payloads, blocks, i)
  }

  /** It consists of them. */
  ghost predicate Holds(s: Source, folder: Folder, payloads: seq<Bytes>, blocks: seq<Bytes>) {
    BeginsWith(s, folder, payloads, blocks) && |blocks| == folder.blockCount
  }

  lemma WindowIsDictionary(before: Bytes)
    ensures Window(before) == Dictionary(before)
  {
  }

  lemma NextIsStored(s: Source, folder: Folder, payloads: seq<Bytes>, blocks: seq<Bytes>, i: nat)
    requires folder.compression <= 1 && i < |payloads| == |blocks| && Stored(s, folder, payloads, blocks, i)
    ensures ReadBlock(s, folder.compression, HeaderAt(s, folder, payloads[..i]), Window(Concat(blocks[..i]))) ==
            Ok((blocks[i], HeaderAt(s, folder, payloads[..i + 1])))
    ensures Concat(blocks[..i + 1]) == Concat(blocks[..i]) + blocks[i]
  {
    hide Window;
    assert payloads[..i + 1][..i] == payloads[..i] && blocks[..i + 1][..i] == blocks[..i];
    WindowIsDictionary(Concat(blocks[..i]));
    assert |payloads[i]| >= 2 ==> payloads[i][..2] == [payloads[i][0], payloads[i][1]];
  }

  lemma NoBlocks(s: Source, folder: Folder, payloads: seq<Bytes>, blocks: seq<Bytes>)
    ensures Concat(blocks[..0]) == [] && HeaderAt(s, folder, payloads[..0]) == folder.dataOffset
  {
  }

  /** Expansion reads whole blocks in order and stops at the first point where it has enough. */
  lemma {:induction false} ExpandsToBlocks(s: Source, folder: Folder, payloads: seq<Bytes>, blocks: seq<Bytes>,
                                           enough: nat, k: nat)
    returns (read: nat)
    requires BeginsWith(s, folder, payloads, blocks) && k <= |blocks|
    ensures read <= k
    ensures Expand(s, folder, enough, k) == Ok((Concat(blocks[..read]), HeaderAt(s, folder, payloads[..read])))
    ensures read == k || |Concat(blocks[..read])| >= enough
  {
    hide ReadBlock, Stored, Window, HeaderAt, Concat;
    if k == 0 {
      read := 0;
      NoBlocks(s, folder, payloads, blocks);
    } else {
      read := ExpandsToBlocks(s, folder, payloads, blocks, enough, k - 1);
      if |Concat(blocks[..read])| < enough {
        NextIsStored(s, folder, payloads, blocks, read);
        read := read + 1;
      }
    }
  }

  lemma {:induction false} ConcatPrefix(blocks: seq<Bytes>, k: nat)
    requires k <= |blocks|
    ensures Concat(blocks[..k]) <= Concat(blocks)
  {
    if k == |blocks| {
      assert blocks[..k] == blocks;
    } else {
      assert blocks[..|blocks| - 1][..k] == blocks[..k];
      ConcatPrefix(blocks[..|blocks| - 1], k);
    }
  }

  /**
   For any cut of a folder's bytes into blocks, stored or compressed: the
   entries can be extracted exactly when the blocks together reach their
   last byte, and they come out as their stretches of the whole.
   */
  lemma AnyCutExtractsTheSame(s: Source, folder: Folder, payloads: seq<Bytes>, blocks: seq<Bytes>, entries: seq<Entry>)
    requires Holds(s, folder, payloads, blocks)
    ensures |Concat(blocks)| < LastByte(entries) ==> Stream(s, folder, entries) == Err(EndedEarly)
    ensures |Concat(blocks)| >= LastByte(entries) ==>
              && Stream(s, folder, entries).Ok?
              && Stretches(Stream(s, folder, entries).value, entries) == Stretches(Concat(blocks), entries)
  {
    hide Stored, HeaderAt, Concat, LastByte;
    var read := ExpandsToBlocks(s, folder, payloads, blocks, LastByte(entries), |blocks|);
    ConcatPrefix(blocks, read);
    assert blocks[..|blocks|] == blocks;
    if |Concat(blocks)| >= LastByte(entries) {
      PrefixStretches(Concat(blocks[..read]), Concat(blocks), entries);
    }
  }

  lemma PrefixStretches(stream: Bytes, whole: Bytes, entries: seq<Entry>)
    requires stream <= whole && |stream| >= LastByte(entries)
    ensures Stretches(stream, entries) == Stretches(whole, entries)
  {
    forall i | 0 <= i < |entries| ensures Stretches(stream, entries)[i] == Stretches(whole, entries)[i] {
      LastByteBounds(entries, i);
      SliceOfAppend(stream, whole[|stream|..], entries[i].folderOffset, entries[i].folderOffset + entries[i].size);
      assert stream + whole[|stream|..] == whole;
    }
  }

  // ----- A folder that somebody wrote

  /** What a writer keeps of a block. */
  function Kept(deflate: (Bytes, Bytes) -> Bytes, compression: nat, block: Bytes, before: Bytes): Bytes {
    if compression == 0 then block else [0x43, 0x4b] + deflate(block, Dictionary(before))
  }

  ghost predicate Undoes(inflate: (Bytes, Bytes) -> Option<Bytes>, deflate: (Bytes, Bytes) -> Bytes) {
    forall block, dictionary :: inflate(deflate(block, dictionary), dictionary) == Some(block)
  }

  function Payloads(deflate: (Bytes, Bytes) -> Bytes, compression: nat, blocks: seq<Bytes>): (payloads: seq<Bytes>)
    ensures |payloads| == |blocks|
  {
    if blocks == [] then []
    else
      var init, last := blocks[..|blocks| - 1], blocks[|blocks| - 1];
      Payloads(deflate, compression, init) + [Kept(deflate, compression, last, Concat(init))]
  }

  /** Checksum, sizes, reserved bytes and payload of one block; the checksum is not looked at. */
  function WrittenBlock(checksum: Bytes, reserved: Bytes, payload: Bytes, block: Bytes): (bytes: Bytes)
    requires |checksum| == 4
    ensures |bytes| == 8 + |reserved| + |payload|
  {
    checksum + LittleEndian16(|payload|) + LittleEndian16(|block|) + reserved + payload
  }

  function WrittenBlocks(checksum: Bytes, reserved: Bytes, payloads: seq<Bytes>, blocks: seq<Bytes>): Bytes
    requires |checksum| == 4 && |payloads| == |blocks|
  {
    if blocks == [] then []
    else
      var n := |blocks| - 1;
      WrittenBlocks(checksum, reserved, payloads[..n], blocks[..n])
      + WrittenBlock(checksum, reserved, payloads[n], blocks[n])
  }

  lemma {:induction false} PayloadAt(deflate: (Bytes, Bytes) -> Bytes, compression: nat, blocks: seq<Bytes>, i: nat)
    requires i < |blocks|
    ensures Payloads(deflate, compression, blocks)[i] == Kept(deflate, compression, blocks[i], Concat(blocks[..i]))
  {
    hide Kept;
    var n := |blocks| - 1;
    if i < n {
      PayloadAt(deflate, compression, blocks[..n], i);
      assert blocks[..n][..i] == blocks[..i];
    }
  }

  lemma KeptRepresents(s: Source, deflate: (Bytes, Bytes) -> Bytes, compression: nat, block: Bytes, before: Bytes)
    requires Undoes(s.inflate, deflate)
    ensures Represents(s, compression, Kept(deflate, compression, block, before), block, before)
  {
    hide Dictionary;
    var kept := Kept(deflate, compression, block, before);
    if compression != 0 {
      assert kept[..2] == [0x43, 0x4b] && kept[2..] == deflate(block, Dictionary(before));
    }
  }

  /** `s` is the cabinet with these blocks written after `before`. */
  ghost predicate IsWritten(s: Source, before: Bytes, checksum: Bytes, reserved: Bytes, payloads: seq<Bytes>,
                            blocks: seq<Bytes>, after: Bytes)
    requires |payloads| == |blocks|
  {
    && |checksum| == 4 && |reserved| == s.reserve
    && (forall i :: 0 <= i < |blocks| ==> |payloads[i]| < TWO_TO_16 && |blocks[i]| < TWO_TO_16)
    && s.source == before + WrittenBlocks(checksum, reserved, payloads, blocks) + after
  }

  lemma {:induction false} HeadersFollow(s: Source, folder: Folder, checksum: Bytes, reserved: Bytes,
                                         payloads: seq<Bytes>, blocks: seq<Bytes>)
    requires |payloads| == |blocks| && |checksum| == 4 && |reserved| == s.reserve
    ensures HeaderAt(s, folder, payloads)
              == folder.dataOffset + |WrittenBlocks(checksum, reserved, payloads, blocks)|
  {
    hide WrittenBlock;
    if blocks != [] {
      var n := |blocks| - 1;
      HeadersFollow(s, folder, checksum, reserved, payloads[..n], blocks[..n]);
    }
  }

  /** The written blocks up to the i-th, the i-th, and the rest. */
  lemma {:induction false} WrittenSplits(checksum: Bytes, reserved: Bytes, payloads: seq<Bytes>, blocks: seq<Bytes>,
                                         i: nat)
    returns (rest: Bytes)
    requires |payloads| == |blocks| && |checksum| == 4 && i < |blocks|
    ensures WrittenBlocks(checksum, reserved, payloads, blocks)
              == WrittenBlocks(checksum, reserved, payloads[..i], blocks[..i])
                 + WrittenBlock(checksum, reserved, payloads[i], blocks[i]) + rest
  {
    hide WrittenBlock;
    var n := |blocks| - 1;
    if i == n {
      rest := [];
    } else {
      var less := WrittenSplits(checksum, reserved, payloads[..n], blocks[..n], i);
      assert payloads[..n][..i] == payloads[..i] && blocks[..n][..i] == blocks[..i];
      rest := less + WrittenBlock(checksum, reserved, payloads[n], blocks[n]);
    }
  }

  lemma WrittenBlockStands(source: Bytes, front: Bytes, checksum: Bytes, reserved: Bytes, payload: Bytes, block: Bytes,
                           rest: Bytes)
    requires |checksum| == 4 && |payload| < TWO_TO_16 && |block| < TWO_TO_16
    requires source == front + WrittenBlock(checksum, reserved, payload, block) + rest
    ensures var at := |front|;
            && at + 8 + |reserved| + |payload| <= |source|
            && Read16(source, at + 4) == |payload| && Read16(source, at + 6) == |block|
            && source[at + 8 + |reserved|..at + 8 + |reserved| + |payload|] == payload
  {
    hide LittleEndian16;
    var at := |front|;
    var sizes := LittleEndian16(|payload|);
    assert source[at + 4] == LittleEndian16(|payload|)[0] && source[at + 5] == LittleEndian16(|payload|)[1];
    assert source[at + 6] == LittleEndian16(|block|)[0] && source[at + 7] == LittleEndian16(|block|)[1];
    SmallWord(|payload|);
    SmallWord(|block|);
  }

  lemma SmallWord(value: nat)
    requires value < TWO_TO_16
    ensures Word(LittleEndian16(value)[0], LittleEndian16(value)[1]) == value
  {
    WordOfBytes(value);
  }

  lemma WrittenIsStored(s: Source, folder: Folder, before: Bytes, checksum: Bytes, reserved: Bytes,
                        payloads: seq<Bytes>, blocks: seq<Bytes>, after: Bytes, i: nat)
    requires |payloads| == |blocks| && i < |blocks| && folder.dataOffset == |before|
    requires IsWritten(s, before, checksum, reserved, payloads, blocks, after)
    ensures Stands(s, folder, payloads, payloads[i], |blocks[i]|, i)
  {
    hide WrittenBlock, WrittenBlocks, HeaderAt, Read16;
    var rest := WrittenSplits(checksum, reserved, payloads, blocks, i);
    var front := before + WrittenBlocks(checksum, reserved, payloads[..i], blocks[..i]);
    HeadersFollow(s, folder, checksum, reserved, payloads[..i], blocks[..i]);
    assert s.source == front + WrittenBlock(checksum, reserved, payloads[i], blocks[i]) + (rest + after);
    WrittenBlockStands(s.source, front, checksum, reserved, payloads[i], blocks[i], rest + after);
  }

  /**
   A folder written with any compressor that `inflate` undoes, both given the
   last 32768 bytes before each block, extracts as the stream it was cut from;
   so does one written plain.
   */
  lemma WrittenFolderIsExtracted(s: Source, folder: Folder, deflate: (Bytes, Bytes) -> Bytes, before: Bytes,
                                 checksum: Bytes, reserved: Bytes, blocks: seq<Bytes>, after: Bytes,
                                 entries: seq<Entry>)
    requires folder.compression <= 1 && folder.dataOffset == |before| && folder.blockCount == |blocks|
    requires Undoes(s.inflate, deflate)
    requires IsWritten(s, before, checksum, reserved, Payloads(deflate, folder.compression, blocks), blocks, after)
    ensures |Concat(blocks)| < LastByte(entries) ==> Stream(s, folder, entries) == Err(EndedEarly)
    ensures |Concat(blocks)| >= LastByte(entries) ==>
              && Stream(s, folder, entries).Ok?
              && Stretches(Stream(s, folder, entries).value, entries) == Stretches(Concat(blocks), entries)
  {
    hide Stands, Represents, IsWritten, Kept, Undoes, LastByte, Stretches, Stream;
    var payloads := Payloads(deflate, folder.compression, blocks);
    forall i | 0 <= i < |blocks| ensures Stored(s, folder, payloads, blocks, i) {
      WrittenIsStored(s, folder, before, checksum, reserved, payloads, blocks, after, i);
      PayloadAt(deflate, folder.compression, blocks, i);
      KeptRepresents(s, deflate, folder.compression, blocks[i], Concat(blocks[..i]));
    }
    AnyCutExtractsTheSame(s, folder, payloads, blocks, entries);
  }

  /** What `ReadGroup` and `ExtractFolder` ensure of a stream they ensure of any other with the same stretches. */
  lemma YieldIsStretches(outputs: seq<array<Byte>>, stream: Bytes, entries: seq<Entry>)
    requires |stream| >= LastByte(entries) && Yield(outputs, stream, entries)
    ensures forall i :: 0 <= i < |entries| ==> outputs[i][..] == Stretches(stream, entries)[i]
  {
  }

  // ----- A folder that goes wrong

  /** What a block that is not as it should be is refused for. */
  ghost function Fault(s: Source, compression: nat, payload: Bytes, size: nat, before: Bytes): Option<CabError> {
    if compression == 0 then if |payload| != size then Some(BlockSizeMismatch) else None
    else if |payload| < 2 || payload[..2] != [0x43, 0x4b] then Some(BadSignature)
    else
      match s.inflate(payload[2..], Dictionary(before))
      case None => Some(InflateFailed)
      case Some(block) => if |block| != size then Some(BlockSizeMismatch) else None
  }

  /**
   The first faulty block that is needed decides the failure: without the
   signature, with something that does not inflate, or of another size.
   */
  lemma FirstFaultIsReported(s: Source, folder: Folder, payloads: seq<Bytes>, blocks: seq<Bytes>, payload: Bytes,
                             size: nat, entries: seq<Entry>)
    requires BeginsWith(s, folder, payloads, blocks) && |payloads| == |blocks| < folder.blockCount
    requires |Concat(blocks)| < LastByte(entries) && folder.compression <= 1
    requires Stands(s, folder, payloads, payload, size, |payloads|)
    requires Fault(s, folder.compression, payload, size, Concat(blocks)).Some?
    ensures Stream(s, folder, entries) == Err(Fault(s, folder.compression, payload, size, Concat(blocks)).value)
  {
    hide HeaderAt, Concat, LastByte, BeginsWith, Stands, Fault, Window, Expand, ReadBlock;
    var enough := LastByte(entries);
    var read := ExpandsToBlocks(s, folder, payloads, blocks, enough, |blocks|);
    ConcatPrefix(blocks, read);
    assert blocks[..|blocks|] == blocks && payloads[..|payloads|] == payloads;
    assert read == |blocks|;
    FaultyBlock(s, folder, payloads, payload, size, Concat(blocks));
    OneMoreBlock(s, folder, enough, |blocks|, Concat(blocks), HeaderAt(s, folder, payloads));
    ExpandSettles(s, folder, enough, |blocks| + 1, folder.blockCount);
  }

  lemma FaultyPayload(s: Source, compression: nat, payload: Bytes, size: nat, before: Bytes)
    requires compression <= 1 && Fault(s, compression, payload, size, before).Some?
    ensures var fault := Fault(s, compression, payload, size, before).value;
            match Payload(s, compression, payload, Window(before))
            case Err(e) => e == fault
            case Ok(block) => |block| != size && fault == BlockSizeMismatch
  {
    hide Window, Dictionary;
    WindowIsDictionary(before);
    assert |payload| >= 2 ==> payload[..2] == [payload[0], payload[1]];
  }

  lemma FaultyBlock(s: Source, folder: Folder, payloads: seq<Bytes>, payload: Bytes, size: nat, before: Bytes)
    requires folder.compression <= 1 && Stands(s, folder, payloads, payload, size, |payloads|)
    requires Fault(s, folder.compression, payload, size, before).Some?
    ensures ReadBlock(s, folder.compression, HeaderAt(s, folder, payloads), Window(before))
              == Err(Fault(s, folder.compression, payload, size, before).value)
  {
    hide Window, HeaderAt, Payload, Fault, Read16;
    assert payloads[..|payloads|] == payloads;
    FaultyPayload(s, folder.compression, payload, size, before);
  }
}
