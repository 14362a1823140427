/**
 Reading a file out of a CD image (IsoEntryReader.read,
 WebAssembly/harness/launcher-asset-worker.js:126-173): an image holds
 either the 2048 data bytes of each sector, or raw MODE1 sectors of 2352
 bytes whose data follow 16 bytes of sync and header (ECMA-130, section 14).
 */
module IsoReader {
  import opened Common

  datatype Layout = Cooked | Raw

  const LOGICAL := 2048
  const SECTOR := 2352
  const DATA_OFFSET := 16

  /** A file's place on the disc: its first sector and its size in bytes. */
  datatype Entry = Entry(extent: nat, size: nat)

  datatype ReadError = OutsideEntry | OutsideSource

  /** BlobReader.read: the image's own bytes, or an error. */
  function ReadSource(image: Bytes, offset: int, length: int): Result<Bytes, ReadError> {
    if offset < 0 || length < 0 || offset + length > |image| then Err(OutsideSource)
        else Ok(image[offset..offset + length])
  }

  /** Where a raw image keeps the byte at a logical position of the disc. */
  function Physical(position: nat): nat {
    position / LOGICAL * SECTOR + DATA_OFFSET + position % LOGICAL
  }

  /** The sectors whose data a raw image holds completely. */
  function Sectors(image: Bytes): nat {
    (|image| + SECTOR - DATA_OFFSET - LOGICAL) / SECTOR
  }

  /** A position lies in one of those sectors exactly when its byte, and its sector's last byte, are in the image. */
  lemma InCompleteSector(image: Bytes, position: nat)
    ensures position < Sectors(image) * LOGICAL <==> position / LOGICAL * SECTOR + DATA_OFFSET + LOGICAL <= |image|
    ensures position < Sectors(image) * LOGICAL ==> Physical(position) < |image|
  {
  }

  /** The image of the same disc that holds only the sectors' data. */
  function Cook(image: Bytes): (cooked: Bytes)
    ensures |cooked| == Sectors(image) * LOGICAL
  {
    seq(Sectors(image) * LOGICAL, position requires 0 <= position < Sectors(image) * LOGICAL =>
      InCompleteSector(image, position);
      image[Physical(position)])
  }

  function SectorsUpTo(position: nat): nat {
    (position + LOGICAL - 1) / LOGICAL
  }

  /** Where and how much a raw read takes from the image; the length is negative for an aligned read of nothing. */
  function PhysicalStart(start: nat): nat {
    start / LOGICAL * SECTOR + DATA_OFFSET
  }

  function PhysicalLength(start: nat, length: nat): int {
    (SectorsUpTo(start + length) - start / LOGICAL - 1) * SECTOR + LOGICAL
  }

  /** Every byte of a raw read comes from the stretch taken from the image. */
  lemma ReadsInsideTheStretch(start: nat, length: nat, i: nat)
    requires i < length
    ensures PhysicalStart(start) <= Physical(start + i) < PhysicalStart(start) + PhysicalLength(start, length)
  {
    var sector, last := (start + i) / LOGICAL, SectorsUpTo(start + length);
    assert start / LOGICAL <= sector <= last - 1;
  }

  ghost function RawRead(image: Bytes, start: nat, length: nat): Result<Bytes, ReadError> {
    var taken := ReadSource(image, PhysicalStart(start), PhysicalLength(start, length));
    if taken.Err? then Err(OutsideSource)
    else Ok(seq(length, i requires 0 <= i < length =>
                          ReadsInsideTheStretch(start, length, i);
                          image[Physical(start + i)]))
  }

  ghost function EntryRead(image: Bytes, layout: Layout, entry: Entry, offset: int,
                           length: int): Result<Bytes, ReadError> {
    if offset < 0 || length < 0 || offset + length > entry.size then Err(OutsideEntry)
    else if layout.Cooked? then ReadSource(image, entry.extent * LOGICAL + offset, length)
    else RawRead(image, entry.extent * LOGICAL + offset, length)
  }

  /** Within one sector, logical and physical positions advance together. */
  lemma WithinSector(cursor: nat, step: nat)
    requires cursor % LOGICAL + step < LOGICAL
    ensures Physical(cursor + step) == Physical(cursor) + step
  {
  }

  /** A chunk of a raw read, which ends with its sector or with the read, lies inside the stretch taken. */
  lemma ChunkIsInside(start: nat, length: nat, done: nat, available: nat)
    requires done < length && available == Min(LOGICAL - (start + done) % LOGICAL, length - done)
    ensures available > 0
    ensures var source := ((start + done) / LOGICAL - start / LOGICAL) * SECTOR + (start + done) % LOGICAL;
            && 0 <= source && source + available <= PhysicalLength(start, length)
            && Physical(start + done) == PhysicalStart(start) + source
  {
    ReadsInsideTheStretch(start, length, done + available - 1);
    WithinSector(start + done, available - 1);
  }

  ghost predicate CopiedAt(output: Bytes, image: Bytes, start: nat, i: nat) {
    i < |output| && Physical(start + i) < |image| && output[i] == image[Physical(start + i)]
  }

  /** The first `done` bytes of a raw read. */
  ghost predicate Copied(output: Bytes, image: Bytes, start: nat, done: nat) {
    done <= |output| && forall i: nat :: i < done ==> CopiedAt(output, image, start, i)
  }

  lemma NothingCopied(output: Bytes, image: Bytes, start: nat)
    ensures Copied(output, image, start, 0)
  {
  }

  lemma CopyMore(before: Bytes, after: Bytes, chunk: Bytes, image: Bytes, start: nat, done: nat)
    requires Copied(before, image, start, done) && |after| == |before| && done + |chunk| <= |after|
    requires forall i :: 0 <= i < |after| ==> after[i] == if done <= i < done + |chunk| then chunk[i - done]
               else before[i]
    requires chunk != [] && (start + done) % LOGICAL + |chunk| <= LOGICAL
    requires Physical(start + done) + |chunk| <= |image|
    requires chunk == image[Physical(start + done)..Physical(start + done) + |chunk|]
    ensures Copied(after, image, start, done + |chunk|)
  {
    hide Physical;
    forall i: nat | i < done + |chunk| ensures CopiedAt(after, image, start, i) {
      if i >= done {
        WithinSector(start + done, i - done);
        assert start + i == start + done + (i - done);
        assert after[i] == chunk[i - done] == image[Physical(start + done) + (i - done)];
      } else {
        assert CopiedAt(before, image, start, i);
      }
    }
  }

  lemma CopiedIsTheRead(output: Bytes, image: Bytes, start: nat)
    requires Copied(output, image, start, |output|)
    requires ReadSource(image, PhysicalStart(start), PhysicalLength(start, |output|)).Ok?
    ensures RawRead(image, start, |output|) == Ok(output)
  {
    hide Physical, PhysicalStart, PhysicalLength;
    forall i: nat | i < |output| ensures RawRead(image, start, |output|).value[i] == output[i] {
      assert CopiedAt(output, image, start, i);
    }
    assert RawRead(image, start, |output|).value == output;
  }

  method Read(image: Bytes, layout: Layout, entry: Entry, offset: int, length: int)
    returns (r: Result<Bytes, ReadError>)
    ensures r == EntryRead(image, layout, entry, offset, length)
  {
    hide Physical, PhysicalLength, PhysicalStart, Copied;
    if offset < 0 || length < 0 || offset + length > entry.size {
      return Err(OutsideEntry);
    }
    var logicalStart := entry.extent * LOGICAL + offset;
    if layout.Cooked? {
      return ReadSource(image, logicalStart, length);
    }
    var firstSector := logicalStart / LOGICAL;
    var physical := ReadSource(image, PhysicalStart(logicalStart), PhysicalLength(logicalStart, length));
    if physical.Err? {
      return physical;
    }
    var output := new Byte[length](_ => 0);
    NothingCopied(output[..], image, logicalStart);
    var destination := 0;
    var logicalCursor := logicalStart;
    while destination < length
      invariant 0 <= destination <= length && logicalCursor == logicalStart + destination
      invariant Copied(output[..], image, logicalStart, destination)
    {
      var sector := logicalCursor / LOGICAL;
      var within := logicalCursor % LOGICAL;
      var available := Min(LOGICAL - within, length - destination);
      var source := (sector - firstSector) * SECTOR + within;
      ChunkIsInside(logicalStart, length, destination, available);
      ghost var before := output[..];
      var chunk := physical.value[source..source + available];
      SliceOfSlice(image, PhysicalStart(logicalStart), PhysicalStart(logicalStart) + |physical.value|, source,
                   source + available);
      Put(output, destination, chunk);
      CopyMore(before, output[..], chunk, image, logicalStart, destination);
      destination := destination + available;
      logicalCursor := logicalCursor + available;
    }
    CopiedIsTheRead(output[..], image, logicalStart);
    return Ok(output[..]);
  }

  // ----- Raw and cooked images of the same disc

  /**
   A raw image reads exactly as the cooked image of the same disc, except
   that an aligned read of no bytes fails where the cooked one succeeds.
   */
  lemma RawReadsAsCooked(image: Bytes, entry: Entry, offset: int, length: int)
    ensures EntryRead(image, Raw, entry, offset, length) == EntryRead(Cook(image), Cooked, entry, offset, length) <==>
            !(length == 0 && 0 <= offset <= entry.size && offset % LOGICAL == 0
              && entry.extent * LOGICAL + offset <= |Cook(image)|)
  {
    hide RawRead, Cook;
    if 0 <= offset && 0 <= length && offset + length <= entry.size {
      var start := entry.extent * LOGICAL + offset;
      assert start % LOGICAL == offset % LOGICAL;
      BothSucceedOrFail(image, start, length);
      if EntryRead(image, Raw, entry, offset, length).Ok? {
        SameBytes(image, start, length);
      }
    }
  }

  lemma SameBytes(image: Bytes, start: nat, length: nat)
    requires RawRead(image, start, length).Ok? && start + length <= |Cook(image)|
    ensures RawRead(image, start, length).value == Cook(image)[start..start + length]
  {
    hide Physical, PhysicalStart, PhysicalLength, Sectors;
    forall i | 0 <= i < length ensures RawRead(image, start, length).value[i] == Cook(image)[start..start + length][i] {
      InCompleteSector(image, start + i);
      assert Cook(image)[start + i] == image[Physical(start + i)];
    }
  }

  lemma BothSucceedOrFail(image: Bytes, start: nat, length: nat)
    ensures RawRead(image, start, length).Ok? <==>
            start + length <= |Cook(image)| && !(length == 0 && start % LOGICAL == 0)
    ensures RawRead(image, start, length).Ok? || RawRead(image, start, length) == Err(OutsideSource)
  {
    var from, last := start / LOGICAL, SectorsUpTo(start + length);
    if last > from {
      assert PhysicalStart(start) + PhysicalLength(start, length) == (last - 1) * SECTOR + DATA_OFFSET + LOGICAL;
      assert start + length <= Sectors(image) * LOGICAL <==> last <= Sectors(image);
    } else {
      assert length == 0 && start % LOGICAL == 0;
    }
  }

  /** The i-th byte of a successful raw read is the one 16 bytes into its sector, at its place in the sector's data. */
  lemma RawReadBytes(image: Bytes, entry: Entry, offset: int, length: int, i: nat)
    requires EntryRead(image, Raw, entry, offset, length).Ok? && i < length
    ensures var position := entry.extent * 2048 + offset + i;
            position / 2048 * 2352 + 16 + position % 2048 < |image| &&
            EntryRead(image, Raw, entry, offset, length).value[i]
                == image[position / 2048 * 2352 + 16 + position % 2048]
  {
    hide SectorsUpTo;
    var start := entry.extent * LOGICAL + offset;
    ReadsInsideTheStretch(start, length, i);
    assert RawRead(image, start, length).value[i] == image[Physical(start + i)];
  }
}
