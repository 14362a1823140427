/** The validator reads back what the packers write, exactly when the list of files is within the format's limits. */
module BigRoundTrip {
  import opened Common
  import opened Numbers
  import opened BigFormat
  import opened BigWriter

  ghost predicate WithinLimits(files: seq<File>) {
    && |files| <= MAX_ENTRIES
    && DirectorySize(files) <= MAX_DIRECTORY
    && Total(files) < TWO_TO_32
    && forall i :: 0 <= i < |files| ==> ValidPath(files[i].path)
  }

  /** The image is accepted, and its directory lists exactly the files. */
  ghost predicate ReadsBack(files: seq<File>, required: set<string>, key: Bytes -> string) {
    var image := Image(files);
    && Validate(image, required, key) == Ok((Total(files), |files|))
    && ParseEntries(Visible(image, Total(files)), Total(files), |files|) == Ok((Listing(files), DirectorySize(files)))
  }

  // ----- The header

  lemma HeaderReads(files: seq<File>)
    ensures Image(files)[..4] == MAGIC
    ensures ReadLittleEndian(Image(files), 4) == Total(files) % TWO_TO_32
    ensures ReadBigEndian(Image(files), 8) == |files| % TWO_TO_32
  {
    hide Total, BigEndian, LittleEndian, Join, Directory, Data;
    var image := Image(files);
    NumbersRoundTrip(Total(files));
    NumbersRoundTrip(|files|);
    assert image[4..8] == LittleEndian(Total(files));
    assert image[8..12] == BigEndian(|files|);
  }

  // ----- One record

  /** Reading a record that stands at `cursor`. */
  lemma RecordParses(directory: Bytes, archiveSize: nat, cursor: nat, index: nat, file: File, offset: nat)
    requires archiveSize >= 16 && |directory| == Min(archiveSize - 16, MAX_DIRECTORY)
    requires cursor + 9 + |file.path| <= |directory|
             && directory[cursor..cursor + 9 + |file.path|] == Record(file, offset)
    requires ValidPath(file.path) && offset < TWO_TO_32 && |file.content| < TWO_TO_32
             && offset + |file.content| <= archiveSize
    ensures ParseEntry(directory, archiveSize, cursor, index) ==
            Ok((Entry(file.path, offset, |file.content|), cursor + 9 + |file.path|))
  {
    hide BigEndian, Join, FirstNul, Record;
    RecordPieces(directory, cursor, file, offset);
    NumbersRoundTrip(offset);
    NumbersRoundTrip(|file.content|);
    NulEndsThePath(directory, cursor + 8, file.path);
  }

  lemma RecordPieces(bytes: Bytes, cursor: nat, file: File, offset: nat)
    requires cursor + 9 + |file.path| <= |bytes| && bytes[cursor..cursor + 9 + |file.path|] == Record(file, offset)
    ensures ReadBigEndian(bytes, cursor) == ReadBigEndian(BigEndian(offset), 0)
    ensures ReadBigEndian(bytes, cursor + 4) == ReadBigEndian(BigEndian(|file.content|), 0)
    ensures bytes[cursor + 8..cursor + 8 + |file.path|] == file.path && bytes[cursor + 8 + |file.path|] == 0
  {
    hide BigEndian, Join;
    var record := bytes[cursor..cursor + 9 + |file.path|];
    forall k | 0 <= k < |record| ensures bytes[cursor + k] == record[k] {
    }
    SliceOfSlice(bytes, cursor, cursor + 9 + |file.path|, 8, 8 + |file.path|);
    SliceOfAppend(BigEndian(offset) + BigEndian(|file.content|) + file.path, [0], 8, 8 + |file.path|);
  }

  lemma NulEndsThePath(directory: Bytes, from: nat, path: Bytes)
    requires from + |path| < |directory| && directory[from..from + |path|] == path && directory[from + |path|] == 0
    requires forall k :: 0 <= k < |path| ==> path[k] != 0
    ensures FirstNul(directory, from) == from + |path|
  {
    forall k | from <= k < from + |path| ensures directory[k] != 0 {
      assert directory[k] == directory[from..from + |path|][k - from];
    }
  }

  // ----- All of them

  lemma DirectoryIsVisible(files: seq<File>)
    requires DirectorySize(files) <= MAX_DIRECTORY
    ensures |Visible(Image(files), Total(files))| == Min(Total(files) - 16, MAX_DIRECTORY)
    ensures Visible(Image(files), Total(files))[..DirectorySize(files)] == Directory(files, DataStart(files))
  {
    hide Directory, Data, Header, DirectorySize, DataSize;
    var image := Image(files);
    SliceOfSlice(image, 16, 16 + |Visible(image, Total(files))|, 0, DirectorySize(files));
    assert image[16..16 + DirectorySize(files)] == Directory(files, DataStart(files));
  }

  lemma {:induction false} PrefixParses(files: seq<File>, k: nat)
    requires WithinLimits(files) && k <= |files|
    ensures |Visible(Image(files), Total(files))| == Min(Total(files) - 16, MAX_DIRECTORY)
    ensures ParseEntries(Visible(Image(files), Total(files)), Total(files), k) ==
            Ok((Listing(files)[..k], DirectorySize(files[..k])))
  {
    hide Directory, Data, Header, Image, Record, ParseEntry, DataSize, Visible;
    DirectoryIsVisible(files);
    if k > 0 {
      PrefixParses(files, k - 1);
      NextParses(files, k - 1);
      assert Listing(files)[..k] == Listing(files)[..k - 1] + [Listing(files)[k - 1]];
    }
  }

  lemma NextParses(files: seq<File>, k: nat)
    requires WithinLimits(files) && k < |files|
    requires |Visible(Image(files), Total(files))| == Min(Total(files) - 16, MAX_DIRECTORY)
    ensures ParseEntry(Visible(Image(files), Total(files)), Total(files), DirectorySize(files[..k]), k) ==
            Ok((Listing(files)[k], DirectorySize(files[..k + 1])))
  {
    hide Directory, Data, Header, Image, Record, ParseEntry, DataSize, Visible;
    var visible, at := Visible(Image(files), Total(files)), DirectorySize(files[..k]);
    var file, offset := files[k], DataStart(files) + DataSize(files[..k]);
    DirectoryIsVisible(files);
    RecordAt(files, DataStart(files), k);
    ContentAt(files, k);
    SizeOfNext(files, k);
    SliceOfSlice(visible, 0, DirectorySize(files), at, at + 9 + |file.path|);
    RecordParses(visible, Total(files), at, k, file, offset);
  }

  // ----- The round trip

  lemma KeysOfListing(files: seq<File>, key: Bytes -> string)
    ensures Keys(Listing(files), key) == set i | 0 <= i < |files| :: key(files[i].path)
  {
    forall i | 0 <= i < |files| ensures Listing(files)[i].path == files[i].path {
    }
    forall k | k in Keys(Listing(files), key) ensures exists i :: 0 <= i < |files| && k == key(files[i].path) {
      var i :| 0 <= i < |Listing(files)| && k == key(Listing(files)[i].path);
      assert key(files[i].path) == k;
    }
    forall i | 0 <= i < |files| ensures key(files[i].path) in Keys(Listing(files), key) {
      assert key(Listing(files)[i].path) == key(files[i].path);
    }
  }

  /** Any list of files within the limits is read back from its image. */
  lemma PackedIsAccepted(files: seq<File>, required: set<string>, key: Bytes -> string)
    requires WithinLimits(files) && forall k :: k in required ==>
               exists i :: 0 <= i < |files| && key(files[i].path) == k
    ensures ReadsBack(files, required, key)
  {
    hide Directory, Data, Header, Image, DirectorySize, DataSize, ParseEntries, Visible, Join;
    HeaderReads(files);
    PrefixParses(files, |files|);
    assert files[..|files|] == files && Listing(files)[..|files|] == Listing(files);
    KeysOfListing(files, key);
  }

  /** Beyond any of the limits, the image is refused or says something else. */
  lemma {:induction false} AcceptedIsWithinLimits(files: seq<File>, required: set<string>, key: Bytes -> string)
    requires ReadsBack(files, required, key)
    ensures WithinLimits(files) && forall k :: k in required ==> exists i :: 0 <= i < |files| && key(files[i].path) == k
  {
    hide Directory, Data, Header, DirectorySize, DataSize, ParseEntries, Visible, Join, Keys;
    HeaderReads(files);
    AcceptedEntriesFit(Image(files), required, key);
    assert Total(files) < TWO_TO_32;
    assert |files| < TWO_TO_32 by { FilesTakeSpace(files); }
    forall i | 0 <= i < |files| ensures ValidPath(files[i].path) {
      assert ValidPath(Listing(files)[i].path);
    }
    KeysOfListing(files, key);
  }

  lemma {:induction false} FilesTakeSpace(files: seq<File>)
    ensures |files| <= DirectorySize(files)
  {
    if files != [] {
      FilesTakeSpace(files[..|files| - 1]);
    }
  }

  /** The round trip holds for exactly the lists within the limits that contain the required content. */
  lemma BigRoundTrip(files: seq<File>, required: set<string>, key: Bytes -> string)
    ensures ReadsBack(files, required, key) <==>
            WithinLimits(files) && forall k :: k in required ==> exists i :: 0 <= i < |files| && key(files[i].path) == k
  {
    hide ReadsBack, WithinLimits;
    if ReadsBack(files, required, key) {
      AcceptedIsWithinLimits(files, required, key);
    } else if WithinLimits(files) && forall k :: k in required ==>
      exists i :: 0 <= i < |files| && key(files[i].path) == k {
      PackedIsAccepted(files, required, key);
    }
  }

  /**
   An image's entries follow one another from the end of the directory to the end
   of the image, and hold the files' bytes.
   */
  lemma EntriesTileTheImage(files: seq<File>, k: nat)
    requires k < |files|
    ensures var entries := Listing(files);
            && (k == 0 ==> entries[k].offset == DataStart(files))
            && (k > 0 ==> entries[k].offset == entries[k - 1].offset + entries[k - 1].size)
            && (k == |files| - 1 ==> entries[k].offset + entries[k].size == Total(files))
            && entries[k].offset + entries[k].size <= Total(files)
            && Image(files)[entries[k].offset..entries[k].offset + entries[k].size] == files[k].content
  {
    hide Directory, Header, DirectorySize, Data;
    var e := Listing(files)[k];
    ContentAt(files, k);
    SizeOfNext(files, k);
    if k > 0 {
      SizeOfNext(files, k - 1);
    }
    assert files[..|files|] == files;
    var image := Image(files);
    assert image[DataStart(files)..] == Data(files);
    SliceOfSlice(image, DataStart(files), Total(files), DataSize(files[..k]), DataSize(files[..k]) + e.size);
  }
}
