/**
 The two BIG packers of launcher-asset-worker.js (writeLooseScripts, lines
 889-930, and writeOriginalCursorPack, lines 956-993): both produce the same
 image of a list of files, and the validator reads that list back.
 */
module BigWriter {
  import opened Common
  import opened Numbers
  import opened BigFormat

  datatype File = File(path: Bytes, content: Bytes)

  // ----- The image of a list of files

  function DirectorySize(files: seq<File>): nat {
    if files == [] then 0 else DirectorySize(files[..|files| - 1]) + 9 + |files[|files| - 1].path|
  }

  function DataSize(files: seq<File>): nat {
    if files == [] then 0 else DataSize(files[..|files| - 1]) + |files[|files| - 1].content|
  }

  function Record(file: File, offset: nat): (bytes: Bytes)
    ensures |bytes| == 9 + |file.path|
  {
    BigEndian(offset) + BigEndian(|file.content|) + file.path + [0]
  }

  /** The records of files whose bytes start at `dataStart` and follow one another. */
  function Directory(files: seq<File>, dataStart: nat): (bytes: Bytes)
    ensures |bytes| == DirectorySize(files)
  {
    if files == [] then []
    else
      var init, last := files[..|files| - 1], files[|files| - 1];
      Directory(init, dataStart) + Record(last, dataStart + DataSize(init))
  }

  function Data(files: seq<File>): (bytes: Bytes)
    ensures |bytes| == DataSize(files)
  {
    if files == [] then [] else Data(files[..|files| - 1]) + files[|files| - 1].content
  }

  function DataStart(files: seq<File>): nat {
    16 + DirectorySize(files)
  }

  function Total(files: seq<File>): nat {
    DataStart(files) + DataSize(files)
  }

  function Header(files: seq<File>): (bytes: Bytes)
    ensures |bytes| == 16
  {
    MAGIC + LittleEndian(Total(files)) + BigEndian(|files|) + BigEndian(0)
  }

  function Image(files: seq<File>): (bytes: Bytes)
    ensures |bytes| == Total(files)
  {
    Header(files) + Directory(files, DataStart(files)) + Data(files)
  }

  /** What the directory of an image says. */
  function Listing(files: seq<File>): (entries: seq<Entry>)
    ensures |entries| == |files|
  {
    seq(|files|, i requires 0 <= i < |files| =>
      Entry(files[i].path, DataStart(files) + DataSize(files[..i]), |files[i].content|))
  }

  // ----- Where things lie in an image

  lemma {:induction false} SizesGrow(files: seq<File>, k: nat)
    requires k <= |files|
    ensures DirectorySize(files[..k]) <= DirectorySize(files)
    ensures DataSize(files[..k]) <= DataSize(files)
  {
    if k < |files| {
      assert files[..|files| - 1][..k] == files[..k];
      SizesGrow(files[..|files| - 1], k);
    } else {
      assert files[..k] == files;
    }
  }

  lemma SizeOfNext(files: seq<File>, k: nat)
    requires k < |files|
    ensures DirectorySize(files[..k + 1]) == DirectorySize(files[..k]) + 9 + |files[k].path|
    ensures DataSize(files[..k + 1]) == DataSize(files[..k]) + |files[k].content|
    ensures Data(files[..k + 1]) == Data(files[..k]) + files[k].content
    ensures forall start: nat :: Directory(files[..k + 1], start)
              == Directory(files[..k], start) + Record(files[k], start + DataSize(files[..k]))
  {
    hide Record;
    assert files[..k + 1][..k] == files[..k];
  }

  /** The k-th record. */
  lemma {:induction false} RecordAt(files: seq<File>, start: nat, k: nat)
    requires k < |files|
    ensures var at := DirectorySize(files[..k]);
            && at + 9 + |files[k].path| <= DirectorySize(files)
            && Directory(files, start)[at..at + 9 + |files[k].path|] == Record(files[k], start + DataSize(files[..k]))
  {
    hide Record, DataSize, Directory, DirectorySize;
    var init, last := files[..|files| - 1], files[|files| - 1];
    DirectoryUnfolds(files, start);
    var record := Record(last, start + DataSize(init));
    if k < |files| - 1 {
      assert init[..k] == files[..k];
      RecordAt(init, start, k);
      SliceOfAppend(Directory(init, start), record, DirectorySize(files[..k]),
                    DirectorySize(files[..k]) + 9 + |files[k].path|);
    } else {
      assert init == files[..k];
      SliceOfAppend(Directory(init, start), record, 0, 0);
    }
  }

  lemma DirectoryUnfolds(files: seq<File>, start: nat)
    requires files != []
    ensures var init, last := files[..|files| - 1], files[|files| - 1];
            && Directory(files, start) == Directory(init, start) + Record(last, start + DataSize(init))
            && DirectorySize(files) == DirectorySize(init) + 9 + |last.path|
  {
    hide Record;
  }

  /** The k-th file's bytes. */
  lemma {:induction false} ContentAt(files: seq<File>, k: nat)
    requires k < |files|
    ensures var at := DataSize(files[..k]);
            && at + |files[k].content| <= DataSize(files)
            && Data(files)[at..at + |files[k].content|] == files[k].content
  {
    var init, last := files[..|files| - 1], files[|files| - 1];
    if k < |files| - 1 {
      assert init[..k] == files[..k];
      ContentAt(init, k);
      SliceOfAppend(Data(init), last.content, DataSize(files[..k]), DataSize(files[..k]) + |files[k].content|);
    } else {
      SliceOfAppend(Data(init), last.content, 0, 0);
    }
  }

  // ----- The packers

  method WriteHeader(archive: array<Byte>, files: seq<File>)
    requires archive.Length >= 16
    modifies archive
    ensures archive[..12] == MAGIC + LittleEndian(archive.Length) + BigEndian(|files|)
    ensures forall k :: 12 <= k < archive.Length ==> archive[k] == old(archive[k])
  {
    hide BigEndian, LittleEndian;
    Put(archive, 0, MAGIC);
    Put(archive, 4, LittleEndian(archive.Length));
    Put(archive, 8, BigEndian(|files|));
  }

  /** Only two stretches may differ. */
  ghost predicate Outside(before: Bytes, after: Bytes, from: nat, length: nat, otherFrom: nat, otherLength: nat)
    requires |before| == |after|
  {
    forall k :: 0 <= k < |after| ==>
      (from <= k < from + length || otherFrom <= k < otherFrom + otherLength || after[k] == before[k])
  }

  /** One turn of a packer's loop; only the script packer writes the path's terminator itself. */
  method PutEntry(archive: array<Byte>, directoryCursor: nat, dataCursor: nat, file: File, terminate: bool)
    requires directoryCursor + 9 + |file.path| <= dataCursor && dataCursor + |file.content| <= archive.Length
    requires terminate || archive[directoryCursor + 8 + |file.path|] == 0
    modifies archive
    ensures archive[directoryCursor..directoryCursor + 9 + |file.path|] == Record(file, dataCursor)
    ensures archive[dataCursor..dataCursor + |file.content|] == file.content
    ensures Outside(old(archive[..]), archive[..], directoryCursor, 9 + |file.path|, dataCursor, |file.content|)
  {
    hide BigEndian;
    PutRecord(archive, directoryCursor, dataCursor, file, terminate);
    ghost var before := archive[..];
    Put(archive, dataCursor, file.content);
    assert archive[directoryCursor..directoryCursor + 9 + |file.path|]
             == before[directoryCursor..directoryCursor + 9 + |file.path|];
  }

  method PutRecord(archive: array<Byte>, at: nat, offset: nat, file: File, terminate: bool)
    requires at + 9 + |file.path| <= archive.Length && (terminate || archive[at + 8 + |file.path|] == 0)
    modifies archive
    ensures archive[at..at + 9 + |file.path|] == Record(file, offset)
    ensures forall k :: 0 <= k < archive.Length && !(at <= k < at + 9 + |file.path|) ==> archive[k] == old(archive[k])
  {
    hide BigEndian, Record;
    Put(archive, at, BigEndian(offset));
    Put(archive, at + 4, BigEndian(|file.content|));
    Put(archive, at + 8, file.path);
    if terminate {
      archive[at + 8 + |file.path|] := 0;
    }
    ghost var record := archive[at..at + 9 + |file.path|];
    forall j | 0 <= j < |record| ensures record[j] == Record(file, offset)[j] {
      RecordByte(file, offset, j);
      assert record[j] == archive[at + j];
    }
  }

  lemma RecordByte(file: File, offset: nat, j: nat)
    requires j < 9 + |file.path|
    ensures Record(file, offset)[j] ==
            if j < 4 then BigEndian(offset)[j] else if j < 8 then BigEndian(|file.content|)[j - 4]
            else if j < 8 + |file.path| then file.path[j - 8] else 0
  {
    hide BigEndian;
  }

  /** An image of which the first `done` entries have been written. */
  ghost predicate Written(archive: Bytes, files: seq<File>, start: nat, done: nat)
    requires done <= |files|
  {
    var directory, data := 16 + DirectorySize(files[..done]), start + DataSize(files[..done]);
    && directory <= start <= data <= |archive|
    && archive[..16] == Header(files)
    && archive[16..directory] == Directory(files[..done], start)
    && (forall k :: directory <= k < start ==> archive[k] == 0)
    && archive[start..data] == Data(files[..done])
  }

  lemma NothingWritten(archive: Bytes, files: seq<File>)
    requires |archive| == Total(files) && archive[..16] == Header(files)
    requires forall k :: 16 <= k < |archive| ==> archive[k] == 0
    ensures DirectorySize(files[..0]) == 0 && DataSize(files[..0]) == 0 && Written(archive, files, DataStart(files), 0)
  {
    hide Header;
  }

  lemma ZeroIsZeros()
    ensures BigEndian(0) == [0, 0, 0, 0]
  {
  }

  lemma WriteOneMore(before: Bytes, after: Bytes, files: seq<File>, start: nat, done: nat)
    requires done < |files| && Written(before, files, start, done) && |after| == |before|
    requires var file, directory, data := files[done], 16 + DirectorySize(files[..done]),
             start + DataSize(files[..done]);
             && directory + 9 + |file.path| <= start && data + |file.content| <= |after|
             && after[directory..directory + 9 + |file.path|] == Record(file, data)
             && after[data..data + |file.content|] == file.content
             && Outside(before, after, directory, 9 + |file.path|, data, |file.content|)
    ensures Written(after, files, start, done + 1)
  {
    hide Record, Directory, Data, DirectorySize, DataSize, Header;
    SizeOfNext(files, done);
    var file, directory, data := files[done], 16 + DirectorySize(files[..done]), start + DataSize(files[..done]);
    assert after[..16] == before[..16];
    assert after[16..directory] == before[16..directory];
    assert after[16..directory + 9 + |file.path|] == after[16..directory]
             + after[directory..directory + 9 + |file.path|];
    assert after[start..data] == before[start..data];
    assert after[start..data + |file.content|] == after[start..data] + after[data..data + |file.content|];
  }

  lemma RoomForOneMore(archive: Bytes, files: seq<File>, done: nat)
    requires done < |files| && |archive| == Total(files) && Written(archive, files, DataStart(files), done)
    ensures var file, directory, data := files[done], 16 + DirectorySize(files[..done]),
            DataStart(files) + DataSize(files[..done]);
            && directory + 9 + |file.path| <= DataStart(files) <= data && data + |file.content| <= |archive|
            && archive[directory + 8 + |file.path|] == 0
            && DirectorySize(files[..done + 1]) == DirectorySize(files[..done]) + 9 + |file.path|
            && DataSize(files[..done + 1]) == DataSize(files[..done]) + |file.content|
  {
    hide DirectorySize, DataSize, Directory, Data;
    SizesGrow(files, done + 1);
    SizeOfNext(files, done);
  }

  lemma AllWritten(archive: Bytes, files: seq<File>)
    requires |archive| == Total(files) && Written(archive, files, DataStart(files), |files|)
    ensures archive == Image(files)
  {
    hide Directory, Data, Header;
    assert files[..|files|] == files;
    assert archive == archive[..16] + archive[16..DataStart(files)] + archive[DataStart(files)..];
  }

  /** The two sums of the packers. */
  method Measure(files: seq<File>) returns (directoryBytes: nat, dataBytes: nat)
    ensures directoryBytes == DirectorySize(files) && dataBytes == DataSize(files)
  {
    directoryBytes, dataBytes := 0, 0;
    for i := 0 to |files|
      invariant directoryBytes == DirectorySize(files[..i]) && dataBytes == DataSize(files[..i])
    {
      SizeOfNext(files, i);
      directoryBytes := directoryBytes + 8 + |files[i].path| + 1;
      dataBytes := dataBytes + |files[i].content|;
    }
    assert files[..|files|] == files;
  }

  method WriteEntries(archive: array<Byte>, files: seq<File>, dataStart: nat, terminate: bool)
    requires archive.Length == Total(files) && dataStart == DataStart(files)
    requires archive[..16] == Header(files) && forall k :: 16 <= k < archive.Length ==> archive[k] == 0
    modifies archive
    ensures archive[..] == Image(files)
  {
    hide Directory, Data, Header, Record, DirectorySize, DataSize, Written, Outside, Image;
    var directoryCursor, dataCursor := 16, dataStart;
    NothingWritten(archive[..], files);
    for i := 0 to |files|
      invariant directoryCursor == 16 + DirectorySize(files[..i]) && dataCursor == dataStart + DataSize(files[..i])
      invariant Written(archive[..], files, dataStart, i)
    {
      RoomForOneMore(archive[..], files, i);
      ghost var before := archive[..];
      PutEntry(archive, directoryCursor, dataCursor, files[i], terminate);
      WriteOneMore(before, archive[..], files, dataStart, i);
      directoryCursor := directoryCursor + 9 + |files[i].path|;
      dataCursor := dataCursor + |files[i].content|;
    }
    AllWritten(archive[..], files);
  }

  lemma HeaderInTwo(archive: Bytes, files: seq<File>)
    requires |archive| >= 16 && archive[..12] == MAGIC + LittleEndian(Total(files)) + BigEndian(|files|)
    requires archive[12..16] == BigEndian(0)
    ensures archive[..16] == Header(files)
  {
    assert archive[..16] == archive[..12] + archive[12..16];
  }

  /** writeLooseScripts, up to the write of the finished archive. */
  method PackScripts(files: seq<File>) returns (archive: array<Byte>)
    ensures fresh(archive) && archive[..] == Image(files)
  {
    hide BigEndian, LittleEndian, DirectorySize, DataSize, Image;
    var directoryBytes, dataBytes := Measure(files);
    var dataStart := 16 + directoryBytes;
    var total := dataStart + dataBytes;
    archive := new Byte[total](_ => 0);
    WriteHeader(archive, files);
    Put(archive, 12, BigEndian(0));
    ZeroIsZeros();
    HeaderInTwo(archive[..], files);
    WriteEntries(archive, files, dataStart, true);
  }

  const MAX_CURSOR_PACK := 16 * 1024 * 1024

  /**
   writeOriginalCursorPack, up to the write of the finished pack. The
   reserved word and the paths' terminators are the zeros the buffer starts
   with. A pack of an unexpected size, or too large, is refused.
   */
  method PackCursors(files: seq<File>, expected: nat) returns (pack: array?<Byte>)
    ensures pack == null <==> Total(files) != expected || Total(files) > MAX_CURSOR_PACK
    ensures pack != null ==> fresh(pack) && pack[..] == Image(files)
  {
    hide BigEndian, LittleEndian, DirectorySize, DataSize, Image;
    var directoryBytes, dataBytes := Measure(files);
    var dataStart := 16 + directoryBytes;
    var total := dataStart + dataBytes;
    if total != expected || total > MAX_CURSOR_PACK {
      return null;
    }
    var buffer := new Byte[total](_ => 0);
    WriteHeader(buffer, files);
    ZeroIsZeros();
    HeaderInTwo(buffer[..], files);
    WriteEntries(buffer, files, dataStart, false);
    return buffer;
  }
}
