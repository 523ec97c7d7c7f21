/** Pfs0.cs: the writer and the reader of a PFS0 archive.  A file is its name, as UTF-8
    bytes, and its contents; the directory of files is a sequence. */
module Pfs0 {
  import opened Wrappers

  type byte = b: int | 0 <= b < 256

  datatype File = File(name: seq<byte>, data: seq<byte>)

  datatype Error = InvalidMagic | EndOfStream | BadPosition | BadCount

  type Result<+T> = Outcome<T, Error>

  // ---------------------------------------------------------------- integers

  const TWO31 := 0x8000_0000
  const TWO32 := 0x1_0000_0000
  const TWO63 := 0x8000_0000_0000_0000
  const TWO64 := 0x1_0000_0000_0000_0000

  /** Unchecked C# arithmetic: the value modulo 2^32 or 2^64 in the signed range. */
  function Int32(v: int): int { if v % TWO32 < TWO31 then v % TWO32 else v % TWO32 - TWO32 }
  function Int64(v: int): int { if v % TWO64 < TWO63 then v % TWO64 else v % TWO64 - TWO64 }

  function Bytes4(v: nat): (b: seq<byte>)
    ensures |b| == 4
  {
    [v % 256, v / 0x100 % 256, v / 0x1_0000 % 256, v / 0x100_0000 % 256]
  }

  function Bytes8(v: nat): (b: seq<byte>)
    ensures |b| == 8
  {
    Bytes4(v % TWO32) + Bytes4(v / TWO32)
  }

  function Value4(b: seq<byte>, at: nat): nat
    requires at + 4 <= |b|
  {
    b[at] as nat + 0x100 * b[at + 1] as nat + 0x1_0000 * b[at + 2] as nat + 0x100_0000 * b[at + 3] as nat
  }

  function Value8(b: seq<byte>, at: nat): nat
    requires at + 8 <= |b|
  {
    Value4(b, at) + TWO32 * Value4(b, at + 4)
  }

  lemma Bytes4Value(v: nat)
    requires v < TWO32
    ensures Value4(Bytes4(v), 0) == v
  {
    var v1, v2, v3 := v / 0x100, v / 0x1_0000, v / 0x100_0000;
    assert v2 == v1 / 256 && v3 == v2 / 256 && v3 < 256;
  }

  lemma Bytes8Value(v: nat)
    requires v < TWO64
    ensures Value8(Bytes8(v), 0) == v
  {
    hide Bytes4, Value4;
    var lo, hi := Bytes4(v % TWO32), Bytes4(v / TWO32);
    Bytes4Value(v % TWO32);
    Bytes4Value(v / TWO32);
    Value4Moves(lo, lo + hi, 0, 0);
    Value4Moves(hi, lo + hi, 0, 4);
  }

  lemma Value4Moves(a: seq<byte>, b: seq<byte>, i: nat, j: nat)
    requires i + 4 <= |a| && j + 4 <= |b| && a[i..i + 4] == b[j..j + 4]
    ensures Value4(a, i) == Value4(b, j)
  {
    assert a[i..i + 4] == [a[i], a[i + 1], a[i + 2], a[i + 3]];
    assert b[j..j + 4] == [b[j], b[j + 1], b[j + 2], b[j + 3]];
  }

  /** n rounded up to a multiple of 32: (n + 0x1F) & ~0x1F. */
  function Align(n: nat): (a: nat)
    ensures n <= a < n + 32 && a % 32 == 0
  {
    (n + 31) / 32 * 32
  }

  // ---------------------------------------------------------------- the archive

  // Sums and tables over the first i files.
  function NameOffset(files: seq<File>, i: nat): nat
    requires i <= |files|
  {
    if i == 0 then 0 else NameOffset(files, i - 1) + |files[i - 1].name| + 1
  }

  function DataOffset(files: seq<File>, i: nat): nat
    requires i <= |files|
  {
    if i == 0 then 0 else DataOffset(files, i - 1) + |files[i - 1].data|
  }

  function Entry(files: seq<File>, i: nat): (b: seq<byte>)
    requires i < |files|
    ensures |b| == 24
  {
    Bytes8(DataOffset(files, i)) + Bytes8(|files[i].data|) + Bytes4(NameOffset(files, i)) + Bytes4(0)
  }

  function Table(files: seq<File>, i: nat): (b: seq<byte>)
    requires i <= |files|
    ensures |b| == 24 * i
  {
    if i == 0 then [] else Table(files, i - 1) + Entry(files, i - 1)
  }

  function Names(files: seq<File>, i: nat): (b: seq<byte>)
    requires i <= |files|
    ensures |b| == NameOffset(files, i)
  {
    if i == 0 then [] else Names(files, i - 1) + files[i - 1].name + [0]
  }

  function Contents(files: seq<File>, i: nat): (b: seq<byte>)
    requires i <= |files|
    ensures |b| == DataOffset(files, i)
  {
    if i == 0 then [] else Contents(files, i - 1) + files[i - 1].data
  }

  function Zeros(n: nat): (b: seq<byte>)
    ensures |b| == n && forall i :: 0 <= i < n ==> b[i] == 0
  {
    seq(n, _ => 0)
  }

  const MAGIC: seq<byte> := [80, 70, 83, 48] // PFS0

  function Header(files: seq<File>): (b: seq<byte>)
    ensures |b| == 16
  {
    MAGIC + Bytes4(|files|) + Bytes4(Align(NameOffset(files, |files|))) + Bytes4(0)
  }

  /** Where the header, the file table and the names end. */
  function NamesEnd(files: seq<File>): nat { 16 + 24 * |files| + NameOffset(files, |files|) }

  /** Where the writer puts the data and where the reader looks for it. */
  function WriterStart(files: seq<File>): nat { Align(NamesEnd(files)) }
  function ReaderStart(files: seq<File>): nat { 16 + 24 * |files| + Align(NameOffset(files, |files|)) }

  function Image(files: seq<File>): (b: seq<byte>) {
    var n := |files|;
    Header(files) + Table(files, n) + Names(files, n) + Zeros(WriterStart(files) - NamesEnd(files)) + Contents(files, n)
  }

  /** The sizes that fit the fields and the arrays of the program: 32 bits for the file
      count, the names and each file, 64 bits for all the data. */
  ghost predicate Fits(files: seq<File>) {
    && 24 * |files| + NameOffset(files, |files|) + 64 < TWO31
    && DataOffset(files, |files|) + TWO32 < TWO63
    && forall i :: 0 <= i < |files| ==> |files[i].data| < TWO31
  }

  class BinaryWriter {
    var out: seq<byte>

    constructor ()
      ensures out == []
    {
      out := [];
    }

    method Write(b: seq<byte>)
      modifies this
      ensures out == old(out) + b
    {
      out := out + b;
    }
  }

  method NameOffsets(files: seq<File>) returns (strTableOffs: seq<nat>, strLastOff: nat)
    ensures |strTableOffs| == |files| && strLastOff == NameOffset(files, |files|)
    ensures forall k :: 0 <= k < |files| ==> strTableOffs[k] == NameOffset(files, k)
  {
    strTableOffs, strLastOff := [], 0;
    for i := 0 to |files|
      invariant strLastOff == NameOffset(files, i)
      invariant |strTableOffs| == i && forall k :: 0 <= k < i ==> strTableOffs[k] == NameOffset(files, k)
    {
      strTableOffs := strTableOffs + [strLastOff];
      strLastOff := strLastOff + |files[i].name| + 1;
    }
  }

  method WriteTable(bw: BinaryWriter, files: seq<File>, strTableOffs: seq<nat>)
    requires |strTableOffs| == |files| && forall k :: 0 <= k < |files| ==> strTableOffs[k] == NameOffset(files, k)
    modifies bw
    ensures bw.out == old(bw.out) + Table(files, |files|)
  {
    hide Entry;
    var lastFileOff := 0;
    for i := 0 to |files|
      invariant lastFileOff == DataOffset(files, i) && bw.out == old(bw.out) + Table(files, i)
    {
      WriteEntry(bw, files, i, lastFileOff, strTableOffs[i]);
      assert bw.out == old(bw.out) + (Table(files, i) + Entry(files, i));
      lastFileOff := lastFileOff + |files[i].data|;
    }
  }

  method WriteNames(bw: BinaryWriter, files: seq<File>)
    modifies bw
    ensures bw.out == old(bw.out) + Names(files, |files|)
  {
    for i := 0 to |files|
      invariant bw.out == old(bw.out) + Names(files, i)
    {
      bw.Write(files[i].name + [0]);
      assert bw.out == old(bw.out) + (Names(files, i) + files[i].name + [0]);
    }
  }

  method WriteContents(bw: BinaryWriter, files: seq<File>)
    modifies bw
    ensures bw.out == old(bw.out) + Contents(files, |files|)
  {
    for i := 0 to |files|
      invariant bw.out == old(bw.out) + Contents(files, i)
    {
      bw.Write(files[i].data);
      assert bw.out == old(bw.out) + (Contents(files, i) + files[i].data);
    }
  }

  /** BuildPfs0, for the files of the directory in the order it lists them. */
  method BuildPfs0(bw: BinaryWriter, files: seq<File>)
    requires bw.out == [] && Fits(files)
    modifies bw
    ensures bw.out == Image(files)
  {
    hide Header, Table, Names, Contents, Align, Zeros;
    var strTableOffs, strLastOff := NameOffsets(files);
    WriteHeader(bw, files, Align(strLastOff));
    WriteTable(bw, files, strTableOffs);
    WriteNames(bw, files);
    bw.Write(Zeros(Align(|bw.out|) - |bw.out|));
    WriteContents(bw, files);
  }

  method WriteHeader(bw: BinaryWriter, files: seq<File>, strLastOff: nat)
    requires bw.out == [] && strLastOff == Align(NameOffset(files, |files|))
    modifies bw
    ensures bw.out == Header(files)
  {
    bw.Write(MAGIC);
    bw.Write(Bytes4(|files|));
    bw.Write(Bytes4(strLastOff));
    bw.Write(Bytes4(0));
  }

  method WriteEntry(bw: BinaryWriter, files: seq<File>, i: nat, lastFileOff: nat, strTableOff: nat)
    requires i < |files| && lastFileOff == DataOffset(files, i) && strTableOff == NameOffset(files, i)
    modifies bw
    ensures bw.out == old(bw.out) + Entry(files, i)
  {
    hide Bytes4, Bytes8;
    bw.Write(Bytes8(lastFileOff));
    bw.Write(Bytes8(|files[i].data|));
    bw.Write(Bytes4(strTableOff));
    bw.Write(Bytes4(0));
    assert bw.out == old(bw.out) + (Bytes8(lastFileOff) + Bytes8(|files[i].data|) + Bytes4(strTableOff) + Bytes4(0));
  }

  // ---------------------------------------------------------------- reading

  function Int32At(b: seq<byte>, at: nat): Result<int> {
    if at + 4 <= |b| then Ok(Int32(Value4(b, at))) else Err(EndOfStream)
  }

  function Int64At(b: seq<byte>, at: nat): Result<int> {
    if at + 8 <= |b| then Ok(Int64(Value8(b, at))) else Err(EndOfStream)
  }

  /** The first zero byte at or after a position, or the end. */
  function FirstZero(b: seq<byte>, at: nat): (z: nat)
    ensures at <= |b| ==> at <= z <= |b|
    ensures forall k :: at <= k < z && k < |b| ==> b[k] != 0
    ensures z < |b| ==> at <= z && b[z] == 0
    decreases |b| - at
  {
    if at >= |b| then at else if b[at] == 0 then at else FirstZero(b, at + 1)
  }

  function NameAt(b: seq<byte>, at: int): Result<seq<byte>> {
    if at < 0 then Err(BadPosition)
    else if FirstZero(b, at) >= |b| then Err(EndOfStream)
    else Ok(b[at..FirstZero(b, at)])
  }

  function Min(a: int, b: int): int { if a < b then a else b }

  /** Up to `size` bytes; fewer when the stream ends before. */
  function DataAt(b: seq<byte>, at: int, size: int): Result<seq<byte>> {
    if at < 0 then Err(BadPosition)
    else if size < 0 then Err(BadCount)
    else Ok(b[Min(at, |b|)..Min(at + size, |b|)])
  }

  /** The file of the table entry at a position. */
  function EntryAt(b: seq<byte>, at: nat, dataTable: int, strTable: int): Result<File> {
    var dataOff :- Int64At(b, at);
    var dataSize :- Int64At(b, at + 8);
    var strOff :- Int32At(b, at + 16);
    var padding :- Int32At(b, at + 20);
    var name :- NameAt(b, Int64(strTable + strOff));
    var data :- DataAt(b, Int64(dataTable + dataOff), Int32(dataSize));
    Ok(File(name, data))
  }

  function EntriesAt(b: seq<byte>, count: nat, dataTable: int, strTable: int): Result<seq<File>> {
    if count == 0 then Ok([]) else
      var before :- EntriesAt(b, count - 1, dataTable, strTable);
      var file :- EntryAt(b, 16 + 24 * (count - 1), dataTable, strTable);
      Ok(before + [file])
  }

  /** All the files of an archive, or why it cannot be read. */
  function Extracted(b: seq<byte>): Result<seq<File>> {
    if b[..Min(4, |b|)] != MAGIC then Err(InvalidMagic) else
      var fileCount :- Int32At(b, 4);
      var strTableLength :- Int32At(b, 8);
      var padding :- Int32At(b, 12);
      var strTable := 16 + Int32(fileCount * 24);
      EntriesAt(b, if fileCount < 0 then 0 else fileCount, strTable + strTableLength, strTable)
  }

  class BinaryReader {
    const b: seq<byte>
    var position: nat

    constructor (b: seq<byte>)
      ensures this.b == b && position == 0
    {
      this.b := b;
      position := 0;
    }

    method ReadInt32() returns (r: Result<int>)
      modifies this
      ensures r == Int32At(b, old(position)) && (r.Ok? ==> position == old(position) + 4)
    {
      r := Int32At(b, position);
      position := if r.Ok? then position + 4 else position;
    }

    method ReadInt64() returns (r: Result<int>)
      modifies this
      ensures r == Int64At(b, old(position)) && (r.Ok? ==> position == old(position) + 8)
    {
      r := Int64At(b, position);
      position := if r.Ok? then position + 8 else position;
    }

    method ReadByte() returns (r: Result<byte>)
      modifies this
      ensures r == (if old(position) < |b| then Ok(b[old(position)]) else Err(EndOfStream))
      ensures r.Ok? ==> position == old(position) + 1
    {
      if position >= |b| {
        return Err(EndOfStream);
      }
      r := Ok(b[position]);
      position := position + 1;
    }

    method ReadBytes(size: int) returns (r: Result<seq<byte>>)
      modifies this
      ensures r == DataAt(b, old(position), size)
      ensures size >= 0 && old(position) + size <= |b| ==> position == old(position) + size
    {
      if size < 0 {
        return Err(BadCount);
      }
      var from := Min(position, |b|);
      var to := Min(position + size, |b|);
      position := if position < to then to else position;
      return Ok(b[from..to]);
    }

    method Seek(to: int) returns (r: Result<int>)
      modifies this
      ensures r == (if to < 0 then Err(BadPosition) else Ok(to)) && (r.Ok? ==> position == to)
    {
      if to < 0 {
        return Err(BadPosition);
      }
      position := to;
      return Ok(to);
    }

    /** The loop of the FileEntry constructor that collects the name. */
    method ReadName() returns (r: Result<seq<byte>>)
      modifies this
      ensures r == NameAt(b, old(position))
    {
      ghost var start := position;
      var strBuff: seq<byte> := [];
      while true
        invariant start <= position && FirstZero(b, start) == FirstZero(b, position)
        invariant position <= |b| || position == start
        invariant strBuff == if position <= |b| then b[start..position] else []
        decreases |b| - position
      {
        var c :- ReadByte();
        strBuff := strBuff + [c];
        if c == 0 {
          break;
        }
      }
      return Ok(strBuff[..|strBuff| - 1]);
    }

    /** The FileEntry constructor */
    method ReadFileEntry(dataTableOff: int, strTableOff: int) returns (r: Result<File>)
      modifies this
      ensures r == EntryAt(b, old(position), dataTableOff, strTableOff)
      ensures r.Ok? ==> position == old(position) + 24
    {
      hide FirstZero, Int32, Int64, Value4, Value8, Min;
      var dataOff :- ReadInt64();
      var dataSize :- ReadInt64();
      var strOff :- ReadInt32();
      var padding :- ReadInt32();
      var tempPos := position;
      var seek :- Seek(Int64(strTableOff + strOff));
      var name :- ReadName();
      seek :- Seek(Int64(dataTableOff + dataOff));
      var data :- ReadBytes(Int32(dataSize));
      position := tempPos;
      return Ok(File(name, data));
    }

    /** ExtractFiles: the files in the order they are written out. */
    method ExtractFiles() returns (r: Result<seq<File>>)
      requires position == 0
      modifies this
      ensures r == Extracted(b)
    {
      hide EntryAt;
      var magic := ReadBytes(4);
      if magic != Ok(MAGIC) {
        return Err(InvalidMagic);
      }
      var fileCount :- ReadInt32();
      var strTableLength :- ReadInt32();
      var padding :- ReadInt32();
      var strTable := 16 + Int32(fileCount * 24);
      var fileData := strTable + strTableLength;
      var entries: seq<File> := [];
      var i := 0;
      while i < fileCount
        invariant 0 <= i && (i <= fileCount || i == 0) && position == 16 + 24 * i
        invariant EntriesAt(b, i, fileData, strTable) == Ok(entries)
      {
        var entry := ReadFileEntry(fileData, strTable);
        if entry.Err? {
          EntriesFail(b, i, if fileCount < 0 then 0 else fileCount, fileData, strTable);
          return Err(entry.error);
        }
        entries := entries + [entry.value];
        i := i + 1;
      }
      return Ok(entries);
    }
  }

  /** The first entry that cannot be read decides the result. */
  lemma EntriesFail(b: seq<byte>, i: nat, count: nat, dataTable: int, strTable: int)
    requires i < count && EntriesAt(b, i, dataTable, strTable).Ok?
    requires EntryAt(b, 16 + 24 * i, dataTable, strTable).Err?
    ensures EntriesAt(b, count, dataTable, strTable) == Err(EntryAt(b, 16 + 24 * i, dataTable, strTable).error)
  {
    hide EntryAt;
    if count > i + 1 {
      EntriesFail(b, i, count - 1, dataTable, strTable);
    }
  }

  // ---------------------------------------------------------------- reading what was written

  ghost predicate NulFree(files: seq<File>) {
    forall i :: 0 <= i < |files| ==> 0 !in files[i].name
  }

  lemma {:induction false} OffsetsGrow(files: seq<File>, i: nat, n: nat)
    requires i <= n <= |files|
    ensures NameOffset(files, i) <= NameOffset(files, n) && DataOffset(files, i) <= DataOffset(files, n)
  {
    if i < n {
      OffsetsGrow(files, i, n - 1);
    }
  }

  lemma {:induction false} TableSlice(files: seq<File>, n: nat, i: nat)
    requires i < n <= |files|
    ensures Table(files, n)[24 * i..24 * i + 24] == Entry(files, i)
  {
    hide Entry;
    var before, last := Table(files, n - 1), Entry(files, n - 1);
    if i < n - 1 {
      TableSlice(files, n - 1, i);
      assert (before + last)[24 * i..24 * i + 24] == before[24 * i..24 * i + 24];
    } else {
      assert (before + last)[24 * i..24 * i + 24] == last;
    }
  }

  lemma SliceOfPrefix(before: seq<byte>, last: seq<byte>, i: nat, j: nat)
    requires i <= j <= |before|
    ensures (before + last)[i..j] == before[i..j] && (before + last)[|before|..|before| + |last|] == last
  {
  }

  lemma {:induction false} NamesSlice(files: seq<File>, n: nat, i: nat)
    requires i < n <= |files|
    ensures NameOffset(files, i + 1) <= NameOffset(files, n)
    ensures Names(files, n)[NameOffset(files, i)..NameOffset(files, i + 1)] == files[i].name + [0]
  {
    var before, last := Names(files, n - 1), files[n - 1].name + [0];
    assert Names(files, n) == before + last;
    if i < n - 1 {
      NamesSlice(files, n - 1, i);
      SliceOfPrefix(before, last, NameOffset(files, i), NameOffset(files, i + 1));
    } else {
      SliceOfPrefix(before, last, 0, 0);
    }
  }

  lemma {:induction false} ContentsSlice(files: seq<File>, n: nat, i: nat)
    requires i < n <= |files|
    ensures DataOffset(files, i + 1) <= DataOffset(files, n)
    ensures Contents(files, n)[DataOffset(files, i)..DataOffset(files, i + 1)] == files[i].data
  {
    var before, last := Contents(files, n - 1), files[n - 1].data;
    if i < n - 1 {
      ContentsSlice(files, n - 1, i);
      SliceOfPrefix(before, last, DataOffset(files, i), DataOffset(files, i + 1));
    } else {
      SliceOfPrefix(before, last, 0, 0);
    }
  }

  lemma FiveParts(a: seq<byte>, b: seq<byte>, c: seq<byte>, d: seq<byte>, e: seq<byte>, whole: seq<byte>)
    requires whole == a + b + c + d + e
    ensures var b1 := |a| + |b|; var c1 := b1 + |c|; var d1 := c1 + |d|;
      && |whole| == d1 + |e| && whole[..|a|] == a && whole[|a|..b1] == b && whole[b1..c1] == c && whole[c1..d1] == d && whole[d1..] == e
  {
  }

  /** The parts of an archive. */
  lemma ImageParts(files: seq<File>)
    ensures var n, b, names := |files|, Image(files), 16 + 24 * |files|;
      && |b| == WriterStart(files) + DataOffset(files, n)
      && b[..16] == Header(files) && b[16..names] == Table(files, n) && b[names..NamesEnd(files)] == Names(files, n)
      && (forall k :: NamesEnd(files) <= k < WriterStart(files) ==> b[k] == 0)
      && b[WriterStart(files)..] == Contents(files, n)
  {
    hide Header, Table, Names, Contents, Align;
    var n, b := |files|, Image(files);
    var pad := Zeros(WriterStart(files) - NamesEnd(files));
    FiveParts(Header(files), Table(files, n), Names(files, n), pad, Contents(files, n), b);
    assert b[NamesEnd(files)..WriterStart(files)] == pad;
    forall k | NamesEnd(files) <= k < WriterStart(files) ensures b[k] == 0 {
      assert b[k] == b[NamesEnd(files)..WriterStart(files)][k - NamesEnd(files)];
    }
  }

  lemma Value4Of(b: seq<byte>, at: nat, v: nat)
    requires at + 4 <= |b| && v < TWO32 && b[at..at + 4] == Bytes4(v)
    ensures Value4(b, at) == v
  {
    hide Bytes4, Value4;
    Bytes4Value(v);
    assert Bytes4(v)[0..0 + 4] == Bytes4(v);
    Value4Moves(Bytes4(v), b, 0, at);
  }

  lemma Value8Of(b: seq<byte>, at: nat, v: nat)
    requires at + 8 <= |b| && v < TWO64 && b[at..at + 8] == Bytes8(v)
    ensures Value8(b, at) == v
  {
    hide Bytes8, Value4;
    Bytes8Value(v);
    var c := Bytes8(v);
    assert b[at..at + 4] == b[at..at + 8][0..4] == c[0..0 + 4];
    assert b[at + 4..at + 4 + 4] == b[at..at + 8][4..8] == c[4..4 + 4];
    Value4Moves(c, b, 0, at);
    Value4Moves(c, b, 4, at + 4);
  }

  lemma ReadsInt32(b: seq<byte>, at: nat, v: nat)
    requires at + 4 <= |b| && v < TWO31 && b[at..at + 4] == Bytes4(v)
    ensures Int32At(b, at) == Ok(v)
  {
    hide Bytes4, Value4;
    Value4Of(b, at, v);
  }

  lemma ReadsInt64(b: seq<byte>, at: nat, v: nat)
    requires at + 8 <= |b| && v < TWO63 && b[at..at + 8] == Bytes8(v)
    ensures Int64At(b, at) == Ok(v)
  {
    hide Bytes8, Value8;
    Value8Of(b, at, v);
  }

  lemma {:induction false} FirstZeroIs(b: seq<byte>, at: nat, z: nat)
    requires at <= z < |b| && b[z] == 0 && forall k :: at <= k < z ==> b[k] != 0
    ensures FirstZero(b, at) == z
    decreases z - at
  {
    if at < z {
      FirstZeroIs(b, at + 1, z);
    }
  }

  lemma ReadsName(b: seq<byte>, at: nat, name: seq<byte>)
    requires at + |name| + 1 <= |b| && b[at..at + |name| + 1] == name + [0] && 0 !in name
    ensures NameAt(b, at) == Ok(name)
  {
    var z := at + |name|;
    assert b[z] == b[at..z + 1][|name|] == 0;
    forall k | at <= k < z ensures b[k] != 0 {
      assert b[k] == b[at..z + 1][k - at] == name[k - at];
    }
    FirstZeroIs(b, at, z);
    assert b[at..z] == b[at..z + 1][..|name|] == name;
  }

  lemma SliceOfSlice(b: seq<byte>, from: nat, to: nat, i: nat, j: nat, part: seq<byte>)
    requires from <= to <= |b| && b[from..to] == part && i <= j <= |part|
    ensures b[from + i..from + j] == part[i..j]
  {
    assert |b[from + i..from + j]| == j - i;
    forall k | 0 <= k < j - i ensures b[from + i..from + j][k] == part[i..j][k] {
      assert b[from..to][i + k] == b[from + i + k];
    }
  }

  lemma SmallIsSigned(v: nat)
    ensures v < TWO31 ==> Int32(v) == v
    ensures v < TWO63 ==> Int64(v) == v
  {
  }

  lemma EntryParts(files: seq<File>, i: nat)
    requires i < |files|
    ensures var e := Entry(files, i);
      && e[0..8] == Bytes8(DataOffset(files, i)) && e[8..16] == Bytes8(|files[i].data|)
      && e[16..20] == Bytes4(NameOffset(files, i)) && e[20..24] == Bytes4(0)
  {
    hide Bytes4, Bytes8, DataOffset, NameOffset;
    FiveParts(Bytes8(DataOffset(files, i)), Bytes8(|files[i].data|), Bytes4(NameOffset(files, i)), Bytes4(0), [], Entry(files, i));
  }

  /** The four numbers of a table entry. */
  lemma ReadsEntry(b: seq<byte>, at: nat, files: seq<File>, i: nat)
    requires i < |files| && Fits(files) && at + 24 <= |b| && b[at..at + 24] == Entry(files, i)
    ensures Int64At(b, at) == Ok(DataOffset(files, i)) && Int64At(b, at + 8) == Ok(|files[i].data|)
    ensures Int32At(b, at + 16) == Ok(NameOffset(files, i)) && Int32At(b, at + 20) == Ok(0)
  {
    hide Bytes4, Bytes8, Int32At, Int64At, Entry;
    var e := Entry(files, i);
    EntryParts(files, i);
    OffsetsGrow(files, i, |files|);
    SliceOfSlice(b, at, at + 24, 0, 8, e);
    SliceOfSlice(b, at, at + 24, 8, 16, e);
    SliceOfSlice(b, at, at + 24, 16, 20, e);
    SliceOfSlice(b, at, at + 24, 20, 24, e);
    ReadsInt64(b, at, DataOffset(files, i));
    ReadsInt64(b, at + 8, |files[i].data|);
    ReadsInt32(b, at + 16, NameOffset(files, i));
    ReadsInt32(b, at + 20, 0);
  }

  /** Where an archive holds the table entry and the name of file i. */
  lemma EntryInImage(files: seq<File>, i: nat)
    requires i < |files|
    ensures var b, at := Image(files), 16 + 24 * i; at + 24 <= |b| && b[at..at + 24] == Entry(files, i)
  {
    hide Image, Table, Entry, Align;
    var n, b := |files|, Image(files);
    ImageParts(files);
    TableSlice(files, n, i);
    SliceOfSlice(b, 16, 16 + 24 * n, 24 * i, 24 * i + 24, Table(files, n));
  }

  lemma NameInNames(b: seq<byte>, at: nat, names: seq<byte>, from: nat, to: nat, name: seq<byte>)
    requires at + |names| <= |b| && b[at..at + |names|] == names
    requires from <= to <= |names| && names[from..to] == name + [0]
    ensures at + from + |name| + 1 <= |b| && b[at + from..at + from + |name| + 1] == name + [0]
  {
    SliceOfSlice(b, at, at + |names|, from, to, names);
  }

  lemma NameInImage(files: seq<File>, i: nat)
    requires i < |files|
    ensures var b, at, name := Image(files), 16 + 24 * |files| + NameOffset(files, i), files[i].name;
      at + |name| + 1 <= |b| && b[at..at + |name| + 1] == name + [0]
  {
    hide Image, Names, Align, NameOffset, Header, Table, Contents, Zeros;
    ImageParts(files);
    NamesSlice(files, |files|, i);
    OffsetsGrow(files, i, i + 1);
    NameInNames(Image(files), 16 + 24 * |files|, Names(files, |files|), NameOffset(files, i), NameOffset(files, i + 1), files[i].name);
  }

  /** What the reader takes for the contents of file i. */
  function ReadData(files: seq<File>, i: nat): seq<byte>
    requires i < |files|
  {
    var b := Image(files);
    var at := ReaderStart(files) + DataOffset(files, i);
    b[Min(at, |b|)..Min(at + |files[i].data|, |b|)]
  }

  function ReadBack(files: seq<File>): (r: seq<File>)
    ensures |r| == |files|
  {
    seq(|files|, i requires 0 <= i < |files| => File(files[i].name, ReadData(files, i)))
  }

  lemma EntryOfImage(files: seq<File>, i: nat)
    requires Fits(files) && NulFree(files) && i < |files|
    ensures EntryAt(Image(files), 16 + 24 * i, ReaderStart(files), 16 + 24 * |files|) == Ok(ReadBack(files)[i])
  {
    hide Image, Entry, NameOffset, DataOffset, Int64At, Int32At, NameAt, Int32, Int64, Align, Min;
    var b, strTable := Image(files), 16 + 24 * |files|;
    EntryInImage(files, i);
    ReadsEntry(b, 16 + 24 * i, files, i);
    NameInImage(files, i);
    ReadsName(b, strTable + NameOffset(files, i), files[i].name);
    OffsetsGrow(files, i, |files|);
    SmallIsSigned(strTable + NameOffset(files, i));
    SmallIsSigned(ReaderStart(files) + DataOffset(files, i));
    SmallIsSigned(|files[i].data|);
  }

  lemma {:induction false} EntriesOfImage(files: seq<File>, i: nat)
    requires Fits(files) && NulFree(files) && i <= |files|
    ensures EntriesAt(Image(files), i, ReaderStart(files), 16 + 24 * |files|) == Ok(ReadBack(files)[..i])
  {
    hide Image, EntryAt, ReadBack, ReaderStart;
    if i > 0 {
      EntriesOfImage(files, i - 1);
      EntryOfImage(files, i - 1);
      assert ReadBack(files)[..i] == ReadBack(files)[..i - 1] + [ReadBack(files)[i - 1]];
    }
  }

  /** Reading a written archive never fails, gives the same files in the same order
      under the same names, and looks for the data from ReaderStart on. */
  lemma ExtractOfBuild(files: seq<File>)
    requires Fits(files) && NulFree(files)
    ensures Extracted(Image(files)) == Ok(ReadBack(files))
  {
    hide Image, Bytes4, Int32At, EntriesAt, ReadBack;
    var n, b, h := |files|, Image(files), Header(files);
    ImageParts(files);
    var size := Align(NameOffset(files, n));
    FiveParts(MAGIC, Bytes4(n), Bytes4(size), Bytes4(0), [], h);
    SliceOfSlice(b, 0, 16, 0, 4, h);
    SliceOfSlice(b, 0, 16, 4, 8, h);
    SliceOfSlice(b, 0, 16, 8, 12, h);
    SliceOfSlice(b, 0, 16, 12, 16, h);
    ReadsInt32(b, 4, n);
    ReadsInt32(b, 8, size);
    ReadsInt32(b, 12, 0);
    SmallIsSigned(24 * n);
    EntriesOfImage(files, n);
    assert ReadBack(files)[..n] == ReadBack(files);
  }

  // ---------------------------------------------------------------- reading any archive

  /** The number that n bytes hold, the low byte first. */
  function Number(b: seq<byte>, at: nat, n: nat): nat
    requires at + n <= |b|
    decreases n
  {
    if n == 0 then 0 else b[at] as nat + 256 * Number(b, at + 1, n - 1)
  }

  lemma NumberIsValue(b: seq<byte>, at: nat)
    ensures at + 4 <= |b| ==> Number(b, at, 4) == Value4(b, at)
    ensures at + 8 <= |b| ==> Number(b, at, 8) == Value8(b, at)
  {
    if at + 4 <= |b| {
      NumberIsFour(b, at);
    }
    if at + 8 <= |b| {
      NumberIsFour(b, at + 4);
      assert Number(b, at, 8) == b[at] as nat + 256 * Number(b, at + 1, 7);
      assert Number(b, at + 1, 7) == b[at + 1] as nat + 256 * Number(b, at + 2, 6);
      assert Number(b, at + 2, 6) == b[at + 2] as nat + 256 * Number(b, at + 3, 5);
      assert Number(b, at + 3, 5) == b[at + 3] as nat + 256 * Number(b, at + 4, 4);
    }
  }

  lemma NumberIsFour(b: seq<byte>, at: nat)
    requires at + 4 <= |b|
    ensures Number(b, at, 4) == Value4(b, at)
  {
    assert Number(b, at, 4) == b[at] as nat + 256 * Number(b, at + 1, 3);
    assert Number(b, at + 1, 3) == b[at + 1] as nat + 256 * Number(b, at + 2, 2);
    assert Number(b, at + 2, 2) == b[at + 2] as nat + 256 * Number(b, at + 3, 1);
    assert Number(b, at + 3, 1) == b[at + 3] as nat;
  }

  /** The table entry at a position describes a file: the place of its data from the start
      of the data, the size, and the place of its name, which ends with a zero, from the
      start of the names. */
  ghost predicate DescribesFile(b: seq<byte>, f: File, entry: nat, names: nat, data: nat) {
    && entry + 24 <= |b|
    && var at, size, name := data + Number(b, entry, 8), Number(b, entry + 8, 8), names + Number(b, entry + 16, 4);
    && size == |f.data| < TWO31 && at + size <= |b| && b[at..at + size] == f.data
    && name + |f.name| < |b| && b[name..name + |f.name|] == f.name && b[name + |f.name|] == 0 && 0 !in f.name
  }

  /** The bytes are an archive of the files whose names take `size` bytes: the magic PFS0,
      the number of files, the size of the names, 4 bytes that mean nothing, one entry of
      24 bytes for each file, the names, and the data. */
  ghost predicate Describes(b: seq<byte>, files: seq<File>, size: nat) {
    && 16 <= |b| < TWO31 && size < TWO31 && 24 * |files| < TWO31
    && b[..4] == [80, 70, 83, 48] && Number(b, 4, 4) == |files| && Number(b, 8, 4) == size
    && forall i :: 0 <= i < |files| ==> DescribesFile(b, files[i], 16 + 24 * i, 16 + 24 * |files|, 16 + 24 * |files| + size)
  }

  lemma NumbersRead(b: seq<byte>, at: nat)
    ensures at + 4 <= |b| ==> Int32At(b, at) == Ok(Int32(Number(b, at, 4)))
    ensures at + 8 <= |b| ==> Int64At(b, at) == Ok(Int64(Number(b, at, 8)))
  {
    hide Value4, Value8, Int32, Int64;
    NumberIsValue(b, at);
  }

  lemma NameRead(b: seq<byte>, at: nat, name: seq<byte>)
    requires at + |name| < |b| && b[at..at + |name|] == name && b[at + |name|] == 0 && 0 !in name
    ensures NameAt(b, at) == Ok(name)
  {
    var z := at + |name|;
    forall k | at <= k < z ensures b[k] != 0 {
      assert b[k] == b[at..z][k - at];
    }
    FirstZeroIs(b, at, z);
  }

  lemma EntryRead(b: seq<byte>, f: File, entry: nat, names: nat, data: nat)
    requires |b| < TWO31 && DescribesFile(b, f, entry, names, data)
    ensures EntryAt(b, entry, data, names) == Ok(f)
  {
    hide Number, Int32At, Int64At, NameAt, Int32, Int64;
    var off, size, name := Number(b, entry, 8), Number(b, entry + 8, 8), Number(b, entry + 16, 4);
    NumbersRead(b, entry);
    NumbersRead(b, entry + 8);
    NumbersRead(b, entry + 16);
    NumbersRead(b, entry + 20);
    SmallIsSigned(off);
    SmallIsSigned(size);
    SmallIsSigned(name);
    SmallIsSigned(data + off);
    SmallIsSigned(names + name);
    NameRead(b, names + name, f.name);
  }

  lemma {:induction false} EntriesRead(b: seq<byte>, files: seq<File>, size: nat, n: nat)
    requires Describes(b, files, size) && n <= |files|
    ensures EntriesAt(b, n, 16 + 24 * |files| + size, 16 + 24 * |files|) == Ok(files[..n])
  {
    hide DescribesFile, EntryAt;
    if n > 0 {
      EntriesRead(b, files, size, n - 1);
      EntryRead(b, files[n - 1], 16 + 24 * (n - 1), 16 + 24 * |files|, 16 + 24 * |files| + size);
      assert files[..n] == files[..n - 1] + [files[n - 1]];
    }
  }

  lemma HeaderRead(b: seq<byte>, files: seq<File>, size: nat)
    requires Describes(b, files, size)
    ensures b[..Min(4, |b|)] == MAGIC && Int32At(b, 4) == Ok(|files|) && Int32At(b, 8) == Ok(size) && Int32At(b, 12).Ok?
    ensures Int32(|files| * 24) == 24 * |files|
  {
    hide Number, DescribesFile, Int32At, Int32;
    NumbersRead(b, 4);
    NumbersRead(b, 8);
    NumbersRead(b, 12);
    SmallIsSigned(|files|);
    SmallIsSigned(size);
    SmallIsSigned(|files| * 24);
  }

  /** Whatever the order of its parts, gaps between them or bytes behind them: the files
      that an archive describes are the ones that are read from it. */
  lemma ReadsWhatIsDescribed(b: seq<byte>, files: seq<File>, size: nat)
    requires Describes(b, files, size)
    ensures Extracted(b) == Ok(files)
  {
    hide Describes, Int32At, EntriesAt, Int32, Min;
    HeaderRead(b, files, size);
    EntriesRead(b, files, size, |files|);
    assert files[..|files|] == files;
  }

  lemma EntryErrors(b: seq<byte>, at: nat, dataTable: int, strTable: int)
    ensures EntryAt(b, at, dataTable, strTable) != Err(InvalidMagic)
  {
  }

  lemma {:induction false} EntriesErrors(b: seq<byte>, n: nat, dataTable: int, strTable: int)
    ensures EntriesAt(b, n, dataTable, strTable) != Err(InvalidMagic)
  {
    hide EntryAt;
    if n > 0 {
      EntriesErrors(b, n - 1, dataTable, strTable);
      EntryErrors(b, 16 + 24 * (n - 1), dataTable, strTable);
    }
  }

  /** What does not begin with the magic, and only that, is refused for it; a count that
      is negative as an int stands for no files. */
  lemma OnlyMagicIsRead(b: seq<byte>)
    ensures Extracted(b) == Err(InvalidMagic) <==> |b| < 4 || b[..4] != [80, 70, 83, 48]
    ensures |b| >= 16 && b[..4] == [80, 70, 83, 48] && Number(b, 4, 4) >= 0x8000_0000 ==> Extracted(b) == Ok([])
  {
    forall n: nat, d, t ensures EntriesAt(b, n, d, t) != Err(InvalidMagic) {
      EntriesErrors(b, n, d, t);
    }
    if |b| >= 16 {
      NumberIsFour(b, 4);
      Value4Bound(b, 4);
      NegativeInt(Number(b, 4, 4));
    }
    hide EntryAt, Value4, Int32;
  }

  lemma Value4Bound(b: seq<byte>, at: nat)
    requires at + 4 <= |b|
    ensures Value4(b, at) < TWO32
  {
  }

  lemma NegativeInt(v: nat)
    requires v < TWO32
    ensures v >= 0x8000_0000 ==> Int32(v) < 0
  {
  }

  /** An archive of these files with `size` bytes for the names and what fills them up,
      and anything behind the data. */
  function Archive(files: seq<File>, fill: seq<byte>, rest: seq<byte>): seq<byte> {
    var n := |files|;
    var names := Names(files, n) + fill;
    [80, 70, 83, 48] + Bytes4(n) + Bytes4(|names|) + Bytes4(0) + Table(files, n) + names + (Contents(files, n) + rest)
  }

  lemma LaidOut(head: seq<byte>, table: seq<byte>, names: seq<byte>, fill: seq<byte>, data: seq<byte>, rest: seq<byte>, whole: seq<byte>)
    requires whole == head + table + (names + fill) + (data + rest)
    ensures var t := |head| + |table|; var d := t + |names| + |fill|;
      && |whole| == d + |data| + |rest| && whole[0..|head|] == head && whole[|head|..t] == table
      && whole[t..t + |names|] == names && whole[d..d + |data|] == data
  {
    FiveParts(head, table, names + fill, data + rest, [], whole);
    var t := |head| + |table|;
    var d := t + |names| + |fill|;
    SliceOfSlice(whole, t, d, 0, |names|, names + fill);
    SliceOfSlice(whole, d, |whole|, 0, |data|, data + rest);
  }

  lemma ArchiveParts(files: seq<File>, fill: seq<byte>, rest: seq<byte>)
    ensures var n, b := |files|, Archive(files, fill, rest);
      var names, size := 16 + 24 * n, NameOffset(files, n) + |fill|;
      && |b| == names + size + DataOffset(files, n) + |rest|
      && b[..4] == [80, 70, 83, 48] && b[4..8] == Bytes4(n) && b[8..12] == Bytes4(size)
      && b[16..names] == Table(files, n) && b[names..names + NameOffset(files, n)] == Names(files, n)
      && b[names + size..names + size + DataOffset(files, n)] == Contents(files, n)
  {
    hide Table, Names, Contents, Bytes4, NameOffset, DataOffset;
    var n, b := |files|, Archive(files, fill, rest);
    var size: nat := |Names(files, n) + fill|;
    var head := [80, 70, 83, 48] + Bytes4(n) + Bytes4(size) + Bytes4(0);
    FiveParts([80, 70, 83, 48], Bytes4(n), Bytes4(size), Bytes4(0), [], head);
    assert b == head + Table(files, n) + (Names(files, n) + fill) + (Contents(files, n) + rest);
    hide Archive;
    LaidOut(head, Table(files, n), Names(files, n), fill, Contents(files, n), rest, b);
    SliceOfSlice(b, 0, 16, 0, 4, head);
    SliceOfSlice(b, 0, 16, 4, 8, head);
    SliceOfSlice(b, 0, 16, 8, 12, head);
  }

  lemma NameInArchive(b: seq<byte>, at: nat, files: seq<File>, i: nat)
    requires i < |files| && at + NameOffset(files, |files|) <= |b|
    requires b[at..at + NameOffset(files, |files|)] == Names(files, |files|)
    ensures var name := at + NameOffset(files, i);
      name + |files[i].name| < |b| && b[name..name + |files[i].name|] == files[i].name && b[name + |files[i].name|] == 0
  {
    hide Names, NameOffset;
    NamesSlice(files, |files|, i);
    OffsetsGrow(files, i, i + 1);
    var name, f := at + NameOffset(files, i), files[i].name;
    NameInNames(b, at, Names(files, |files|), NameOffset(files, i), NameOffset(files, i + 1), f);
    assert b[name + |f|] == b[name..name + |f| + 1][|f|] == 0;
    SliceOfSlice(b, name, name + |f| + 1, 0, |f|, f + [0]);
  }

  lemma DataInArchive(b: seq<byte>, at: nat, files: seq<File>, i: nat)
    requires i < |files| && at + DataOffset(files, |files|) <= |b|
    requires b[at..at + DataOffset(files, |files|)] == Contents(files, |files|)
    ensures var from := at + DataOffset(files, i);
      from + |files[i].data| <= |b| && b[from..from + |files[i].data|] == files[i].data
  {
    hide Contents;
    ContentsSlice(files, |files|, i);
    DataNext(files, i);
    hide DataOffset;
    SliceOfSlice(b, at, at + DataOffset(files, |files|), DataOffset(files, i), DataOffset(files, i + 1), Contents(files, |files|));
  }

  lemma EntryInArchive(b: seq<byte>, files: seq<File>, i: nat)
    requires i < |files| && Fits(files) && 16 + 24 * |files| <= |b| && b[16..16 + 24 * |files|] == Table(files, |files|)
    ensures var at := 16 + 24 * i;
      at + 24 <= |b| && Number(b, at, 8) == DataOffset(files, i) && Number(b, at + 8, 8) == |files[i].data| && Number(b, at + 16, 4) == NameOffset(files, i)
  {
    hide Table, Entry, Number;
    TableSlice(files, |files|, i);
    SliceOfSlice(b, 16, 16 + 24 * |files|, 24 * i, 24 * i + 24, Table(files, |files|));
    EntryNumbers(b, 16 + 24 * i, files, i);
  }

  lemma Described(b: seq<byte>, f: File, entry: nat, names: nat, data: nat, off: nat, name: nat)
    requires entry + 24 <= |b| && Number(b, entry, 8) == off && Number(b, entry + 8, 8) == |f.data| < TWO31 && Number(b, entry + 16, 4) == name
    requires data + off + |f.data| <= |b| && b[data + off..data + off + |f.data|] == f.data
    requires names + name + |f.name| < |b| && b[names + name..names + name + |f.name|] == f.name && b[names + name + |f.name|] == 0 && 0 !in f.name
    ensures DescribesFile(b, f, entry, names, data)
  {
    hide Number;
  }

  /** The parts of bytes that hold files with `size` bytes for the names. */
  ghost predicate HasParts(b: seq<byte>, files: seq<File>, size: nat) {
    var n, at := |files|, 16 + 24 * |files|;
    && NameOffset(files, n) <= size && at + size + DataOffset(files, n) <= |b|
    && b[16..at] == Table(files, n) && b[at..at + NameOffset(files, n)] == Names(files, n)
    && b[at + size..at + size + DataOffset(files, n)] == Contents(files, n)
  }

  lemma FileInParts(b: seq<byte>, files: seq<File>, size: nat, i: nat)
    requires Fits(files) && NulFree(files) && i < |files| && HasParts(b, files, size)
    ensures DescribesFile(b, files[i], 16 + 24 * i, 16 + 24 * |files|, 16 + 24 * |files| + size)
  {
    hide Table, Names, Contents, NameOffset, DataOffset, Number, DescribesFile;
    var at := 16 + 24 * |files|;
    EntryInArchive(b, files, i);
    NameInArchive(b, at, files, i);
    DataInArchive(b, at + size, files, i);
    hide HasParts, Fits;
    Described(b, files[i], 16 + 24 * i, at, at + size, DataOffset(files, i), NameOffset(files, i));
  }

  lemma DataNext(files: seq<File>, i: nat)
    requires i < |files|
    ensures DataOffset(files, i + 1) == DataOffset(files, i) + |files[i].data|
  {
  }

  lemma EntryNumbers(b: seq<byte>, at: nat, files: seq<File>, i: nat)
    requires i < |files| && Fits(files) && at + 24 <= |b| && b[at..at + 24] == Entry(files, i)
    ensures Number(b, at, 8) == DataOffset(files, i) && Number(b, at + 8, 8) == |files[i].data| && Number(b, at + 16, 4) == NameOffset(files, i)
  {
    hide Bytes4, Bytes8, Entry, Number, Value4, Value8, DataOffset, NameOffset;
    var e := Entry(files, i);
    EntryParts(files, i);
    OffsetsGrow(files, i, |files|);
    SliceOfSlice(b, at, at + 24, 0, 8, e);
    SliceOfSlice(b, at, at + 24, 8, 16, e);
    SliceOfSlice(b, at, at + 24, 16, 20, e);
    Value8Of(b, at, DataOffset(files, i));
    Value8Of(b, at + 8, |files[i].data|);
    Value4Of(b, at + 16, NameOffset(files, i));
    NumberIsValue(b, at);
    NumberIsValue(b, at + 8);
    NumberIsValue(b, at + 16);
  }

  /** Any archive laid out in this order gives its files back, whatever fills up the names
      and whatever follows the data. */
  lemma ArchiveRoundTrip(files: seq<File>, fill: seq<byte>, rest: seq<byte>)
    requires Fits(files) && NulFree(files) && |Archive(files, fill, rest)| < TWO31
    ensures Extracted(Archive(files, fill, rest)) == Ok(files)
  {
    var n, b := |files|, Archive(files, fill, rest);
    ArchiveParts(files, fill, rest);
    hide Archive, Extracted, DescribesFile, Bytes4, Number, Value4, NameOffset, DataOffset;
    Value4Of(b, 4, n);
    var size := NameOffset(files, n) + |fill|;
    assert HasParts(b, files, size);
    hide HasParts;
    Value4Of(b, 8, size);
    NumberIsValue(b, 4);
    NumberIsValue(b, 8);
    forall i | 0 <= i < n
      ensures DescribesFile(b, files[i], 16 + 24 * i, 16 + 24 * n, 16 + 24 * n + size) {
      FileInParts(b, files, size, i);
    }
    ReadsWhatIsDescribed(b, files, size);
  }

  // ---------------------------------------------------------------- when the data comes back

  /** The two starts agree for a file count of 2 modulo 4 only. */
  lemma StartsAgree(files: seq<File>)
    ensures ReaderStart(files) == WriterStart(files) <==> |files| % 4 == 2
    ensures NamesEnd(files) <= ReaderStart(files)
  {
    var n, t := |files|, NameOffset(files, |files|);
    hide NameOffset, Align;
    if n % 4 == 2 {
      var q := n / 4;
      assert 16 + 24 * n == 32 * (3 * q + 2);
      AlignShifts(3 * q + 2, t);
    } else {
      assert (16 + 24 * n) % 32 != 0;
      OnlyAlignedAgree(16 + 24 * n, Align(t));
    }
  }

  lemma OnlyAlignedAgree(a: nat, t: nat)
    requires t % 32 == 0 && a % 32 != 0
    ensures (a + t) % 32 != 0
  {
  }

  lemma AlignShifts(q: nat, t: nat)
    ensures Align(32 * q + t) == 32 * q + Align(t)
  {
  }

  lemma ReadDataInside(files: seq<File>, i: nat)
    requires i < |files| && ReaderStart(files) + DataOffset(files, i + 1) <= |Image(files)|
    ensures ReadData(files, i) == Image(files)[ReaderStart(files) + DataOffset(files, i)..ReaderStart(files) + DataOffset(files, i + 1)]
  {
    assert DataOffset(files, i + 1) == DataOffset(files, i) + |files[i].data|;
    hide Image, ReaderStart, DataOffset;
  }

  /** If every file is read back, the contents are what lies from ReaderStart on. */
  lemma {:induction false} ReadContents(files: seq<File>, i: nat)
    requires i <= |files| && ReaderStart(files) + DataOffset(files, i) <= |Image(files)|
    requires forall k :: 0 <= k < i ==> ReadData(files, k) == files[k].data
    ensures Image(files)[ReaderStart(files)..ReaderStart(files) + DataOffset(files, i)] == Contents(files, i)
  {
    hide Image, ReaderStart, ReadData;
    if i > 0 {
      ReadContents(files, i - 1);
      ReadDataInside(files, i - 1);
      var b, r, m, e := Image(files), ReaderStart(files), DataOffset(files, i - 1), DataOffset(files, i);
      hide DataOffset;
      assert b[r..r + e] == b[r..r + m] + b[r + m..r + e];
    }
  }

  predicate AllZero(b: seq<byte>) { forall k :: 0 <= k < |b| ==> b[k] == 0 }

  /** A sequence that is equal to itself shifted behind zeros. */
  lemma {:induction false} ShiftedIsZero(b: seq<byte>, c: seq<byte>, r: nat, w: nat, j: nat)
    requires r < w && |b| == w + |c| && b[w..] == c && b[r..r + |c|] == c && j < |c|
    requires forall k :: r <= k < w ==> b[k] == 0
    ensures c[j] == 0
  {
    assert c[j] == b[r..r + |c|][j] == b[r + j];
    if r + j >= w {
      assert b[r + j] == b[w..][r + j - w];
      ShiftedIsZero(b, c, r, w, r + j - w);
    }
  }

  lemma {:induction false} LastData(files: seq<File>, n: nat) returns (i: nat)
    requires n <= |files| && DataOffset(files, n) > 0
    ensures i < n && |files[i].data| > 0 && DataOffset(files, i) + |files[i].data| == DataOffset(files, n)
  {
    if |files[n - 1].data| > 0 {
      i := n - 1;
    } else {
      i := LastData(files, n - 1);
    }
  }

  lemma EachReadBack(files: seq<File>)
    requires ReadBack(files) == files
    ensures forall k :: 0 <= k < |files| ==> ReadData(files, k) == files[k].data
  {
    hide ReadData;
    forall k | 0 <= k < |files| ensures ReadData(files, k) == files[k].data {
      assert files[k] == ReadBack(files)[k];
    }
  }

  /** Read too early: the padding comes first, so only zeros survive. */
  lemma EarlyNeedsZeros(files: seq<File>)
    requires ReaderStart(files) < WriterStart(files) && ReadBack(files) == files
    ensures AllZero(Contents(files, |files|))
  {
    hide Image, Header, Table, Names, Contents, NameOffset, DataOffset, ReadData, ReadBack, ReaderStart, WriterStart, NamesEnd;
    var b, r, w, c := Image(files), ReaderStart(files), WriterStart(files), Contents(files, |files|);
    StartsAgree(files);
    EachReadBack(files);
    ImageParts(files);
    ReadContents(files, |files|);
    forall j | 0 <= j < |c| ensures c[j] == 0 {
      ShiftedIsZero(b, c, r, w, j);
    }
  }

  lemma ZeroSlice(b: seq<byte>, at: nat, data: seq<byte>)
    requires at + |data| <= |b| && AllZero(data) && forall k :: at <= k < |b| ==> b[k] == 0
    ensures b[at..at + |data|] == data
  {
  }

  lemma ZeroFile(files: seq<File>, i: nat)
    requires i < |files| && AllZero(Contents(files, |files|))
    ensures AllZero(files[i].data) && DataOffset(files, i) + |files[i].data| <= DataOffset(files, |files|)
  {
    ContentsSlice(files, |files|, i);
    var c, from, to := Contents(files, |files|), DataOffset(files, i), DataOffset(files, i + 1);
    forall k | 0 <= k < |files[i].data| ensures files[i].data[k] == 0 {
      assert files[i].data[k] == c[from..to][k];
    }
  }

  lemma EarlyWithZeros(files: seq<File>)
    requires ReaderStart(files) <= WriterStart(files) && AllZero(Contents(files, |files|))
    ensures ReadBack(files) == files
  {
    hide Image, Header, Table, Names, Contents, Align, NameOffset, DataOffset;
    var n, b, r, w := |files|, Image(files), ReaderStart(files), WriterStart(files);
    ImageParts(files);
    StartsAgree(files);
    hide ReaderStart, WriterStart, NamesEnd;
    forall k | r <= k < |b| ensures b[k] == 0 {
      if k >= w {
        assert b[k] == b[w..][k - w];
      }
    }
    forall i | 0 <= i < n ensures ReadData(files, i) == files[i].data {
      ZeroFile(files, i);
      ZeroSlice(b, r + DataOffset(files, i), files[i].data);
    }
  }

  /** Read too late: the last file with any data loses its end. */
  lemma LateTruncates(files: seq<File>)
    requires ReaderStart(files) > WriterStart(files) && DataOffset(files, |files|) > 0
    ensures ReadBack(files) != files
  {
    hide Image, Align, Contents, NameOffset, DataOffset;
    ImageParts(files);
    var i := LastData(files, |files|);
    assert |ReadData(files, i)| < |files[i].data|;
    assert ReadBack(files)[i].data != files[i].data;
  }

  lemma {:induction false} NoData(files: seq<File>, n: nat)
    requires n <= |files| && DataOffset(files, n) == 0
    ensures forall i :: 0 <= i < n ==> files[i].data == []
  {
    if n > 0 {
      NoData(files, n - 1);
    }
  }

  /** Together: an archive gives its files back exactly when the number of files is 2
      modulo 4, or there is no data at all, or the reader starts in the padding and all
      the data is zero. */
  lemma RoundTrip(files: seq<File>)
    requires Fits(files) && NulFree(files)
    ensures Extracted(Image(files)) == Ok(files) <==>
      || |files| % 4 == 2
      || DataOffset(files, |files|) == 0
      || (ReaderStart(files) < WriterStart(files) && AllZero(Contents(files, |files|)))
  {
    hide Extracted, Image, ReadBack, Align, Contents, NameOffset, DataOffset, Fits, ReaderStart, WriterStart;
    ExtractOfBuild(files);
    StartsAgree(files);
    if ReaderStart(files) == WriterStart(files) {
      SameStart(files);
    } else if DataOffset(files, |files|) == 0 {
      NoDataReadBack(files);
    } else if ReaderStart(files) > WriterStart(files) {
      LateTruncates(files);
    } else if AllZero(Contents(files, |files|)) {
      EarlyWithZeros(files);
    } else if ReadBack(files) == files {
      EarlyNeedsZeros(files);
    }
  }

  lemma ReadDataAligned(files: seq<File>, i: nat)
    requires ReaderStart(files) == WriterStart(files) && i < |files|
    ensures ReadData(files, i) == files[i].data
  {
    hide Image, Header, Table, Names, Contents, Align, NameOffset, DataOffset, ReadData, ReaderStart, WriterStart, NamesEnd;
    var b, w := Image(files), WriterStart(files);
    ImageParts(files);
    ContentsSlice(files, |files|, i);
    OffsetsGrow(files, i, i + 1);
    assert b[w..|b|] == b[w..];
    SliceOfSlice(b, w, |b|, DataOffset(files, i), DataOffset(files, i + 1), Contents(files, |files|));
    ReadDataInside(files, i);
  }

  lemma SameStart(files: seq<File>)
    requires ReaderStart(files) == WriterStart(files)
    ensures ReadBack(files) == files
  {
    hide ReadData, ReaderStart, WriterStart;
    forall i | 0 <= i < |files| ensures ReadBack(files)[i] == files[i] {
      ReadDataAligned(files, i);
    }
  }

  lemma NoDataReadBack(files: seq<File>)
    requires DataOffset(files, |files|) == 0
    ensures ReadBack(files) == files
  {
    hide Image, ReaderStart;
    NoData(files, |files|);
    forall i | 0 <= i < |files| ensures ReadData(files, i) == files[i].data {
    }
  }

  /** A single file of one byte that is not zero does not come back: the reader starts
      at 72, behind the data at 64. */
  lemma OneByteIsLost()
    ensures var files := [File([97], [1])]; Fits(files) && NulFree(files) && Extracted(Image(files)) != Ok(files)
  {
    var files := [File([97], [1])];
    assert NameOffset(files, 0) == 0 && DataOffset(files, 0) == 0;
    assert NameOffset(files, 1) == 2 && DataOffset(files, 1) == 1;
    assert ReaderStart(files) == 72 && WriterStart(files) == 64;
    hide Extracted, Image, Contents, ReaderStart, WriterStart;
    RoundTrip(files);
  }
}
