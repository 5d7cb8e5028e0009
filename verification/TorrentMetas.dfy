/**
 What meta.go keeps of a torrent: its files laid out over the stream, and its piece
 hashes; and which pieces a file covers (get2.go).
 */
module TorrentMetas {
  import opened Streams
  import opened PieceWalks
  import opened VirtualFiles
  import Paths

  datatype InfoFile = InfoFile(path: seq<string>, length: nat)

  /** The info dictionary. `files == []` is the single-file form, whose length is
      `length`; `extra` stands for every field that nothing here looks at. */
  datatype Info = Info(name: string, length: nat, files: seq<InfoFile>, pieceLength: nat, pieces: seq<string>,
                       extra: string)

  datatype FileEntry = FileEntry(path: string, size: nat, offset: nat)

  datatype TorrentMeta = TorrentMeta(infohash: string, name: string, displayName: string, pieceLen: nat,
                                     totalLen: nat, files: seq<FileEntry>, pieceHashes: seq<string>)

  function SumLengths(files: seq<InfoFile>): nat {
    if files == [] then 0 else files[0].length + SumLengths(files[1..])
  }

  function TotalLength(info: Info): nat {
    if info.files == [] then info.length else SumLengths(info.files)
  }

  /** Strips slashes at both ends and refuses the names an SFTP client chokes on. */
  function SanitizeName(n: string): string {
    var t := TrimSlashes(n);
    if t == "" || t == "." || t == ".." then "torrent" else t
  }

  function TrimSlashes(n: string): string {
    if n != [] && n[0] == '/' then TrimSlashes(n[1..])
    else if n != [] && n[|n| - 1] == '/' then TrimSlashes(n[..|n| - 1])
    else n
  }

  function OffsetsFrom(files: seq<InfoFile>, offset: nat): seq<FileEntry> {
    if files == [] then []
    else [FileEntry(Paths.Join(files[0].path), files[0].length, offset)]
         + OffsetsFrom(files[1..], offset + files[0].length)
  }

  /** Where the files of a torrent lie in its stream. */
  function Layout(info: Info): seq<FileEntry> {
    if info.files == [] then [FileEntry(SanitizeName(info.name), info.length, 0)] else OffsetsFrom(info.files, 0)
  }

  /** `buildMeta`. */
  method BuildMeta(info: Info, infohash: string) returns (tm: TorrentMeta)
    ensures tm.infohash == infohash && tm.name == SanitizeName(info.name) && tm.displayName == ""
    ensures tm.pieceLen == info.pieceLength && tm.totalLen == TotalLength(info)
    ensures tm.files == Layout(info) && tm.pieceHashes == info.pieces
  {
    var files: seq<FileEntry> := [];
    if |info.files| == 0 {
      files := [FileEntry(SanitizeName(info.name), info.length, 0)];
    } else {
      var offset: nat := 0;
      for i := 0 to |info.files|
        invariant OffsetsFrom(info.files, 0) == files + OffsetsFrom(info.files[i..], offset)
      {
        var f := info.files[i];
        files := files + [FileEntry(Paths.Join(f.path), f.length, offset)];
        offset := offset + f.length;
        assert info.files[i..][1..] == info.files[i + 1..];
      }
      assert files + [] == files;
    }
    var hashes: seq<string> := [];
    for i := 0 to |info.pieces|
      invariant hashes == info.pieces[..i]
    {
      hashes := hashes + [info.pieces[i]];
    }
    tm := TorrentMeta(infohash, SanitizeName(info.name), "", info.pieceLength, TotalLength(info), files, hashes);
  }

  /** The name without the slashes around it; a name that is none then becomes "torrent". */
  lemma SanitizedIs(n: string) returns (i: nat, j: nat)
    ensures i <= j <= |n| && (forall k | 0 <= k < i || j <= k < |n| :: n[k] == '/')
    ensures i < j ==> n[i] != '/' && n[j - 1] != '/'
    ensures SanitizeName(n) == if n[i..j] in {"", ".", ".."} then "torrent" else n[i..j]
  {
    i, j := TrimmedIs(n);
  }

  lemma {:induction false} TrimmedIs(n: string) returns (i: nat, j: nat)
    ensures i <= j <= |n| && TrimSlashes(n) == n[i..j]
    ensures forall k | 0 <= k < i || j <= k < |n| :: n[k] == '/'
    ensures i < j ==> n[i] != '/' && n[j - 1] != '/'
    decreases |n|
  {
    if n != [] && n[0] == '/' {
      var a, b := TrimmedIs(n[1..]);
      i, j := a + 1, b + 1;
      assert n[1..][a..b] == n[i..j];
      assert forall k | 1 <= k < |n| :: n[k] == n[1..][k - 1];
    } else if n != [] && n[|n| - 1] == '/' {
      i, j := TrimmedIs(n[..|n| - 1]);
      assert n[..|n| - 1][i..j] == n[i..j];
      assert forall k | 0 <= k < |n| - 1 :: n[k] == n[..|n| - 1][k];
    } else {
      i, j := 0, |n|;
      assert n[..] == n;
    }
  }

  lemma {:induction false} OffsetsAt(files: seq<InfoFile>, offset: nat, i: nat)
    requires i < |files|
    ensures |OffsetsFrom(files, offset)| == |files|
    ensures var f := OffsetsFrom(files, offset)[i];
            && f.path == Paths.Join(files[i].path) && f.size == files[i].length
            && f.offset == offset + SumLengths(files[..i])
  {
    if |files| > 1 {
      OffsetsAt(files[1..], offset + files[0].length, if i > 0 then i - 1 else 0);
    }
    if i > 0 {
      assert files[..i][0] == files[0] && files[..i][1..] == files[1..][..i - 1];
    }
  }

  /** How many files a torrent shows. */
  function FileCount(info: Info): nat {
    if info.files == [] then 1 else |info.files|
  }

  /** Where file `i` starts in the stream: behind all files before it. */
  function FileStart(info: Info, i: nat): nat {
    if i <= |info.files| then SumLengths(info.files[..i]) else 0
  }

  function FileLength(info: Info, i: nat): nat {
    if i < |info.files| then info.files[i].length else info.length
  }

  /** The layout, file by file: each has its own length, its own path, and starts where the
      files before it end. A torrent in single-file form is one file of its own name. */
  lemma LayoutIs(info: Info, i: nat)
    requires i < FileCount(info)
    ensures |Layout(info)| == FileCount(info)
    ensures Layout(info)[i].offset == FileStart(info, i) && Layout(info)[i].size == FileLength(info, i)
    ensures info.files == [] ==> Layout(info)[i].path == SanitizeName(info.name)
    ensures info.files != [] && info.files[i].path != [] && Paths.Slashless(info.files[i].path) ==>
              Paths.Split(Layout(info)[i].path) == info.files[i].path
  {
    if info.files != [] {
      OffsetsAt(info.files, 0, i);
      if info.files[i].path != [] && Paths.Slashless(info.files[i].path) {
        Paths.SplitJoin(info.files[i].path);
      }
    }
  }

  /** The files are laid end to end from 0 to `total`. */
  ghost predicate Partitions(files: seq<FileEntry>, start: nat, total: nat) {
    if files == [] then start == total
    else files[0].offset == start && Partitions(files[1..], start + files[0].size, total)
  }

  lemma {:induction false} OffsetsPartition(files: seq<InfoFile>, offset: nat)
    ensures Partitions(OffsetsFrom(files, offset), offset, offset + SumLengths(files))
  {
    if files != [] {
      OffsetsPartition(files[1..], offset + files[0].length);
      assert OffsetsFrom(files, offset)[1..] == OffsetsFrom(files[1..], offset + files[0].length);
    }
  }

  lemma LayoutPartitions(info: Info)
    ensures Partitions(Layout(info), 0, TotalLength(info))
  {
    if info.files != [] {
      OffsetsPartition(info.files, 0);
    }
  }

  ghost predicate Holds(f: FileEntry, pos: nat) {
    f.offset <= pos < f.offset + f.size
  }

  /** Every stream position belongs to exactly one file, and every file ends inside
      the stream. */
  lemma {:induction false} EachPositionInOneFile(files: seq<FileEntry>, start: nat, total: nat, pos: nat)
    returns (i: nat)
    requires Partitions(files, start, total) && start <= pos < total
    ensures i < |files| && Holds(files[i], pos)
    ensures forall j | 0 <= j < |files| && Holds(files[j], pos) :: j == i
    decreases |files|
  {
    FilesFrom(files, start, total);
    if pos < start + files[0].size {
      FilesFrom(files[1..], start + files[0].size, total);
      i := 0;
      assert forall j | 1 <= j < |files| :: files[j] == files[1..][j - 1];
    } else {
      var k := EachPositionInOneFile(files[1..], start + files[0].size, total, pos);
      i := k + 1;
      forall j | 0 <= j < |files| && Holds(files[j], pos)
        ensures j == i
      {
        assert j > 0 && Holds(files[1..][j - 1], pos);
      }
    }
  }

  lemma {:induction false} FilesFrom(files: seq<FileEntry>, start: nat, total: nat)
    requires Partitions(files, start, total)
    ensures start <= total
    ensures forall j {:trigger files[j]} | 0 <= j < |files| ::
              start <= files[j].offset && files[j].offset + files[j].size <= total
    decreases |files|
  {
    if files != [] {
      FilesFrom(files[1..], start + files[0].size, total);
      forall j {:trigger files[j]} | 0 <= j < |files|
        ensures start <= files[j].offset && files[j].offset + files[j].size <= total
      {
        if j > 0 {
          assert files[j] == files[1..][j - 1];
        }
      }
    }
  }

  /** Go's integer division truncates toward zero. */
  function GoDiv(a: int, b: nat): int
    requires b > 0
  {
    if a >= 0 then a / b else -(-a / b)
  }

  datatype Resolved = Hashes(hashes: seq<string>) | NoSuchFile | IndexPanic

  function FirstPiece(f: FileEntry, size: nat): nat
    requires size > 0
  {
    GoDiv(f.offset, size)
  }

  function LastPiece(f: FileEntry, size: nat): int
    requires size > 0
  {
    GoDiv(f.offset + f.size - 1, size)
  }

  /** The first file with this path, or the number of files (get2.go lines 208-216). */
  method FindPath(files: seq<FileEntry>, fpath: string) returns (k: nat)
    ensures k <= |files| && (k < |files| ==> files[k].path == fpath)
    ensures forall j | 0 <= j < k :: files[j].path != fpath
  {
    k := 0;
    while k < |files| && files[k].path != fpath
      invariant 0 <= k <= |files|
      invariant forall j | 0 <= j < k :: files[j].path != fpath
    {
      k := k + 1;
    }
  }

  /** File `k` is the one a path resolves to. */
  ghost predicate IsFirst(files: seq<FileEntry>, fpath: string, k: nat) {
    k < |files| && files[k].path == fpath && forall j | 0 <= j < k :: files[j].path != fpath
  }

  /** `resolveHashes`, once the torrent is found: the hashes to fetch for a path. */
  method ResolveHashes(tm: TorrentMeta, fpath: string) returns (r: Resolved)
    requires tm.pieceLen > 0
    ensures fpath == "" ==> r == Hashes(tm.pieceHashes)
    ensures fpath != "" ==> (r.NoSuchFile? <==> !exists k :: IsFirst(tm.files, fpath, k))
    ensures forall k :: fpath != "" && IsFirst(tm.files, fpath, k) ==> r == Covering(tm, k)
  {
    if fpath == "" {
      return Hashes(tm.pieceHashes);
    }
    var k := FindPath(tm.files, fpath);
    if k == |tm.files| {
      return NoSuchFile;
    }
    assert IsFirst(tm.files, fpath, k);
    r := Collect(tm.pieceHashes, FirstPiece(tm.files[k], tm.pieceLen), LastPiece(tm.files[k], tm.pieceLen));
  }

  /** The hashes from the first to the last piece of file `k`. */
  function Covering(tm: TorrentMeta, k: nat): (r: Resolved)
    requires tm.pieceLen > 0 && k < |tm.files|
    ensures !r.NoSuchFile?
  {
    Slice(tm.pieceHashes, FirstPiece(tm.files[k], tm.pieceLen), LastPiece(tm.files[k], tm.pieceLen))
  }

  /** The loop of resolveHashes (get2.go lines 222-231). */
  method Collect(hashes: seq<string>, start: nat, end: int) returns (r: Resolved)
    ensures r == Slice(hashes, start, end)
  {
    var out: seq<string> := [];
    var i := start;
    while i <= end
      invariant i == start || start < i <= Min(end + 1, |hashes|)
      invariant out == if i <= |hashes| then hashes[start..i] else []
      decreases end - i
    {
      if i >= |hashes| {
        return IndexPanic;
      }
      out := out + [hashes[i]];
      i := i + 1;
    }
    return Hashes(out);
  }

  /** Elements `first` to `last` of the hashes, in order; going past the end panics. */
  function Slice(hashes: seq<string>, first: nat, last: int): (r: Resolved)
    ensures !r.NoSuchFile?
  {
    if last < first then Hashes([])
    else if last >= |hashes| then IndexPanic
    else Hashes(hashes[first .. last + 1])
  }

  /** Piece `i` shares a stream position with the file. */
  ghost predicate Overlaps(f: FileEntry, size: nat, i: nat)
    requires size > 0
  {
    exists pos: nat :: Holds(f, pos) && pos / size == i
  }

  /** For a non-empty file the range is exactly the pieces that hold some of its
      bytes, which are the pieces a whole-file read locates its positions in. */
  lemma CoverIsOverlap(f: FileEntry, size: nat, i: nat)
    requires size > 0 && f.size > 0
    ensures FirstPiece(f, size) <= i <= LastPiece(f, size) <==> Overlaps(f, size, i)
  {
    var lo, hi := f.offset, f.offset + f.size - 1;
    if Overlaps(f, size, i) {
      var pos: nat :| Holds(f, pos) && pos / size == i;
      DivGrows(lo, pos, size);
      DivGrows(pos, hi, size);
    }
    if lo / size <= i <= hi / size {
      if i == lo / size {
        assert Holds(f, lo);
      } else {
        var pos := i * size;
        DivUnique(pos, size, i, 0);
        Between(lo, pos, hi, size, i);
        assert Holds(f, pos);
      }
    }
  }

  /** File `k` of a torrent, as openFile hands it out. */
  function Opened(tm: TorrentMeta, k: nat): VirtualFile
    requires k < |tm.files|
  {
    VirtualFile(tm.files[k].offset, tm.files[k].size, tm.pieceLen, |tm.pieceHashes|)
  }

  /** And when they are served, a read of the whole file calls getPiece for exactly these
      pieces, once each and in that order: ReadAt adds this log to its getter's. */
  lemma CoverIsWholeRead(tm: TorrentMeta, k: nat, content: Bytes, get: Source, calls: nat)
    requires k < |tm.files| && tm.files[k].size > 0 && Opened(tm, k).Describes(content)
    requires Truthful(get, Cut(content, tm.pieceLen))
    requires Opened(tm, k).Serves(0, tm.files[k].size, get, calls, content)
    ensures var log := Opened(tm, k).WalkFor(0, tm.files[k].size, get, calls).log;
            && Covering(tm, k).Hashes? && |Covering(tm, k).hashes| == |log|
            && forall j {:trigger log[j]} | 0 <= j < |log| ::
                 log[j] < |tm.pieceHashes| && Covering(tm, k).hashes[j] == tm.pieceHashes[log[j]]
  {
    ServedGetsThrough(Opened(tm, k), 0, tm.files[k].size, get, calls, content);
    DivGrows(tm.files[k].offset, tm.files[k].offset + tm.files[k].size - 1, tm.pieceLen);
  }

  lemma Between(lo: nat, pos: nat, hi: nat, size: nat, i: nat)
    requires size > 0 && pos == i * size && lo / size < i <= hi / size
    ensures lo <= pos <= hi
  {
    MulMono(lo / size + 1, i, size);
    MulMono(i, hi / size, size);
  }

  /** An empty file covers no piece, but the arithmetic of get2.go agrees only when
      the file starts on a piece boundary other than 0 (or pieces are one byte long);
      otherwise it asks for one piece too many. */
  lemma EmptyFileCover(f: FileEntry, size: nat)
    requires size > 0 && f.size == 0
    ensures forall i: nat :: !Overlaps(f, size, i)
    ensures LastPiece(f, size) < FirstPiece(f, size) <==> f.offset % size == 0 && (f.offset > 0 || size == 1)
    ensures LastPiece(f, size) <= FirstPiece(f, size)
  {
    if f.offset > 0 {
      if f.offset % size == 0 {
        assert (f.offset / size - 1) * size == f.offset / size * size - size;
        DivUnique(f.offset - 1, size, f.offset / size - 1, size - 1);
      } else {
        DivUnique(f.offset - 1, size, f.offset / size, f.offset % size - 1);
      }
    } else if size > 1 {
      DivUnique(1, size, 0, 1);
    }
  }

  /** When picking the pieces of an empty file panics: when it asks for one and the index has
      none there. */
  lemma EmptyFilePanics(tm: TorrentMeta, k: nat)
    requires tm.pieceLen > 0 && k < |tm.files| && tm.files[k].size == 0
    ensures var at, size := tm.files[k].offset, tm.pieceLen;
            Covering(tm, k) == IndexPanic <==>
            !(at % size == 0 && (at > 0 || size == 1)) && at / size >= |tm.pieceHashes|
  {
    EmptyFileCover(tm.files[k], tm.pieceLen);
  }

  /** With the number of hashes a torrent of that length has, this is the torrent without
      any byte, and pieces longer than one byte. */
  lemma EmptyTorrentPanics(tm: TorrentMeta, k: nat)
    requires tm.pieceLen > 0 && k < |tm.files| && tm.files[k].size == 0 && tm.files[k].offset <= tm.totalLen
    requires |tm.pieceHashes| == (tm.totalLen + tm.pieceLen - 1) / tm.pieceLen
    ensures Covering(tm, k) == IndexPanic <==> tm.totalLen == 0 && tm.pieceLen > 1
  {
    var at, size, total := tm.files[k].offset, tm.pieceLen, tm.totalLen;
    EmptyFilePanics(tm, k);
    DivGrows(at + size - 1, total + size - 1, size);
    if at % size > 0 {
      assert (at / size + 1) * size == at / size * size + size;
      DivUnique(at + size - 1, size, at / size + 1, at % size - 1);
    }
    EmptyCount(total, size);
  }

  lemma EmptyCount(total: nat, size: nat)
    requires size > 0
    ensures (total + size - 1) / size == 0 <==> total == 0
  {
    if total == 0 {
      DivUnique(size - 1, size, 0, size - 1);
    } else {
      DivUnique(size, size, 1, 0);
      DivGrows(size, total + size - 1, size);
    }
  }
}
