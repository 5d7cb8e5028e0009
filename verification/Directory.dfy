/**
 The virtual directory tree over the flat file list of a torrent (sftp.go lines 100-230,
 346-360): listing a directory, looking a path up, opening a file.
 */
module Directory {
  import opened TorrentMetas
  import opened Paths

  datatype Item = Item(name: string, size: nat, dir: bool)

  datatype Found<T> = Nothing | Just(value: T)

  function Prefix(dir: string): string {
    if dir == "" then "" else dir + "/"
  }

  predicate StartsWith(s: string, p: string) {
    |p| <= |s| && s[..|p|] == p
  }

  // ---------- Listing

  /** What one file adds to the listing of the directory with this prefix. */
  function Adds(f: FileEntry, prefix: string, seen: set<string>): seq<Item> {
    if !StartsWith(f.path, prefix) then []
    else
      var rest := f.path[|prefix|..];
      var i := IndexSlash(rest);
      if rest == "" then []
      else if i == |rest| then [Item(rest, f.size, false)]
      else if rest[..i] in seen then []
      else [Item(rest[..i], 0, true)]
  }

  function Dirs(items: seq<Item>): set<string> {
    set x | x in items && x.dir :: x.name
  }

  function Collected(files: seq<FileEntry>, prefix: string): seq<Item> {
    if files == [] then []
    else
      var before := Collected(files[..|files| - 1], prefix);
      before + Adds(files[|files| - 1], prefix, Dirs(before))
  }

  /** Go's string order on names. */
  predicate Leq(a: string, b: string) {
    a == [] || (b != [] && (a[0] < b[0] || (a[0] == b[0] && Leq(a[1..], b[1..]))))
  }

  function Insert(x: Item, l: seq<Item>): seq<Item> {
    if l == [] || Leq(x.name, l[0].name) then [x] + l else [l[0]] + Insert(x, l[1..])
  }

  function SortByName(l: seq<Item>): seq<Item> {
    if l == [] then [] else Insert(l[0], SortByName(l[1..]))
  }

  /** `list`, inside a torrent. */
  method List(files: seq<FileEntry>, dir: string) returns (out: seq<Item>)
    ensures out == SortByName(Collected(files, Prefix(dir)))
  {
    var prefix := "";
    if dir != "" {
      prefix := dir + "/";
    }
    var seenDir: set<string> := {};
    out := [];
    for k := 0 to |files|
      invariant out == Collected(files[..k], prefix) && seenDir == Dirs(out)
    {
      assert files[..k + 1][..k] == files[..k];
      out, seenDir := Visit(files[k], prefix, out, seenDir);
    }
    assert files[..|files|] == files;
    out := SortByName(out);
  }

  /** One turn of list's loop. */
  method Visit(f: FileEntry, prefix: string, out: seq<Item>, seenDir: set<string>)
    returns (out': seq<Item>, seenDir': set<string>)
    requires seenDir == Dirs(out)
    ensures out' == out + Adds(f, prefix, Dirs(out)) && seenDir' == Dirs(out')
  {
    DirsAppend(out, Adds(f, prefix, seenDir));
    out', seenDir' := out, seenDir;
    if !StartsWith(f.path, prefix) {
      return;
    }
    var rest := f.path[|prefix|..];
    if rest == "" {
      return;
    }
    var i := IndexSlash(rest);
    if i < |rest| {
      var dname := rest[..i];
      if dname in seenDir {
        return;
      }
      return out + [Item(dname, 0, true)], seenDir + {dname};
    }
    return out + [Item(rest, f.size, false)], seenDir;
  }

  lemma DirsAppend(a: seq<Item>, b: seq<Item>)
    ensures Dirs(a + b) == Dirs(a) + Dirs(b)
  {
    forall n | n in Dirs(a) + Dirs(b)
      ensures n in Dirs(a + b)
    {
      if n in Dirs(a) {
        var x :| x in a && x.dir && x.name == n;
        assert x in a + b;
      } else {
        var x :| x in b && x.dir && x.name == n;
        assert x in a + b;
      }
    }
  }

  // ---------- Looking up

  function FindFile(files: seq<FileEntry>, fpath: string): (i: nat)
    ensures i <= |files|
  {
    if files == [] || files[0].path == fpath then 0 else 1 + FindFile(files[1..], fpath)
  }

  function Base(fpath: string): string {
    Split(fpath)[|Split(fpath)| - 1]
  }

  /** A file with exactly this path, or else a directory some file lies below. */
  function StatIn(files: seq<FileEntry>, fpath: string): Found<Item> {
    var i := FindFile(files, fpath);
    if i < |files| then Just(Item(Base(fpath), files[i].size, false))
    else if exists j | 0 <= j < |files| :: StartsWith(files[j].path, fpath + "/") then Just(Item(Base(fpath), 0, true))
    else Nothing
  }

  lemma {:induction false} FindFileIs(files: seq<FileEntry>, fpath: string)
    ensures var i := FindFile(files, fpath);
            (i < |files| ==> files[i].path == fpath) && forall j | 0 <= j < i :: files[j].path != fpath
  {
    if files != [] && files[0].path != fpath {
      FindFileIs(files[1..], fpath);
      assert forall j | 0 < j < |files| :: files[j] == files[1..][j - 1];
    }
  }

  /** `stat`, inside a torrent. */
  method Stat(files: seq<FileEntry>, fpath: string) returns (r: Found<Item>)
    ensures r == StatIn(files, fpath)
  {
    FindFileIs(files, fpath);
    for i := 0 to |files|
      invariant forall j | 0 <= j < i :: files[j].path != fpath
    {
      if files[i].path == fpath {
        assert FindFile(files, fpath) == i;
        return Just(Item(Base(fpath), files[i].size, false));
      }
    }
    for i := 0 to |files|
      invariant forall j | 0 <= j < i :: !StartsWith(files[j].path, fpath + "/")
    {
      if StartsWith(files[i].path, fpath + "/") {
        return Just(Item(Base(fpath), 0, true));
      }
    }
    return Nothing;
  }

  /** `openFile`, inside a torrent: the index of the file to read. */
  method OpenFile(files: seq<FileEntry>, fpath: string) returns (r: Found<nat>)
    ensures r.Just? <==> fpath != "" && FindFile(files, fpath) < |files|
    ensures r.Just? ==> r.value == FindFile(files, fpath)
  {
    if fpath == "" {
      return Nothing;
    }
    FindFileIs(files, fpath);
    for i := 0 to |files|
      invariant forall j | 0 <= j < i :: files[j].path != fpath
    {
      if files[i].path == fpath {
        assert FindFile(files, fpath) == i;
        return Just(i);
      }
    }
    return Nothing;
  }

  /** `ListAt`: copies a window of the listing into the caller's slice. */
  method ListAt(l: seq<Item>, out: array<Item>, off: nat) returns (n: nat, eof: bool)
    modifies out
    ensures n == if off >= |l| then 0 else if out.Length < |l| - off then out.Length else |l| - off
    ensures eof <==> off >= |l| || n < out.Length
    ensures forall i | 0 <= i < n :: out[i] == l[off + i]
    ensures forall i | n <= i < out.Length :: out[i] == old(out[i])
  {
    if off >= |l| {
      return 0, true;
    }
    n := if out.Length < |l| - off then out.Length else |l| - off;
    for k := 0 to n
      invariant forall i | 0 <= i < k :: out[i] == l[off + i]
      invariant forall i | k <= i < out.Length :: out[i] == old(out[i])
    {
      out[k] := l[off + k];
    }
    eof := n < out.Length;
  }

  // ---------- The tree

  /** Clean paths, no path twice, and no file that is also a directory. */
  ghost predicate Tidy(files: seq<FileEntry>) {
    && (forall i {:trigger files[i]} | 0 <= i < |files| :: CleanPath(files[i].path))
    && (forall i, j {:trigger files[i], files[j]} | 0 <= i < |files| && 0 <= j < |files| ::
          (i != j ==> files[i].path != files[j].path) && !StartsWith(files[i].path, files[j].path + "/"))
  }

  /** `x` is what some file, or some file below it, makes of its name. */
  ghost predicate Shows(files: seq<FileEntry>, prefix: string, x: Item) {
    && !HasSlash(x.name) && x.name != ""
    && exists i {:trigger files[i]} | 0 <= i < |files| ::
         if x.dir then x.size == 0 && StartsWith(files[i].path, prefix + x.name + "/")
         else files[i].path == prefix + x.name && files[i].size == x.size
  }

  lemma AppendCases(a: seq<Item>, b: seq<Item>, x: Item)
    ensures x in a + b <==> x in a || x in b
  {}

  /** The prefix that selects a directory entry. */
  lemma DirPrefix(path: string, prefix: string)
    requires StartsWith(path, prefix) && IndexSlash(path[|prefix|..]) < |path[|prefix|..]|
    ensures var rest := path[|prefix|..];
            !HasSlash(rest[..IndexSlash(rest)]) && StartsWith(path, prefix + rest[..IndexSlash(rest)] + "/")
  {
    var rest := path[|prefix|..];
    var i := IndexSlash(rest);
    assert path[..|prefix| + i + 1] == prefix + rest[..i] + "/";
  }

  /** Everything collected is shown by some file. */
  lemma {:induction false} CollectedShown(files: seq<FileEntry>, prefix: string, x: Item)
    requires x in Collected(files, prefix)
    requires forall i {:trigger files[i]} | 0 <= i < |files| :: CleanBelow(files[i].path, prefix)
    ensures Shows(files, prefix, x)
  {
    var n := |files| - 1;
    var before, f := Collected(files[..n], prefix), files[n];
    AppendCases(before, Adds(f, prefix, Dirs(before)), x);
    if x in before {
      CollectedShown(files[..n], prefix, x);
      var i :| 0 <= i < n && if x.dir then x.size == 0 && StartsWith(files[..n][i].path, prefix + x.name + "/")
                            else files[..n][i].path == prefix + x.name && files[..n][i].size == x.size;
      assert files[i] == files[..n][i];
    } else {
      AddsShown(f, prefix, Dirs(before), x);
    }
  }

  /** No empty part right behind the prefix. */
  ghost predicate CleanBelow(path: string, prefix: string) {
    StartsWith(path, prefix) && path != prefix ==> path[|prefix|] != '/'
  }

  lemma AddsShown(f: FileEntry, prefix: string, seen: set<string>, x: Item)
    requires x in Adds(f, prefix, seen) && CleanBelow(f.path, prefix)
    ensures !HasSlash(x.name) && x.name != ""
    ensures if x.dir then x.size == 0 && StartsWith(f.path, prefix + x.name + "/")
            else f.path == prefix + x.name && f.size == x.size
  {
    var rest := f.path[|prefix|..];
    if IndexSlash(rest) < |rest| {
      DirPrefix(f.path, prefix);
    } else {
      assert f.path == prefix + rest;
    }
  }

  /** A file directly in the directory is listed, with its size. */
  lemma {:induction false} FileCollected(files: seq<FileEntry>, prefix: string, i: nat, name: string)
    requires i < |files| && files[i].path == prefix + name && name != "" && !HasSlash(name)
    ensures Item(name, files[i].size, false) in Collected(files, prefix)
  {
    var n, x := |files| - 1, Item(name, files[i].size, false);
    var before, f := Collected(files[..n], prefix), files[n];
    if i < n {
      FileCollected(files[..n], prefix, i, name);
    } else {
      assert f.path[|prefix|..] == name;
      IndexSlashUnique(name, |name|);
    }
    AppendCases(before, Adds(f, prefix, Dirs(before)), x);
  }

  /** A directory some file lies below is listed. */
  lemma {:induction false} DirCollected(files: seq<FileEntry>, prefix: string, i: nat, name: string)
    requires i < |files| && StartsWith(files[i].path, prefix + name + "/") && name != "" && !HasSlash(name)
    ensures Item(name, 0, true) in Collected(files, prefix)
  {
    var n, x := |files| - 1, Item(name, 0, true);
    var before, f := Collected(files[..n], prefix), files[n];
    if i < n {
      DirCollected(files[..n], prefix, i, name);
    } else {
      DirsZero(files[..n], prefix);
      DirInEither(f, prefix, before, name);
    }
    AppendCases(before, Adds(f, prefix, Dirs(before)), x);
  }

  lemma DirInEither(f: FileEntry, prefix: string, before: seq<Item>, name: string)
    requires StartsWith(f.path, prefix + name + "/") && name != "" && !HasSlash(name)
    requires forall x | x in before && x.dir :: x.size == 0
    ensures Item(name, 0, true) in before || Item(name, 0, true) in Adds(f, prefix, Dirs(before))
  {
    DirAdded(f, prefix, name);
    if name in Dirs(before) {
      var y :| y in before && y.dir && y.name == name;
      assert y == Item(name, 0, true);
    }
  }

  lemma DirAdded(f: FileEntry, prefix: string, name: string)
    requires StartsWith(f.path, prefix + name + "/") && name != "" && !HasSlash(name)
    ensures StartsWith(f.path, prefix)
    ensures var rest := f.path[|prefix|..];
            IndexSlash(rest) == |name| < |rest| && rest[..|name|] == name
  {
    var whole := prefix + name + "/";
    assert f.path == whole + f.path[|whole|..];
    assert f.path[..|prefix|] == prefix;
    var rest := f.path[|prefix|..];
    assert rest == name + "/" + f.path[|whole|..];
    IndexSlashAfter(name, f.path[|whole|..]);
  }

  lemma {:induction false} DirsZero(files: seq<FileEntry>, prefix: string)
    ensures forall x | x in Collected(files, prefix) && x.dir :: x.size == 0
  {
    if files != [] {
      DirsZero(files[..|files| - 1], prefix);
    }
  }

  // ---------- Names are listed once

  ghost predicate DistinctNames(items: seq<Item>) {
    forall i, j | 0 <= i < j < |items| :: items[i].name != items[j].name
  }

  lemma {:induction false} CollectedDistinct(files: seq<FileEntry>, prefix: string)
    requires Tidy(files) && forall i {:trigger files[i]} | 0 <= i < |files| :: CleanBelow(files[i].path, prefix)
    ensures DistinctNames(Collected(files, prefix))
  {
    if files != [] {
      var n := |files| - 1;
      var init := files[..n];
      assert Tidy(init);
      CollectedDistinct(init, prefix);
      var before := Collected(init, prefix);
      var adds := Adds(files[n], prefix, Dirs(before));
      if adds != [] {
        forall x | x in before
          ensures x.name != adds[0].name
        {
          CollectedShown(init, prefix, x);
          AddsShown(files[n], prefix, Dirs(before), adds[0]);
          NamesDiffer(files, prefix, before, x, adds[0]);
        }
      }
    }
  }

  lemma NamesDiffer(files: seq<FileEntry>, prefix: string, before: seq<Item>, x: Item, y: Item)
    requires Tidy(files) && files != [] && x in before && Shows(files[..|files| - 1], prefix, x)
    requires y in Adds(files[|files| - 1], prefix, Dirs(before))
    requires if y.dir then StartsWith(files[|files| - 1].path, prefix + y.name + "/")
             else files[|files| - 1].path == prefix + y.name
    ensures x.name != y.name
  {
    var n := |files| - 1;
    var init := files[..n];
    var i :| 0 <= i < |init| && if x.dir then x.size == 0 && StartsWith(init[i].path, prefix + x.name + "/")
                               else init[i].path == prefix + x.name && init[i].size == x.size;
    assert init[i] == files[i];
    if x.dir {
      assert x.name in Dirs(before);
    }
  }

  // ---------- Sorting

  lemma {:induction false} LeqTotal(a: string, b: string)
    ensures Leq(a, b) || Leq(b, a)
  {
    if a != [] && b != [] && a[0] == b[0] {
      LeqTotal(a[1..], b[1..]);
    }
  }

  lemma {:induction false} LeqAntisymmetric(a: string, b: string)
    requires Leq(a, b) && Leq(b, a)
    ensures a == b
  {
    if a != [] && b != [] {
      LeqAntisymmetric(a[1..], b[1..]);
      assert a == [a[0]] + a[1..] && b == [b[0]] + b[1..];
    }
  }

  /** `i` is the first position where the strings differ. */
  ghost predicate DifferFirst(a: string, b: string, i: nat) {
    i < |a| && i < |b| && a[..i] == b[..i] && a[i] != b[i]
  }

  /** `a` has the smaller character at the first position where they differ. */
  ghost predicate SmallerFirst(a: string, b: string) {
    exists i: nat :: DifferFirst(a, b, i) && a[i] < b[i]
  }

  lemma SmallerNext(a: string, b: string)
    requires a != [] && b != [] && a[0] == b[0]
    ensures SmallerFirst(a, b) <==> SmallerFirst(a[1..], b[1..])
  {
    var x, y := a[1..], b[1..];
    if SmallerFirst(x, y) {
      var i: nat :| DifferFirst(x, y, i) && x[i] < y[i];
      assert a[..i + 1] == [a[0]] + x[..i] && b[..i + 1] == [b[0]] + y[..i];
      assert DifferFirst(a, b, i + 1);
    }
    if SmallerFirst(a, b) {
      var i: nat :| DifferFirst(a, b, i) && a[i] < b[i];
      assert x[..i - 1] == a[..i][1..] && y[..i - 1] == b[..i][1..];
      assert DifferFirst(x, y, i - 1);
    }
  }

  lemma SmallerHere(a: string, b: string)
    requires a != [] && b != [] && a[0] != b[0]
    ensures SmallerFirst(a, b) <==> a[0] < b[0]
  {
    assert a[..0] == b[..0] && DifferFirst(a, b, 0);
    forall i: nat | DifferFirst(a, b, i)
      ensures i == 0
    {
      SameStart(a, b, i);
    }
  }

  lemma SameStart(a: string, b: string, i: nat)
    requires DifferFirst(a, b, i)
    ensures i == 0 || a[0] == b[0]
  {
    if i > 0 {
      assert a[..i][0] == a[0] && b[..i][0] == b[0];
    }
  }

  /** The order of strings: by the character at the first difference; a prefix comes first. */
  lemma {:induction false} LeqIff(a: string, b: string)
    ensures Leq(a, b) <==> a <= b || SmallerFirst(a, b)
  {
    if a != [] && b != [] {
      assert a == [a[0]] + a[1..] && b == [b[0]] + b[1..];
      if a[0] == b[0] {
        LeqIff(a[1..], b[1..]);
        SmallerNext(a, b);
        PrefixNext(a, b);
      } else {
        SmallerHere(a, b);
      }
    }
  }

  lemma PrefixNext(a: string, b: string)
    requires a != [] && b != [] && a[0] == b[0]
    ensures a <= b <==> a[1..] <= b[1..]
  {
    if a[1..] <= b[1..] {
      assert forall k | 0 < k < |a| :: a[k] == a[1..][k - 1] == b[1..][k - 1] == b[k];
    }
  }

  lemma {:induction false} LeqTrans(a: string, b: string, c: string)
    requires Leq(a, b) && Leq(b, c)
    ensures Leq(a, c)
  {
    if a != [] && a[0] == b[0] && b[0] == c[0] {
      LeqTrans(a[1..], b[1..], c[1..]);
    }
  }

  ghost predicate SortedNames(l: seq<Item>) {
    forall i, j | 0 <= i < j < |l| :: Leq(l[i].name, l[j].name)
  }

  lemma {:induction false} InsertSorted(x: Item, l: seq<Item>)
    requires SortedNames(l)
    ensures SortedNames(Insert(x, l)) && multiset(Insert(x, l)) == multiset(l) + multiset{x}
  {
    if l == [] || Leq(x.name, l[0].name) {
      forall j | 0 <= j < |l|
        ensures Leq(x.name, l[j].name)
      {
        if j > 0 {
          LeqTrans(x.name, l[0].name, l[j].name);
        }
      }
    } else {
      InsertSorted(x, l[1..]);
      LeqTotal(x.name, l[0].name);
      assert l == [l[0]] + l[1..];
      HeadLeast(l[0], Insert(x, l[1..]), x, l[1..]);
    }
  }

  lemma HeadLeast(head: Item, rest: seq<Item>, x: Item, tail: seq<Item>)
    requires Leq(head.name, x.name) && SortedNames([head] + tail)
    requires SortedNames(rest) && multiset(rest) == multiset(tail) + multiset{x}
    ensures SortedNames([head] + rest)
  {
    forall j | 0 <= j < |rest|
      ensures Leq(head.name, rest[j].name)
    {
      assert rest[j] in multiset(rest);
      if rest[j] != x {
        var i :| 0 <= i < |tail| && tail[i] == rest[j];
        assert ([head] + tail)[i + 1] == tail[i] && ([head] + tail)[0] == head;
      }
    }
  }

  /** Sorting sorts, and keeps every entry. */
  lemma {:induction false} SortSorted(l: seq<Item>)
    ensures SortedNames(SortByName(l)) && multiset(SortByName(l)) == multiset(l)
  {
    if l != [] {
      SortSorted(l[1..]);
      InsertSorted(l[0], SortByName(l[1..]));
      assert l == [l[0]] + l[1..];
    }
  }

  // ---------- Listing and stat agree

  /** A directory inside a torrent: its root, or a clean path. */
  predicate DirPath(dir: string) {
    dir == "" || CleanPath(dir)
  }

  lemma ChildParts(dir: string, name: string)
    requires DirPath(dir) && !HasSlash(name)
    ensures Split(Prefix(dir) + name) == (if dir == "" then [] else Split(dir)) + [name]
    ensures Base(Prefix(dir) + name) == name
  {
    SplitSlashless(name);
    if dir == "" {
      assert Prefix(dir) + name == name;
    } else {
      SplitAppend(dir, name);
      assert Prefix(dir) + name == dir + "/" + name;
    }
  }

  lemma CleanCut(path: string, a: string, b: string)
    requires CleanPath(path) && path == a + "/" + b
    ensures CleanPath(a) && CleanPath(b)
  {
    SplitAppend(a, b);
    forall i | 0 <= i < |Split(a)|
      ensures GoodName(Split(a)[i])
    {
      assert Split(path)[i] == Split(a)[i];
    }
    forall i | 0 <= i < |Split(b)|
      ensures GoodName(Split(b)[i])
    {
      assert Split(path)[|Split(a)| + i] == Split(b)[i];
    }
  }

  lemma TidyBelow(files: seq<FileEntry>, dir: string)
    requires Tidy(files)
    ensures forall i {:trigger files[i]} | 0 <= i < |files| :: CleanBelow(files[i].path, Prefix(dir))
  {
    forall i {:trigger files[i]} | 0 <= i < |files|
      ensures CleanBelow(files[i].path, Prefix(dir))
    {
      var path, prefix := files[i].path, Prefix(dir);
      if StartsWith(path, prefix) && path != prefix {
        var rest := path[|prefix|..];
        if dir == "" {
          assert path == rest;
        } else {
          assert path == dir + "/" + rest;
          CleanCut(path, dir, rest);
        }
        FirstPart(rest);
      }
    }
  }

  lemma FirstPart(s: string)
    requires CleanPath(s) && s != ""
    ensures s[0] != '/'
  {
    assert GoodName(Split(s)[0]);
  }

  /** What a tidy torrent shows has a good name, and is what stat finds. */
  lemma ShownIsStat(files: seq<FileEntry>, dir: string, x: Item)
    requires Tidy(files) && DirPath(dir) && Shows(files, Prefix(dir), x)
    ensures GoodName(x.name) && StatIn(files, Prefix(dir) + x.name) == Just(x)
  {
    var fpath := Prefix(dir) + x.name;
    ChildParts(dir, x.name);
    if x.dir {
      var i :| 0 <= i < |files| && StartsWith(files[i].path, fpath + "/");
      DirStat(files, fpath, i);
    } else {
      var i :| 0 <= i < |files| && files[i].path == fpath && files[i].size == x.size;
      FileStat(files, fpath, i);
    }
  }

  lemma FileStat(files: seq<FileEntry>, fpath: string, i: nat)
    requires Tidy(files) && i < |files| && files[i].path == fpath
    ensures GoodName(Base(fpath)) && StatIn(files, fpath) == Just(Item(Base(fpath), files[i].size, false))
  {
    FindFileIs(files, fpath);
    LastGood(fpath);
  }

  lemma DirStat(files: seq<FileEntry>, fpath: string, i: nat)
    requires Tidy(files) && i < |files| && StartsWith(files[i].path, fpath + "/")
    ensures GoodName(Base(fpath)) && StatIn(files, fpath) == Just(Item(Base(fpath), 0, true))
  {
    var path := files[i].path;
    var tail := path[|fpath| + 1..];
    assert path == fpath + "/" + tail;
    CleanCut(path, fpath, tail);
    LastGood(fpath);
    FindFileIs(files, fpath);
  }

  lemma LastGood(fpath: string)
    requires CleanPath(fpath)
    ensures GoodName(Base(fpath))
  {}

  /** What stat finds under a good name is shown. */
  lemma StatIsShown(files: seq<FileEntry>, dir: string, name: string)
    requires Tidy(files) && DirPath(dir) && GoodName(name) && StatIn(files, Prefix(dir) + name).Just?
    ensures var x := StatIn(files, Prefix(dir) + name).value;
            x.name == name && Shows(files, Prefix(dir), x)
  {
    var fpath := Prefix(dir) + name;
    ChildParts(dir, name);
    FindFileIs(files, fpath);
  }

  lemma CountOne(l: seq<Item>, i: nat, j: nat)
    requires i < j < |l| && l[i] == l[j]
    ensures multiset(l)[l[i]] >= 2
  {
    assert l == l[..i] + [l[i]] + l[i + 1..j] + [l[j]] + l[j + 1..];
  }

  lemma {:induction false} DistinctCounts(l: seq<Item>, x: Item)
    requires DistinctNames(l)
    ensures multiset(l)[x] <= 1
  {
    if l != [] {
      var rest := l[1..];
      assert DistinctNames(rest);
      DistinctCounts(rest, x);
      assert l == [l[0]] + rest;
      if x == l[0] {
        assert x !in rest;
      }
    }
  }

  /** A permutation of distinctly named entries has distinct names. */
  lemma PermutedDistinct(l: seq<Item>, m: seq<Item>)
    requires DistinctNames(l) && multiset(m) == multiset(l)
    ensures DistinctNames(m)
  {
    forall i, j | 0 <= i < j < |m|
      ensures m[i].name != m[j].name
    {
      assert m[i] in multiset(m) && m[j] in multiset(m);
      if m[i] == m[j] {
        CountOne(m, i, j);
        DistinctCounts(l, m[i]);
      }
    }
  }

  /** The listing of a directory, as list returns it. */
  function Listing(files: seq<FileEntry>, dir: string): seq<Item> {
    SortByName(Collected(files, Prefix(dir)))
  }

  /** A listing is sorted, names every entry once, and gives each the name, kind and size
      that stat gives for its path. */
  lemma ListedIsStat(files: seq<FileEntry>, dir: string)
    requires Tidy(files) && DirPath(dir)
    ensures SortedNames(Listing(files, dir)) && DistinctNames(Listing(files, dir))
    ensures forall x | x in Listing(files, dir) :: GoodName(x.name) && StatIn(files, Prefix(dir) + x.name) == Just(x)
  {
    var l, out := Collected(files, Prefix(dir)), Listing(files, dir);
    TidyBelow(files, dir);
    SortSorted(l);
    CollectedDistinct(files, Prefix(dir));
    PermutedDistinct(l, out);
    forall x | x in out
      ensures GoodName(x.name) && StatIn(files, Prefix(dir) + x.name) == Just(x)
    {
      assert x in multiset(out);
      CollectedShown(files, Prefix(dir), x);
      ShownIsStat(files, dir, x);
    }
  }

  /** Conversely, every path stat finds appears exactly once in its parent's listing. */
  lemma StatIsListed(files: seq<FileEntry>, dir: string, name: string) returns (i: nat)
    requires Tidy(files) && DirPath(dir) && GoodName(name) && StatIn(files, Prefix(dir) + name).Just?
    ensures i < |Listing(files, dir)| && Just(Listing(files, dir)[i]) == StatIn(files, Prefix(dir) + name)
    ensures forall j | 0 <= j < |Listing(files, dir)| && Listing(files, dir)[j].name == name :: j == i
  {
    var x, l, out := StatIn(files, Prefix(dir) + name).value, Collected(files, Prefix(dir)), Listing(files, dir);
    StatIsShown(files, dir, name);
    var k :| 0 <= k < |files| && if x.dir then x.size == 0 && StartsWith(files[k].path, Prefix(dir) + x.name + "/")
                                else files[k].path == Prefix(dir) + x.name && files[k].size == x.size;
    if x.dir {
      DirCollected(files, Prefix(dir), k, name);
    } else {
      FileCollected(files, Prefix(dir), k, name);
    }
    SortSorted(l);
    ListedIsStat(files, dir);
    assert x in multiset(out);
    i :| 0 <= i < |out| && out[i] == x;
  }

  /** list does not tell a missing directory, or a file, from an empty one: its answer is
      empty exactly where stat finds no directory. */
  lemma EmptyIffNoDir(files: seq<FileEntry>, dir: string)
    requires Tidy(files) && CleanPath(dir) && dir != ""
    ensures Listing(files, dir) == [] <==> !(StatIn(files, dir).Just? && StatIn(files, dir).value.dir)
  {
    var l := Collected(files, Prefix(dir));
    SortSorted(l);
    assert |multiset(Listing(files, dir))| == |multiset(l)|;
    FindFileIs(files, dir);
    if l != [] {
      ListedHasDir(files, dir, l[0]);
    } else if i :| 0 <= i < |files| && StartsWith(files[i].path, dir + "/") {
      BelowIsListed(files, dir, i);
    }
  }

  lemma ListedHasDir(files: seq<FileEntry>, dir: string, x: Item)
    requires Tidy(files) && CleanPath(dir) && dir != "" && x in Collected(files, Prefix(dir))
    ensures StatIn(files, dir).Just? && StatIn(files, dir).value.dir
  {
    TidyBelow(files, dir);
    CollectedShown(files, Prefix(dir), x);
    var i :| 0 <= i < |files| && if x.dir then x.size == 0 && StartsWith(files[i].path, Prefix(dir) + x.name + "/")
                                else files[i].path == Prefix(dir) + x.name && files[i].size == x.size;
    var head := dir + "/";
    if x.dir {
      assert files[i].path[..|head|] == (head + x.name + "/")[..|head|];
    } else {
      assert files[i].path[..|head|] == (head + x.name)[..|head|];
    }
    DirStat(files, dir, i);
  }

  lemma BelowIsListed(files: seq<FileEntry>, dir: string, i: nat)
    requires Tidy(files) && CleanPath(dir) && dir != "" && i < |files| && StartsWith(files[i].path, Prefix(dir))
    ensures Collected(files, Prefix(dir)) != []
  {
    var path, prefix := files[i].path, Prefix(dir);
    var rest := path[|prefix|..];
    assert path == dir + "/" + rest;
    CleanCut(path, dir, rest);
    var k := IndexSlash(rest);
    assert GoodName(Split(rest)[0]);
    if k == |rest| {
      FileCollected(files, prefix, i, rest);
    } else {
      DirPrefix(path, prefix);
      DirCollected(files, prefix, i, rest[..k]);
    }
  }

  /** Every clean path is a good name in the root or in a clean directory. */
  lemma HasParent(fpath: string) returns (dir: string, name: string)
    requires CleanPath(fpath)
    ensures DirPath(dir) && GoodName(name) && fpath == Prefix(dir) + name
  {
    var parts := Split(fpath);
    var n := |parts| - 1;
    name := parts[n];
    JoinSplit(fpath);
    if n == 0 {
      dir := "";
      assert fpath == Prefix("") + name;
    } else {
      var init := parts[..n];
      dir := Join(init);
      SplitJoin(init);
      JoinLast(init, name);
      assert parts == init + [name];
    }
  }

  lemma {:induction false} JoinLast(init: seq<string>, name: string)
    requires init != []
    ensures Join(init + [name]) == Join(init) + "/" + name
  {
    var whole := init + [name];
    if |init| > 1 {
      JoinLast(init[1..], name);
      assert whole[1..] == init[1..] + [name];
    } else {
      assert whole[1..] == [name];
    }
  }

  /** openFile succeeds exactly where stat finds a file. */
  lemma OpenIffStatFile(files: seq<FileEntry>, fpath: string)
    ensures FindFile(files, fpath) < |files| <==> StatIn(files, fpath).Just? && !StatIn(files, fpath).value.dir
  {}
}
