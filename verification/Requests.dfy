/**
 Whole SFTP requests (sftp.go lines 85-230): a path the client sends is split into a
 torrent name and a path inside it, and answered from the index by name.
 */
module Requests {
  import opened TorrentMetas
  import opened Paths
  import opened Directory

  type Torrents = map<string, TorrentMeta>

  /** The listing of the root: one directory per torrent, sorted. */
  ghost predicate RootListing(byName: Torrents, out: seq<Item>) {
    && SortedNames(out) && DistinctNames(out)
    && (forall x | x in out :: x.dir && x.size == 0 && x.name in byName)
    && (forall n | n in byName :: Item(n, 0, true) in out)
  }

  /** The names, in the order some map range visits them. */
  method Names(byName: Torrents) returns (out: seq<Item>)
    ensures DistinctNames(out)
    ensures forall x :: x in out <==> x.dir && x.size == 0 && x.name in byName
  {
    var todo := byName.Keys;
    out := [];
    while todo != {}
      invariant todo <= byName.Keys && DistinctNames(out)
      invariant forall x :: x in out <==> x.dir && x.size == 0 && x.name in byName.Keys - todo
      decreases todo
    {
      var n :| n in todo;
      todo := todo - {n};
      out := out + [Item(n, 0, true)];
    }
  }

  /** `list`. */
  method ListPath(byName: Torrents, p: string) returns (r: Found<seq<Item>>)
    ensures var (t, f) := SplitPath(p);
            if t == "" then r.Just? && RootListing(byName, r.value)
            else if t in byName then r == Just(Listing(byName[t].files, f))
            else r == Nothing
  {
    var (t, f) := SplitPath(p);
    if t == "" {
      var names := Names(byName);
      SortSorted(names);
      var out := SortByName(names);
      PermutedDistinct(names, out);
      SameEntries(names, out);
      return Just(out);
    }
    if t !in byName {
      return Nothing;
    }
    var out := List(byName[t].files, f);
    return Just(out);
  }

  lemma SameEntries(l: seq<Item>, m: seq<Item>)
    requires multiset(l) == multiset(m)
    ensures forall x :: x in l <==> x in m
  {
    forall x
      ensures x in l <==> x in m
    {
      assert x in l <==> x in multiset(l);
      assert x in m <==> x in multiset(m);
    }
  }

  /** What stat answers. */
  function StatAt(byName: Torrents, p: string): Found<Item> {
    var (t, f) := SplitPath(p);
    if t == "" then Just(Item("/", 0, true))
    else if t !in byName then Nothing
    else if f == "" then Just(Item(t, byName[t].totalLen, true))
    else StatIn(byName[t].files, f)
  }

  /** What stat has to answer inside a torrent: the first file with that path, else a
      directory if some file lies below, else nothing. */
  ghost predicate AnswersStat(files: seq<FileEntry>, f: string, r: Found<Item>) {
    var below := exists j {:trigger files[j]} :: 0 <= j < |files| && StartsWith(files[j].path, f + "/");
    && (forall k: nat | IsFirst(files, f, k) :: r == Just(Item(Base(f), files[k].size, false)))
    && ((forall k: nat :: !IsFirst(files, f, k)) ==> r == if below then Just(Item(Base(f), 0, true)) else Nothing)
  }

  lemma StatAnswers(files: seq<FileEntry>, f: string)
    ensures AnswersStat(files, f, StatIn(files, f))
  {
    FindFileIs(files, f);
    if FindFile(files, f) < |files| {
      assert IsFirst(files, f, FindFile(files, f));
    }
  }

  /** `stat`. */
  method StatPath(byName: Torrents, p: string) returns (r: Found<Item>)
    ensures r == StatAt(byName, p)
    ensures var (t, f) := SplitPath(p);
            if t == "" then r == Just(Item("/", 0, true))
            else if t !in byName then r == Nothing
            else if f == "" then r == Just(Item(t, byName[t].totalLen, true))
            else AnswersStat(byName[t].files, f, r)
  {
    var (t, f) := SplitPath(p);
    if t in byName {
      StatAnswers(byName[t].files, f);
    }
    if t == "" {
      return Just(Item("/", 0, true));
    }
    if t !in byName {
      return Nothing;
    }
    if f == "" {
      return Just(Item(t, byName[t].totalLen, true));
    }
    r := Stat(byName[t].files, f);
  }

  /** `openFile` succeeds exactly where stat finds a file, and opens a file with that path
      and size. */
  method OpenPath(byName: Torrents, p: string) returns (r: Found<(TorrentMeta, FileEntry)>)
    ensures r.Just? <==> StatAt(byName, p).Just? && !StatAt(byName, p).value.dir
    ensures r.Just? ==> var (t, f) := SplitPath(p);
                        && t in byName && r.value.0 == byName[t] && r.value.1 in byName[t].files
                        && r.value.1.path == f && r.value.1.size == StatAt(byName, p).value.size
  {
    var (t, f) := SplitPath(p);
    if t == "" || f == "" || t !in byName {
      return Nothing;
    }
    var tm := byName[t];
    OpenIffStatFile(tm.files, f);
    FindFileIs(tm.files, f);
    var i := OpenFile(tm.files, f);
    r := if i.Just? then Just((tm, tm.files[i.value])) else Nothing;
  }

  // ---------- The tree as the client walks it

  /** The parts of a request after cleaning. */
  function Parts(p: string): (parts: seq<string>) {
    Resolve([], Split("/" + p))
  }

  lemma PartsGood(p: string)
    ensures AllGood(Parts(p)) && Slashless(Parts(p))
  {
    SplitIsSlashless("/" + p);
    ResolveGood([], Split("/" + p));
  }

  lemma SplitPathParts(p: string)
    ensures SplitPath(p) == if Parts(p) == [] then ("", "") else (Parts(p)[0], Join(Parts(p)[1..]))
  {
    var parts := Parts(p);
    PartsGood(p);
    assert CleanRooted(p)[1..] == Join(parts);
    if parts != [] {
      SplitOf(parts);
    }
  }

  lemma ChildOf(p: string, name: string)
    requires GoodName(name)
    ensures Parts(p + "/" + name) == Parts(p) + [name]
  {
    SplitAppend("/" + p, name);
    SplitSlashless(name);
    assert "/" + (p + "/" + name) == "/" + p + "/" + name;
    ResolveAppend([], Split("/" + p), [name]);
    ResolveClean(Parts(p), [name]);
  }

  /** Going down one name from any path, clean or not, goes down one name in the tree. */
  lemma SplitPathChild(p: string, name: string)
    requires GoodName(name)
    ensures var (t, f) := SplitPath(p);
            SplitPath(p + "/" + name) == if t == "" then (name, "") else (t, Prefix(f) + name)
  {
    ChildOf(p, name);
    SplitPathParts(p);
    SplitPathParts(p + "/" + name);
    PartsGood(p);
    var parts := Parts(p);
    if parts != [] {
      var rest := parts[1..];
      assert GoodName(parts[0]);
      assert (parts + [name])[1..] == rest + [name];
      if rest == [] {
        assert rest + [name] == [name] && Prefix("") + name == name;
      } else {
        JoinLast(rest, name);
        JoinNonEmpty(rest);
      }
    }
  }

  /** Two requests with the same parts are split alike. */
  lemma SameParts(p: string, q: string)
    requires Parts(p) == Parts(q)
    ensures SplitPath(p) == SplitPath(q)
  {
    SplitPathParts(p);
    SplitPathParts(q);
  }

  lemma SplitMiddle(a: string, x: string, b: string)
    requires !HasSlash(x)
    ensures Split("/" + (a + "/" + x + "/" + b)) == Split("/" + a) + [x] + Split(b)
    ensures Split("/" + (a + "/" + b)) == Split("/" + a) + Split(b)
  {
    SplitSlashless(x);
    assert "/" + (a + "/" + x + "/" + b) == ("/" + a) + "/" + (x + "/" + b);
    assert "/" + (a + "/" + b) == ("/" + a) + "/" + b;
    SplitAppend("/" + a, x + "/" + b);
    SplitAppend(x, b);
    SplitAppend("/" + a, b);
    assert Split("/" + a) + ([x] + Split(b)) == Split("/" + a) + [x] + Split(b);
  }

  /** In a request "name/.." goes nowhere, wherever it stands. */
  lemma UpUndone(a: string, name: string, b: string)
    requires GoodName(name)
    ensures SplitPath(a + "/" + name + "/" + (".." + "/" + b)) == SplitPath(a + "/" + b)
  {
    UpParts(a, name, b);
    SplitMiddle(a, name, b);
    ResolveUp([], Split("/" + a), name, Split(b));
    SameParts(a + "/" + name + "/" + (".." + "/" + b), a + "/" + b);
  }

  lemma UpParts(a: string, name: string, b: string)
    requires !HasSlash(name)
    ensures Split("/" + (a + "/" + name + "/" + (".." + "/" + b))) == Split("/" + a) + [name, ".."] + Split(b)
  {
    SplitMiddle(a, name, ".." + "/" + b);
    SplitAppend("..", b);
    SplitSlashless("..");
    PartsAssoc(Split("/" + a), name, "..", Split(b));
  }

  lemma PartsAssoc(a: seq<string>, x: string, y: string, b: seq<string>)
    ensures a + [x] + ([y] + b) == a + [x, y] + b
  {}

  /** Nor does an empty part or ".". */
  lemma DotUndone(a: string, x: string, b: string)
    requires x == "" || x == "."
    ensures SplitPath(a + "/" + x + "/" + b) == SplitPath(a + "/" + b)
  {
    SplitMiddle(a, x, b);
    ResolveSkip([], Split("/" + a), x, Split(b));
    SameParts(a + "/" + x + "/" + b, a + "/" + b);
  }

  /** Above the root is the root. */
  lemma RootIsTop(p: string)
    ensures SplitPath(".." + "/" + p) == SplitPath(p)
  {
    SplitSlashless("");
    SplitSlashless("..");
    SplitAppend("..", p);
    SplitAppend("", ".." + "/" + p);
    SplitAppend("", p);
    assert "" + "/" + (".." + "/" + p) == "/" + (".." + "/" + p) && "" + "/" + p == "/" + p;
    assert Resolve([], [""] + ([".."] + Split(p))) == Resolve([], [".."] + Split(p)) by {
      assert ([""] + ([".."] + Split(p)))[1..] == [".."] + Split(p);
    }
    assert ([""] + Split(p))[1..] == Split(p);
    ResolveRoot(Split(p));
    SameParts(".." + "/" + p, p);
  }

  lemma JoinNonEmpty(parts: seq<string>)
    requires parts != [] && AllGood(parts)
    ensures Join(parts) != ""
  {
    assert GoodName(parts[0]);
  }

  /** Every entry of a listing is what stat says about its path. */
  lemma ListedPathIsStat(byName: Torrents, p: string, x: Item)
    requires var (t, f) := SplitPath(p);
             t != "" && t in byName && Tidy(byName[t].files) && x in Listing(byName[t].files, f)
    ensures StatAt(byName, p + "/" + x.name) == Just(x)
  {
    var (t, f) := SplitPath(p);
    SplitPathGood(p);
    ListedIsStat(byName[t].files, f);
    SplitPathChild(p, x.name);
  }

  /** Inside a torrent list answers an empty listing exactly where stat finds no directory:
      for a path that does not exist, and for a file, where an error was due. */
  lemma EmptyListIff(byName: Torrents, p: string)
    requires var (t, f) := SplitPath(p); t != "" && f != "" && t in byName && Tidy(byName[t].files)
    ensures var (t, f) := SplitPath(p);
            Listing(byName[t].files, f) == []
            <==> StatAt(byName, p) == Nothing || !StatAt(byName, p).value.dir
  {
    SplitPathGood(p);
    var (t, f) := SplitPath(p);
    EmptyIffNoDir(byName[t].files, f);
  }

  /** For any torrent of one file, a path beside the file: stat finds nothing, list answers
      an empty listing. */
  lemma MissingIsListed(t: string, tm: TorrentMeta, name: string) returns (p: string)
    requires GoodName(t) && GoodName(name) && |tm.files| == 1 && GoodName(tm.files[0].path)
    requires name != tm.files[0].path
    ensures SplitPath(p) == (t, name) && StatAt(map[t := tm], p) == Nothing && Listing(tm.files, name) == []
  {
    p := Prefix(t) + name;
    SplitSlashless(name);
    SplitSlashless(tm.files[0].path);
    SplitPathExact(t, name);
    assert p == t + "/" + name;
    FindFileIs(tm.files, name);
    OneFileTidy(tm.files, name);
    EmptyListIff(map[t := tm], p);
  }

  lemma OneFileTidy(files: seq<FileEntry>, name: string)
    requires |files| == 1 && GoodName(files[0].path)
    ensures Tidy(files) && !StartsWith(files[0].path, name + "/")
  {
    var path := files[0].path;
    SplitSlashless(path);
    forall s: string
      ensures !StartsWith(path, s + "/")
    {
      if |s| < |path| {
        assert path[..|s| + 1][|s|] != '/' && (s + "/")[|s|] == '/';
      }
    }
  }

  /** In the root: stat finds exactly the torrents whose names are good path parts.
      sanitizeName leaves only one other kind, those with a slash inside. */
  lemma RootShownIff(byName: Torrents, p: string, n: string)
    requires SplitPath(p).0 == "" && n in byName && n != "/"
    ensures StatAt(byName, p + "/" + n) == Just(Item(n, byName[n].totalLen, true)) <==> GoodName(n)
  {
    var q := p + "/" + n;
    if GoodName(n) {
      SplitPathChild(p, n);
    } else {
      SplitPathGood(q);
      var (t, f) := SplitPath(q);
      if t in byName && f != "" {
        LastGood(f);
      }
      if !HasSlash(n) {
        BadNameIsRoot(p, n);
      }
    }
  }

  lemma BadNameIsRoot(p: string, n: string)
    requires SplitPath(p).0 == "" && (n == "" || n == "." || n == "..")
    ensures SplitPath(p + "/" + n).0 == ""
  {
    SplitPathParts(p);
    PartsGood(p);
    SplitAppend("/" + p, n);
    SplitSlashless(n);
    assert "/" + (p + "/" + n) == "/" + p + "/" + n;
    ResolveAppend([], Split("/" + p), [n]);
    assert Resolve([], [n]) == [];
    SplitPathParts(p + "/" + n);
  }

  lemma SanitizedIsGood(n: string)
    ensures GoodName(SanitizeName(n)) <==> !HasSlash(SanitizeName(n))
  {}

  /** In a torrent with tidy paths, the request for torrent and path of file `i` reaches exactly
      this file: it is opened with its own length, where the files before it end. */
  lemma RequestFindsFile(byName: Torrents, t: string, info: Info, i: nat)
    requires GoodName(t) && t in byName && byName[t].files == Layout(info) && Tidy(Layout(info))
    requires i < |info.files| && info.files[i].path != [] && Slashless(info.files[i].path)
    ensures var path := info.files[i].path; var p := t + "/" + Join(path);
            && SplitPath(p) == (t, Join(path)) && FindFile(byName[t].files, Join(path)) == i
            && StatAt(byName, p) == Just(Item(path[|path| - 1], info.files[i].length, false))
            && byName[t].files[i].offset == FileStart(info, i) && byName[t].files[i].size == info.files[i].length
  {
    LayoutIs(info, i);
    FilePath(info, i);
    TidyFind(Layout(info), i);
    var path := Join(info.files[i].path);
    SplitPathExact(t, path);
    StatOfFile(byName, t + "/" + path, t, path);
  }

  lemma StatOfFile(byName: Torrents, p: string, t: string, f: string)
    requires SplitPath(p) == (t, f) && t != "" && f != "" && t in byName
    requires FindFile(byName[t].files, f) < |byName[t].files|
    ensures StatAt(byName, p) == Just(Item(Base(f), byName[t].files[FindFile(byName[t].files, f)].size, false))
  {}

  lemma FilePath(info: Info, i: nat)
    requires i < |info.files| && info.files[i].path != [] && Slashless(info.files[i].path) && Tidy(Layout(info))
    ensures i < |Layout(info)| && Layout(info)[i].path == Join(info.files[i].path)
    ensures CleanPath(Join(info.files[i].path)) && Join(info.files[i].path) != ""
    ensures Base(Join(info.files[i].path)) == info.files[i].path[|info.files[i].path| - 1]
  {
    LayoutIs(info, i);
    JoinSplit(Layout(info)[i].path);
    LastGood(Layout(info)[i].path);
  }

  lemma TidyFind(files: seq<FileEntry>, i: nat)
    requires Tidy(files) && i < |files|
    ensures FindFile(files, files[i].path) == i
  {
    FindFileIs(files, files[i].path);
  }

  /** Conversely, whatever path stat finds inside a torrent is in the listing of a
      directory of that torrent, once. */
  lemma StatPathIsListed(byName: Torrents, p: string) returns (dir: string, name: string, i: nat)
    requires StatAt(byName, p).Just?
    requires var (t, f) := SplitPath(p); t in byName && f != "" && Tidy(byName[t].files)
    ensures var (t, f) := SplitPath(p);
            && SplitPath(Prefix(t) + dir) == (t, dir) && SplitPath(Prefix(t) + dir + "/" + name) == (t, f)
            && i < |Listing(byName[t].files, dir)| && Just(Listing(byName[t].files, dir)[i]) == StatAt(byName, p)
            && forall j | 0 <= j < |Listing(byName[t].files, dir)| ::
                 Listing(byName[t].files, dir)[j].name == name ==> j == i
  {
    var (t, f) := SplitPath(p);
    SplitPathGood(p);
    dir, name := HasParent(f);
    i := StatIsListed(byName[t].files, dir, name);
    SplitPathExact(t, dir);
    if dir == "" {
      TrailingSlash(t);
    } else {
      assert Prefix(t) + dir == t + "/" + dir;
    }
    SplitPathChild(Prefix(t) + dir, name);
  }

  lemma TrailingSlash(t: string)
    requires GoodName(t)
    ensures SplitPath(Prefix(t) + "") == (t, "")
  {
    SplitAppend("/" + t, "");
    SplitAppend("", t);
    SplitSlashless(t);
    SplitSlashless("");
    assert "/" + (Prefix(t) + "") == "/" + t + "/" + "";
    assert "" + "/" + t == "/" + t;
    assert Split("/" + (Prefix(t) + "")) == ["", t, ""];
    ResolveAppend([], ["", t], [""]);
    assert ["", t] + [""] == ["", t, ""];
    ResolveAppend([], [""], [t]);
    ResolveClean([], [t]);
    SplitPathParts(Prefix(t) + "");
  }
}
