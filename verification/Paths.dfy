/**
 Slash-separated paths: splitting, cleaning, and `splitPath` (sftp.go lines 83-98).
 */
module Paths {

  predicate HasSlash(s: string) {
    exists i | 0 <= i < |s| :: s[i] == '/'
  }

  /** The parts between slashes. */
  function Split(s: string): (parts: seq<string>)
    ensures parts != []
    decreases |s|
  {
    var i := IndexSlash(s);
    if i == |s| then [s] else [s[..i]] + Split(s[i + 1..])
  }

  /** Position of the first slash, or the length. */
  function IndexSlash(s: string): (i: nat)
    ensures i <= |s| && (i < |s| ==> s[i] == '/')
    ensures forall j | 0 <= j < i :: s[j] != '/'
  {
    if s == [] || s[0] == '/' then 0 else 1 + IndexSlash(s[1..])
  }

  function Join(parts: seq<string>): string {
    if parts == [] then "" else if |parts| == 1 then parts[0] else parts[0] + "/" + Join(parts[1..])
  }

  /** A part that names something. */
  predicate GoodName(s: string) {
    s != "" && s != "." && s != ".." && !HasSlash(s)
  }

  predicate CleanPath(s: string) {
    forall i | 0 <= i < |Split(s)| :: GoodName(Split(s)[i])
  }

  lemma IndexSlashUnique(s: string, i: nat)
    requires i <= |s| && (forall j | 0 <= j < i :: s[j] != '/') && (i < |s| ==> s[i] == '/')
    ensures IndexSlash(s) == i
  {}

  /** The first slash of `t + "/" + rest` is behind a slashless `t`. */
  lemma IndexSlashAfter(t: string, rest: string)
    requires !HasSlash(t)
    ensures IndexSlash(t) == |t| && IndexSlash(t + "/" + rest) == |t|
    ensures (t + "/" + rest)[..|t|] == t && (t + "/" + rest)[|t| + 1..] == rest
  {
    IndexSlashUnique(t, |t|);
    var s := t + "/" + rest;
    assert forall j | 0 <= j < |t| :: s[j] == t[j];
    IndexSlashUnique(s, |t|);
  }

  lemma {:induction false} SplitSlashless(s: string)
    requires !HasSlash(s)
    ensures Split(s) == [s]
  {
    IndexSlashUnique(s, |s|);
  }

  /** Splitting at a slash splits the parts. */
  lemma {:induction false} SplitAppend(a: string, b: string)
    ensures Split(a + "/" + b) == Split(a) + Split(b)
    decreases |a|
  {
    var s, i := a + "/" + b, IndexSlash(a);
    if i == |a| {
      assert !HasSlash(a);
      IndexSlashAfter(a, b);
    } else {
      var head, tail := a[..i], a[i + 1..];
      assert a == head + "/" + tail;
      assert s == head + "/" + (tail + "/" + b);
      assert !HasSlash(head);
      IndexSlashAfter(head, tail + "/" + b);
      SplitAppend(tail, b);
    }
  }

  lemma {:induction false} JoinSplit(s: string)
    ensures Join(Split(s)) == s
    decreases |s|
  {
    var i := IndexSlash(s);
    if i < |s| {
      var head, tail := s[..i], s[i + 1..];
      JoinSplit(tail);
      AtSlash(s, i);
      JoinCons(head, Split(tail));
      assert Split(s) == [head] + Split(tail);
    }
  }

  lemma AtSlash(s: string, i: nat)
    requires i < |s| && s[i] == '/'
    ensures s == s[..i] + "/" + s[i + 1..]
  {}

  lemma JoinCons(head: string, parts: seq<string>)
    requires parts != []
    ensures Join([head] + parts) == head + "/" + Join(parts)
  {
    assert ([head] + parts)[1..] == parts;
  }

  lemma {:induction false} SplitJoin(parts: seq<string>)
    requires parts != [] && forall i | 0 <= i < |parts| :: !HasSlash(parts[i])
    ensures Split(Join(parts)) == parts
  {
    var head := parts[0];
    SplitSlashless(head);
    if |parts| > 1 {
      var rest := parts[1..];
      SplitJoin(rest);
      SplitAppend(head, Join(rest));
      assert [head] + rest == parts;
    }
  }

  // ---------- path.Clean on rooted paths, and splitPath

  /** Drops empty parts and ".", and lets ".." take back a part; the root is its own
      parent. */
  function Resolve(done: seq<string>, parts: seq<string>): seq<string>
    decreases |parts|
  {
    if parts == [] then done
    else if parts[0] == "" || parts[0] == "." then Resolve(done, parts[1..])
    else if parts[0] == ".." then Resolve(if done == [] then [] else done[..|done| - 1], parts[1..])
    else Resolve(done + [parts[0]], parts[1..])
  }

  /** `path.Clean("/" + p)`. */
  function CleanRooted(p: string): string {
    "/" + Join(Resolve([], Split("/" + p)))
  }

  /** `splitPath`: torrent name and path inside it. */
  function SplitPath(p: string): (string, string) {
    var q := CleanRooted(p)[1..];
    if q == "" || q == "." then ("", "")
    else
      var i := IndexSlash(q);
      if i < |q| then (q[..i], q[i + 1..]) else (q, "")
  }

  ghost predicate Slashless(parts: seq<string>) {
    forall i | 0 <= i < |parts| :: !HasSlash(parts[i])
  }

  ghost predicate AllGood(parts: seq<string>) {
    forall i | 0 <= i < |parts| :: GoodName(parts[i])
  }

  lemma {:induction false} SplitIsSlashless(s: string)
    ensures Slashless(Split(s))
    decreases |s|
  {
    var k := IndexSlash(s);
    assert !HasSlash(s[..k]);
    if k < |s| {
      SplitIsSlashless(s[k + 1..]);
    } else {
      assert s[..k] == s;
    }
  }

  lemma {:induction false} ResolveGood(done: seq<string>, parts: seq<string>)
    requires AllGood(done) && Slashless(parts)
    ensures AllGood(Resolve(done, parts))
    decreases |parts|
  {
    if parts != [] {
      var head, rest := parts[0], parts[1..];
      assert Slashless(rest);
      if head == "" || head == "." {
        ResolveGood(done, rest);
      } else if head == ".." {
        ResolveGood(if done == [] then [] else done[..|done| - 1], rest);
      } else {
        assert GoodName(head);
        ResolveGood(done + [head], rest);
      }
    }
  }

  lemma {:induction false} ResolveClean(done: seq<string>, parts: seq<string>)
    requires AllGood(parts)
    ensures Resolve(done, parts) == done + parts
    decreases |parts|
  {
    if parts != [] {
      var head, rest := parts[0], parts[1..];
      assert AllGood(rest);
      ResolveClean(done + [head], rest);
      assert done + [head] + rest == done + parts;
    }
  }

  lemma {:induction false} ResolveAppend(done: seq<string>, a: seq<string>, b: seq<string>)
    ensures Resolve(done, a + b) == Resolve(Resolve(done, a), b)
    decreases |a|
  {
    if a == [] {
      assert a + b == b;
    } else {
      assert (a + b)[1..] == a[1..] + b;
      ResolveAppend(if a[0] == "" || a[0] == "." then done
                    else if a[0] == ".." then (if done == [] then [] else done[..|done| - 1])
                    else done + [a[0]], a[1..], b);
    }
  }

  /** A good name followed by ".." changes nothing, wherever it stands. */
  lemma ResolveUp(done: seq<string>, a: seq<string>, name: string, b: seq<string>)
    requires GoodName(name)
    ensures Resolve(done, a + [name, ".."] + b) == Resolve(done, a + b)
  {
    var d := Resolve(done, a);
    assert a + [name, ".."] + b == a + ([name, ".."] + b);
    ResolveAppend(done, a, [name, ".."] + b);
    ResolveAppend(done, a, b);
    assert ([name, ".."] + b)[1..] == [".."] + b && ([".."] + b)[1..] == b;
    assert Resolve(d, [name, ".."] + b) == Resolve(d + [name], [".."] + b);
    assert (d + [name])[..|d|] == d;
  }

  /** Neither does an empty part or ".". */
  lemma ResolveSkip(done: seq<string>, a: seq<string>, x: string, b: seq<string>)
    requires x == "" || x == "."
    ensures Resolve(done, a + [x] + b) == Resolve(done, a + b)
  {
    assert a + [x] + b == a + ([x] + b) && ([x] + b)[1..] == b;
    ResolveAppend(done, a, [x] + b);
    ResolveAppend(done, a, b);
  }

  /** The root is its own parent. */
  lemma ResolveRoot(b: seq<string>)
    ensures Resolve([], [".."] + b) == Resolve([], b)
  {
    assert ([".."] + b)[1..] == b;
  }

  /** On clean parts, splitPath separates the first from the rest. */
  lemma SplitOf(parts: seq<string>)
    requires parts != [] && AllGood(parts)
    ensures var q, t := Join(parts), parts[0];
            && q != "" && q != "." && IndexSlash(q) == |t|
            && (if |parts| == 1 then q == t else |t| < |q| && q[..|t|] == t && q[|t| + 1..] == Join(parts[1..]))
  {
    IndexSlashAfter(parts[0], Join(parts[1..]));
  }

  /** Whatever the client sends, splitPath gives either the root, or a good torrent name
      and a clean path or none: no "..", no empty part, no slash in the name. */
  lemma SplitPathGood(p: string)
    ensures var (t, f) := SplitPath(p);
            if t == "" then f == "" else GoodName(t) && (f == "" || CleanPath(f))
  {
    SplitIsSlashless("/" + p);
    ResolveGood([], Split("/" + p));
    var parts := Resolve([], Split("/" + p));
    assert CleanRooted(p)[1..] == Join(parts);
    if parts != [] {
      SplitOf(parts);
      if |parts| > 1 {
        var rest := parts[1..];
        assert AllGood(rest) && Slashless(rest);
        SplitJoin(rest);
      }
    }
  }

  /** And a clean path is taken as it is. */
  lemma SplitPathExact(t: string, f: string)
    requires GoodName(t) && (f == "" || CleanPath(f))
    ensures SplitPath(if f == "" then t else t + "/" + f) == (t, f)
  {
    var p := if f == "" then t else t + "/" + f;
    SplitSlashless(t);
    if f != "" {
      SplitAppend(t, f);
      JoinSplit(f);
    }
    var parts := if f == "" then [t] else [t] + Split(f);
    assert Split(p) == parts && AllGood(parts);
    CleanRootedExact(p);
    SplitOf(parts);
    assert f != "" ==> parts[1..] == Split(f);
  }

  /** Cleaning leaves a clean path alone. */
  lemma CleanRootedExact(p: string)
    requires CleanPath(p)
    ensures CleanRooted(p)[1..] == Join(Split(p))
  {
    var parts := Split(p);
    SplitAppend("", p);
    SplitSlashless("");
    assert "" + "/" + p == "/" + p && ([""] + parts)[1..] == parts;
    ResolveClean([], parts);
    assert [] + parts == parts;
    assert ("/" + Join(parts))[1..] == Join(parts);
  }
}
