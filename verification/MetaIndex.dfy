/**
 The two indexes `serve` keeps of the stored torrents (meta.go lines 28-137): by display
 name and by infohash, reloaded from the listing every so often.
 */
module MetaIndex {
  import opened TorrentMetas

  datatype Index = Index(byName: map<string, TorrentMeta>, byHash: map<string, TorrentMeta>)

  function Suffixed(name: string, infohash: string): string {
    name + "-" + (if |infohash| > 8 then infohash[..8] else infohash)
  }

  function UniqueName(byName: map<string, TorrentMeta>, name: string, infohash: string): string {
    if name in byName then Suffixed(name, infohash) else name
  }

  /** The torrent as the index stores it. */
  function Entry(ix: Index, info: Info, infohash: string): TorrentMeta {
    var name := SanitizeName(info.name);
    TorrentMeta(infohash, name, UniqueName(ix.byName, name, infohash), info.pieceLength, TotalLength(info),
                Layout(info), info.pieces)
  }

  function AfterLoad(ix: Index, info: Info, infohash: string): Index {
    var tm := Entry(ix, info, infohash);
    Index(ix.byName[tm.displayName := tm], ix.byHash[infohash := tm])
  }

  /** Loads the listed torrents in order; one whose blob cannot be fetched or parsed is not
      in `blobs` and is skipped. */
  function AfterLoads(ix: Index, keys: seq<string>, blobs: map<string, Info>): Index {
    if keys == [] then ix
    else
      var before, ih := AfterLoads(ix, keys[..|keys| - 1], blobs), keys[|keys| - 1];
      if ih !in before.byHash && ih in blobs then AfterLoad(before, blobs[ih], ih) else before
  }

  function Gone(ix: Index, seen: set<string>): set<string> {
    ix.byHash.Keys - seen
  }

  /** Drops what is no longer listed, from both indexes. */
  function AfterPrune(ix: Index, seen: set<string>): Index {
    Index(ix.byName - (set ih | ih in Gone(ix, seen) :: ix.byHash[ih].displayName), ix.byHash - Gone(ix, seen))
  }

  function ToSet(keys: seq<string>): set<string> {
    set k | k in keys
  }

  function AfterReload(ix: Index, keys: seq<string>, blobs: map<string, Info>): Index {
    AfterPrune(AfterLoads(ix, keys, blobs), ToSet(keys))
  }

  class Meta {
    var byName: map<string, TorrentMeta>
    var byHash: map<string, TorrentMeta>

    constructor ()
      ensures State() == Index(map[], map[])
    {
      byName, byHash := map[], map[];
    }

    ghost function State(): Index
      reads this
    {
      Index(byName, byHash)
    }

    method Reload(keys: seq<string>, blobs: map<string, Info>)
      modifies this
      ensures State() == AfterReload(old(State()), keys, blobs)
    {
      var seen: set<string> := {};
      for i := 0 to |keys|
        invariant seen == ToSet(keys[..i])
        invariant State() == AfterLoads(old(State()), keys[..i], blobs)
      {
        var ih := keys[i];
        assert keys[..i + 1][..i] == keys[..i] && keys[..i + 1] == keys[..i] + [ih];
        seen := seen + {ih};
        if ih !in byHash && ih in blobs {
          LoadOne(ih, blobs[ih]);
        }
      }
      assert keys[..|keys|] == keys;
      PruneGone(seen);
    }

    method LoadOne(infohash: string, info: Info)
      modifies this
      ensures State() == AfterLoad(old(State()), info, infohash)
      ensures infohash in byHash && NamedIn(old(State()), byHash[infohash], info, infohash)
    {
      var tm := BuildMeta(info, infohash);
      tm := tm.(displayName := UniqueName(byName, tm.name, infohash));
      byHash := byHash[infohash := tm];
      byName := byName[tm.displayName := tm];
    }

    /** Visits the entries in any order, as a map range does. */
    method PruneGone(seen: set<string>)
      modifies this
      ensures State() == AfterPrune(old(State()), seen)
    {
      var todo := byHash.Keys;
      ghost var was := State();
      ghost var dropped: set<string> := {};
      while todo != {}
        invariant todo <= byHash.Keys
        invariant dropped == Gone(was, seen) - todo
        invariant byHash == was.byHash - dropped
        invariant byName == was.byName - (set ih | ih in dropped :: was.byHash[ih].displayName)
        decreases todo
      {
        var ih :| ih in todo;
        todo := todo - {ih};
        if ih !in seen {
          var tm := byHash[ih];
          byHash := byHash - {ih};
          byName := byName - {tm.displayName};
          dropped := dropped + {ih};
        }
      }
    }
  }

  // ---------- What every reload keeps

  /** Entries sit under their own name and hash. */
  ghost predicate Keyed(ix: Index) {
    && (forall n {:trigger ix.byName[n]} | n in ix.byName :: ix.byName[n].displayName == n)
    && (forall ih {:trigger ix.byHash[ih]} | ih in ix.byHash :: ix.byHash[ih].infohash == ih)
  }

  /** The two indexes hold the same torrents. */
  ghost predicate Bijective(ix: Index) {
    && (forall ih {:trigger ix.byHash[ih]} | ih in ix.byHash ::
          ix.byHash[ih].displayName in ix.byName && ix.byName[ix.byHash[ih].displayName] == ix.byHash[ih])
    && (forall n {:trigger ix.byName[n]} | n in ix.byName ::
          ix.byName[n].infohash in ix.byHash && ix.byHash[ix.byName[n].infohash] == ix.byName[n])
  }

  /** Display names are plain or suffixed. */
  ghost predicate Named(ix: Index) {
    forall ih {:trigger ix.byHash[ih]} | ih in ix.byHash ::
      ix.byHash[ih].displayName == ix.byHash[ih].name || ix.byHash[ih].displayName == Suffixed(ix.byHash[ih].name, ih)
  }

  lemma {:induction false} LoadsKeyed(ix: Index, keys: seq<string>, blobs: map<string, Info>)
    requires Keyed(ix)
    ensures Keyed(AfterLoads(ix, keys, blobs))
  {
    if keys != [] {
      LoadsKeyed(ix, keys[..|keys| - 1], blobs);
    }
  }

  lemma ReloadKeyed(ix: Index, keys: seq<string>, blobs: map<string, Info>)
    requires Keyed(ix)
    ensures Keyed(AfterReload(ix, keys, blobs))
  {
    LoadsKeyed(ix, keys, blobs);
  }

  /** uniqueName checks only the plain name; this is what it would take. */
  predicate Free(ix: Index, info: Info, ih: string) {
    var name := SanitizeName(info.name);
    name !in ix.byName || Suffixed(name, ih) !in ix.byName
  }

  /** A listed torrent has taken the display name of another one. */
  ghost predicate Clash(ix: Index, seen: set<string>) {
    exists i, j {:trigger ix.byHash[i], ix.byHash[j]} | i in ix.byHash && j in ix.byHash ::
      i != j && j in seen && ix.byHash[i].displayName == ix.byHash[j].displayName
  }

  lemma LoadFree(ix: Index, info: Info, ih: string)
    requires Keyed(ix) && Bijective(ix) && ih !in ix.byHash && Free(ix, info, ih)
    ensures Bijective(AfterLoad(ix, info, ih))
  {
    var tm, t := Entry(ix, info, ih), AfterLoad(ix, info, ih);
    assert tm.displayName !in ix.byName;
    forall i {:trigger t.byHash[i]} | i in t.byHash
      ensures t.byHash[i].displayName in t.byName && t.byName[t.byHash[i].displayName] == t.byHash[i]
    {
      if i != ih {
        assert ix.byHash[i].displayName in ix.byName;
      }
    }
    forall n {:trigger t.byName[n]} | n in t.byName
      ensures t.byName[n].infohash in t.byHash && t.byHash[t.byName[n].infohash] == t.byName[n]
    {
      if n != tm.displayName {
        assert ix.byName[n].infohash in ix.byHash;
      }
    }
  }

  lemma LoadTaken(ix: Index, info: Info, ih: string, seen: set<string>)
    requires Keyed(ix) && Bijective(ix) && ih !in ix.byHash && !Free(ix, info, ih) && ih in seen
    ensures Clash(AfterLoad(ix, info, ih), seen)
  {
    var tm, t := Entry(ix, info, ih), AfterLoad(ix, info, ih);
    var other := ix.byName[tm.displayName];
    assert ix.byHash[other.infohash] == other && t.byHash[other.infohash] == other && t.byHash[ih] == tm;
  }

  lemma ClashStays(ix: Index, info: Info, ih: string, seen: set<string>, more: set<string>)
    requires Clash(ix, seen) && ih !in ix.byHash && seen <= more
    ensures Clash(ix, more) && Clash(AfterLoad(ix, info, ih), more)
  {
    var t := AfterLoad(ix, info, ih);
    var i, j :| i in ix.byHash && j in ix.byHash && i != j && j in seen
                && ix.byHash[i].displayName == ix.byHash[j].displayName;
    assert t.byHash[i] == ix.byHash[i] && t.byHash[j] == ix.byHash[j];
  }

  /** Two torrents of one display name are one too many, and pruning does not help: it drops
      either neither of them, or the name of the one that stays. */
  lemma ClashBreaks(ix: Index, seen: set<string>)
    requires Clash(ix, seen) && Keyed(ix)
    ensures !Bijective(ix) && !Bijective(AfterPrune(ix, seen))
  {
    var t := AfterPrune(ix, seen);
    var i, j :| i in ix.byHash && j in ix.byHash && i != j && j in seen
                && ix.byHash[i].displayName == ix.byHash[j].displayName;
    assert t.byHash[j] == ix.byHash[j];
    if i in seen {
      assert t.byHash[i] == ix.byHash[i];
    } else {
      assert i in Gone(ix, seen) && t.byHash[j].displayName !in t.byName;
    }
  }

  /** Every torrent that is loaded finds its plain or its suffixed name free. */
  ghost predicate AllFree(ix: Index, keys: seq<string>, blobs: map<string, Info>) {
    keys == [] ||
    var before, ih := AfterLoads(ix, keys[..|keys| - 1], blobs), keys[|keys| - 1];
    && AllFree(ix, keys[..|keys| - 1], blobs)
    && (ih !in before.byHash && ih in blobs ==> Free(before, blobs[ih], ih))
  }

  lemma {:induction false} LoadsClash(ix: Index, keys: seq<string>, blobs: map<string, Info>)
    requires Keyed(ix) && Bijective(ix)
    ensures AllFree(ix, keys, blobs) ==> Bijective(AfterLoads(ix, keys, blobs))
    ensures !AllFree(ix, keys, blobs) ==> Clash(AfterLoads(ix, keys, blobs), ToSet(keys))
  {
    if keys != [] {
      var init, ih := keys[..|keys| - 1], keys[|keys| - 1];
      var before := AfterLoads(ix, init, blobs);
      LoadsClash(ix, init, blobs);
      LoadsKeyed(ix, init, blobs);
      assert ToSet(init) <= ToSet(keys);
      if ih !in before.byHash && ih in blobs {
        if !AllFree(ix, init, blobs) {
          ClashStays(before, blobs[ih], ih, ToSet(init), ToSet(keys));
        } else if Free(before, blobs[ih], ih) {
          LoadFree(before, blobs[ih], ih);
        } else {
          LoadTaken(before, blobs[ih], ih, ToSet(keys));
        }
      }
    }
  }

  /** From indexes in bijection, a whole reload keeps them so if and only if each torrent it
      loads finds one of its two names free. */
  lemma ReloadBijectiveIff(ix: Index, keys: seq<string>, blobs: map<string, Info>)
    requires Keyed(ix) && Bijective(ix)
    ensures Bijective(AfterReload(ix, keys, blobs)) <==> AllFree(ix, keys, blobs)
  {
    var t := AfterLoads(ix, keys, blobs);
    LoadsClash(ix, keys, blobs);
    LoadsKeyed(ix, keys, blobs);
    if AllFree(ix, keys, blobs) {
      PruneBijective(t, ToSet(keys));
    } else {
      ClashBreaks(t, ToSet(keys));
    }
  }

  /** What one reload is given: the listing, and the blobs that can be fetched and parsed. */
  datatype Reloading = Reloading(keys: seq<string>, blobs: map<string, Info>)

  function AfterReloads(ix: Index, run: seq<Reloading>): Index {
    if run == [] then ix else AfterReload(AfterReloads(ix, run[..|run| - 1]), run[|run| - 1].keys, run[|run| - 1].blobs)
  }

  /** The two indexes are in bijection after every reload of the run. */
  ghost predicate AlwaysBijective(ix: Index, run: seq<Reloading>) {
    Bijective(AfterReloads(ix, run)) && (run != [] ==> AlwaysBijective(ix, run[..|run| - 1]))
  }

  /** In every reload of the run, each torrent loaded finds one of its two names free. */
  ghost predicate NeverTaken(ix: Index, run: seq<Reloading>) {
    run == [] ||
    var before, last := run[..|run| - 1], run[|run| - 1];
    NeverTaken(ix, before) && AllFree(AfterReloads(ix, before), last.keys, last.blobs)
  }

  lemma {:induction false} RunKeyed(ix: Index, run: seq<Reloading>)
    requires Keyed(ix)
    ensures Keyed(AfterReloads(ix, run))
  {
    if run != [] {
      RunKeyed(ix, run[..|run| - 1]);
      ReloadKeyed(AfterReloads(ix, run[..|run| - 1]), run[|run| - 1].keys, run[|run| - 1].blobs);
    }
  }

  /** So over any run of reloads from the empty indexes, say, the two stay in bijection if
      and only if no torrent ever finds both its names taken. */
  lemma {:induction false} RunBijectiveIff(ix: Index, run: seq<Reloading>)
    requires Keyed(ix) && Bijective(ix)
    ensures AlwaysBijective(ix, run) <==> NeverTaken(ix, run)
  {
    if run != [] {
      var before, last := run[..|run| - 1], run[|run| - 1];
      RunBijectiveIff(ix, before);
      RunKeyed(ix, before);
      if AlwaysBijective(ix, before) {
        ReloadBijectiveIff(AfterReloads(ix, before), last.keys, last.blobs);
      }
    }
  }

  /** It can fail: of any three torrents whose sanitized names are equal, each under its own
      infohash, the second is left without its display name, if the last two infohashes
      begin with the same eight digits. */
  lemma UniqueNameFails(a: Info, b: Info, c: Info, x: string, y: string, z: string)
    requires SanitizeName(a.name) == SanitizeName(b.name) == SanitizeName(c.name)
    requires x != y && y != z && x != z && |y| > 8 && |z| > 8 && y[..8] == z[..8]
    ensures !Bijective(AfterLoads(Index(map[], map[]), [x, y, z], map[x := a, y := b, z := c]))
  {
    var blobs := map[x := a, y := b, z := c];
    var i0: Index := Index(map[], map[]);
    var i1 := AfterLoad(i0, a, x);
    var i2 := AfterLoad(i1, b, y);
    var i3 := AfterLoad(i2, c, z);
    ThreeLoads(i0, blobs, x, y, z);
    SecondNamed(a, b, x, y);
    var name := Suffixed(SanitizeName(b.name), y);
    assert i3.byHash[y] == i2.byHash[y] && i3.byHash[y].displayName == name;
    assert i3.byName[name].infohash == z;
  }

  lemma ThreeLoads(ix: Index, blobs: map<string, Info>, x: string, y: string, z: string)
    requires x in blobs && y in blobs && z in blobs && x != y && y != z && x != z
    requires x !in ix.byHash && y !in ix.byHash && z !in ix.byHash
    ensures AfterLoads(ix, [x, y, z], blobs)
            == AfterLoad(AfterLoad(AfterLoad(ix, blobs[x], x), blobs[y], y), blobs[z], z)
  {
    assert [x][..0] == [] && [x, y][..1] == [x] && [x, y, z][..2] == [x, y];
    assert AfterLoads(ix, [], blobs) == ix;
    assert AfterLoads(ix, [x], blobs) == AfterLoad(ix, blobs[x], x);
    assert AfterLoads(ix, [x, y], blobs) == AfterLoad(AfterLoad(ix, blobs[x], x), blobs[y], y);
  }

  lemma SecondNamed(a: Info, b: Info, x: string, y: string)
    requires SanitizeName(a.name) == SanitizeName(b.name) && x != y
    ensures var ix := AfterLoad(AfterLoad(Index(map[], map[]), a, x), b, y);
            && y in ix.byHash && ix.byHash[y].displayName == Suffixed(SanitizeName(b.name), y)
            && SanitizeName(a.name) in ix.byName
  {}

  /** Names of the torrents in play, by infohash: suffixed names equal no other torrent's
      plain or suffixed name. */
  ghost predicate NoCollision(names: map<string, string>) {
    forall a, b {:trigger names[a], names[b]} | a in names && b in names && a != b ::
      Suffixed(names[a], a) != names[b] && Suffixed(names[a], a) != Suffixed(names[b], b)
  }

  /** All torrents of the index, and all that may be loaded, have their names in `names`. */
  ghost predicate Known(ix: Index, blobs: map<string, Info>, names: map<string, string>) {
    && (forall ih {:trigger ix.byHash[ih]} | ih in ix.byHash :: ih in names && names[ih] == ix.byHash[ih].name)
    && (forall ih {:trigger blobs[ih]} | ih in blobs :: ih in names && names[ih] == SanitizeName(blobs[ih].name))
  }

  ghost predicate Sound(ix: Index) {
    Keyed(ix) && Bijective(ix) && Named(ix)
  }

  lemma NameIsFree(ix: Index, info: Info, ih: string, blobs: map<string, Info>, names: map<string, string>)
    requires Sound(ix) && Known(ix, blobs, names) && NoCollision(names)
    requires ih !in ix.byHash && ih in blobs && blobs[ih] == info
    ensures Free(ix, info, ih)
  {
    var name := Suffixed(SanitizeName(info.name), ih);
    forall n | n in ix.byName
      ensures n != name
    {
      var other := ix.byName[n];
      assert ix.byHash[other.infohash] == other;
      assert names[ih] == SanitizeName(info.name) && names[other.infohash] == other.name;
    }
  }

  lemma LoadSound(ix: Index, info: Info, ih: string, blobs: map<string, Info>, names: map<string, string>)
    requires Sound(ix) && Known(ix, blobs, names) && NoCollision(names)
    requires ih !in ix.byHash && ih in blobs && blobs[ih] == info
    ensures Sound(AfterLoad(ix, info, ih)) && Known(AfterLoad(ix, info, ih), blobs, names)
  {
    NameIsFree(ix, info, ih, blobs, names);
    LoadFree(ix, info, ih);
    LoadNamed(ix, info, ih, blobs, names);
  }

  lemma LoadNamed(ix: Index, info: Info, ih: string, blobs: map<string, Info>, names: map<string, string>)
    requires Keyed(ix) && Named(ix) && Known(ix, blobs, names) && ih in blobs && blobs[ih] == info
    ensures var t := AfterLoad(ix, info, ih); Keyed(t) && Named(t) && Known(t, blobs, names)
  {}

  lemma {:induction false} LoadsSound(ix: Index, keys: seq<string>, blobs: map<string, Info>,
                                      names: map<string, string>)
    requires Sound(ix) && Known(ix, blobs, names) && NoCollision(names)
    ensures Sound(AfterLoads(ix, keys, blobs)) && Known(AfterLoads(ix, keys, blobs), blobs, names)
  {
    if keys != [] {
      var before, ih := keys[..|keys| - 1], keys[|keys| - 1];
      LoadsSound(ix, before, blobs, names);
      if ih !in AfterLoads(ix, before, blobs).byHash && ih in blobs {
        LoadSound(AfterLoads(ix, before, blobs), blobs[ih], ih, blobs, names);
      }
    }
  }

  lemma PruneSound(ix: Index, seen: set<string>)
    requires Sound(ix)
    ensures Sound(AfterPrune(ix, seen))
  {
    PruneBijective(ix, seen);
  }

  lemma PruneBijective(ix: Index, seen: set<string>)
    requires Keyed(ix) && Bijective(ix)
    ensures Bijective(AfterPrune(ix, seen))
  {
    var t := AfterPrune(ix, seen);
    forall ih {:trigger t.byHash[ih]} | ih in t.byHash
      ensures t.byHash[ih].displayName in t.byName && t.byName[t.byHash[ih].displayName] == t.byHash[ih]
    {
      var d := ix.byHash[ih].displayName;
      assert ix.byName[d] == ix.byHash[ih];
      forall other | other in Gone(ix, seen)
        ensures ix.byHash[other].displayName != d
      {
        assert ix.byName[ix.byHash[other].displayName] == ix.byHash[other];
      }
    }
    forall n {:trigger t.byName[n]} | n in t.byName
      ensures t.byName[n].infohash in t.byHash && t.byHash[t.byName[n].infohash] == t.byName[n]
    {
      assert ix.byHash[ix.byName[n].infohash] == ix.byName[n];
    }
  }

  /** When plain and suffixed names do not otherwise collide, every reload keeps the two
      indexes in bijection. */
  lemma ReloadSound(ix: Index, keys: seq<string>, blobs: map<string, Info>, names: map<string, string>)
    requires Sound(ix) && Known(ix, blobs, names) && NoCollision(names)
    ensures Sound(AfterReload(ix, keys, blobs))
  {
    LoadsSound(ix, keys, blobs, names);
    PruneSound(AfterLoads(ix, keys, blobs), ToSet(keys));
  }

  /** The display name: the sanitized name exactly if no entry has it, else that name, a dash
      and the first eight digits of the infohash, or all of them if there are fewer. */
  ghost predicate NamedIn(ix: Index, t: TorrentMeta, info: Info, ih: string) {
    var name := SanitizeName(info.name);
    if name !in ix.byName then t.displayName == name
    else if |ih| > 8 then t.displayName == name + "-" + ih[..8] else t.displayName == name + "-" + ih
  }

  /** Every torrent a reload loads is named so, against the index as the torrents before it in
      the listing leave it, and keeps the name if it is listed, as it is. */
  lemma {:induction false} LoadedName(ix: Index, keys: seq<string>, blobs: map<string, Info>, i: nat)
    requires i < |keys| && keys[i] in blobs && keys[i] !in AfterLoads(ix, keys[..i], blobs).byHash
    ensures keys[i] in AfterLoads(ix, keys, blobs).byHash
    ensures NamedIn(AfterLoads(ix, keys[..i], blobs), AfterLoads(ix, keys, blobs).byHash[keys[i]], blobs[keys[i]],
                    keys[i])
    ensures AfterReload(ix, keys, blobs).byHash[keys[i]] == AfterLoads(ix, keys, blobs).byHash[keys[i]]
  {
    var n := |keys| - 1;
    if i < n {
      assert keys[..n][..i] == keys[..i] && keys[..n][i] == keys[i];
      LoadedName(ix, keys[..n], blobs, i);
    }
  }

  /** In indexes that agree, the name is free exactly if no torrent shows it. */
  lemma FreeIffUnshown(ix: Index, name: string)
    requires Keyed(ix) && Bijective(ix)
    ensures name !in ix.byName <==> forall ih | ih in ix.byHash :: ix.byHash[ih].displayName != name
  {
    if name in ix.byName {
      assert ix.byHash[ix.byName[name].infohash] == ix.byName[name];
    }
  }

  /** Two suffixed names of one name differ if the first eight digits do. */
  lemma SuffixesDiffer(name: string, y: string, z: string)
    requires |y| >= 8 && |z| >= 8 && y[..8] != z[..8]
    ensures Suffixed(name, y) != Suffixed(name, z)
  {
    var a, b := Suffixed(name, y), Suffixed(name, z);
    assert a[|name| + 1..] == y[..8] && b[|name| + 1..] == z[..8];
  }

  /** What the index holds of a torrent. */
  ghost predicate Holds(t: TorrentMeta, info: Info, ih: string) {
    && t.infohash == ih && t.name == SanitizeName(info.name)
    && (t.displayName == t.name || t.displayName == Suffixed(t.name, ih))
    && t.pieceLen == info.pieceLength && t.totalLen == TotalLength(info)
    && t.files == Layout(info) && t.pieceHashes == info.pieces
  }

  lemma {:induction false} LoadsKeys(ix: Index, keys: seq<string>, blobs: map<string, Info>)
    ensures AfterLoads(ix, keys, blobs).byHash.Keys == ix.byHash.Keys + (ToSet(keys) * blobs.Keys)
    ensures forall ih | ih in ix.byHash :: AfterLoads(ix, keys, blobs).byHash[ih] == ix.byHash[ih]
    ensures forall ih | ih in keys && ih in blobs && ih !in ix.byHash ::
              Holds(AfterLoads(ix, keys, blobs).byHash[ih], blobs[ih], ih)
  {
    if keys != [] {
      var n := |keys| - 1;
      LoadsKeys(ix, keys[..n], blobs);
      assert keys == keys[..n] + [keys[n]];
      assert ToSet(keys) == ToSet(keys[..n]) + {keys[n]};
    }
  }

  /** A reload leaves exactly the listed torrents that were loaded before or load now: the
      ones already loaded as they were, the others as their blobs say. */
  lemma ReloadExact(ix: Index, keys: seq<string>, blobs: map<string, Info>)
    ensures var t := AfterReload(ix, keys, blobs);
            && t.byHash.Keys == ToSet(keys) * (ix.byHash.Keys + blobs.Keys)
            && (forall ih | ih in keys && ih in ix.byHash :: t.byHash[ih] == ix.byHash[ih])
            && (forall ih | ih in keys && ih in blobs && ih !in ix.byHash :: Holds(t.byHash[ih], blobs[ih], ih))
  {
    LoadsKeys(ix, keys, blobs);
  }
}
