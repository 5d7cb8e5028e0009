/**
 One gc run that may skip torrents (gc.go lines 82-177), beside any other gc runs: exactly
 what it leaves in the store, and exactly when that is still a good store.
 */
module Sweeps {
  import opened Streams
  import opened TorrentMetas
  import opened Stores
  import opened StoreRuns

  /** The pieces of the torrents with these keys, as far as they can be read. */
  ghost function PiecesOf(st: Store, keys: set<string>): set<string> {
    set k, i | k in keys && k in st.torrents && st.torrents[k].Torrent? && 0 <= i < |st.torrents[k].info.pieces| ::
      st.torrents[k].info.pieces[i]
  }

  lemma InPiecesOf(st: Store, keys: set<string>, k: string, x: string)
    requires k in keys && k in st.torrents && st.torrents[k].Torrent? && x in st.torrents[k].info.pieces
    ensures x in PiecesOf(st, keys)
  {
    var i :| 0 <= i < |st.torrents[k].info.pieces| && st.torrents[k].info.pieces[i] == x;
  }

  lemma OnePieces(st: Store, k: string)
    requires k in st.torrents && st.torrents[k].Torrent?
    ensures PiecesOf(st, {k}) == ToSet(st.torrents[k].info.pieces)
  {
    forall x | x in ToSet(st.torrents[k].info.pieces)
      ensures x in PiecesOf(st, {k})
    {
      InPiecesOf(st, {k}, k, x);
    }
  }

  lemma PiecesOfUnion(st: Store, a: set<string>, b: set<string>)
    ensures PiecesOf(st, a + b) == PiecesOf(st, a) + PiecesOf(st, b)
  {
    forall x | x in PiecesOf(st, a) + PiecesOf(st, b)
      ensures x in PiecesOf(st, a + b)
    {
      if x in PiecesOf(st, a) {
        var k :| k in a && k in st.torrents && st.torrents[k].Torrent? && x in st.torrents[k].info.pieces;
        InPiecesOf(st, a + b, k, x);
      } else {
        var k :| k in b && k in st.torrents && st.torrents[k].Torrent? && x in st.torrents[k].info.pieces;
        InPiecesOf(st, a + b, k, x);
      }
    }
  }

  /** The pieces with keys in `keys`. */
  ghost function Within(pieces: Pieces, keys: set<string>): Pieces {
    map k | k in pieces && k in keys :: pieces[k]
  }

  /** The store without some pieces. */
  ghost function Less(st: Store, gone: set<string>): Store {
    st.(pieces := st.pieces - gone)
  }

  /** How far a gc run is; `st0` is the store it started on, less what other gc runs have
      deleted since. */
  ghost predicate Progress(st0: Store, s: State, id: nat) {
    && id in s.runs && s.store.torrents == st0.torrents
    && match s.runs[id]
       case Marking(todo, alive, skipped) =>
         && s.store == st0 && todo <= st0.torrents.Keys && skipped <= st0.torrents.Keys - todo
         && alive == PiecesOf(st0, st0.torrents.Keys - todo - skipped)
       case Sweeping(alive, skipped, toScan, stale, scanned, kept, deleted) =>
         && skipped <= st0.torrents.Keys && alive == PiecesOf(st0, st0.torrents.Keys - skipped)
         && s.store.pieces == Within(st0.pieces, alive + toScan + stale)
         && alive !! stale && toScan !! stale && scanned == kept + deleted + |stale|
       case _ => false
  }

  // ---------- One step

  lemma MarkProgress(st0: Store, s: State, id: nat, key: string, h: Hasher, ih: InfoHasher)
    requires Progress(st0, s, id) && MayTake(s, Mark(id, key), s.runs[id], h)
    ensures Progress(st0, RunNext(s, Mark(id, key), s.runs[id], h, ih), id)
  {
    var r, all := s.runs[id], st0.torrents.Keys;
    OnePieces(st0, key);
    PiecesOfUnion(st0, all - r.todo - r.skipped, {key});
    assert all - (r.todo - {key}) - r.skipped == (all - r.todo - r.skipped) + {key};
  }

  lemma SkipProgress(st0: Store, s: State, id: nat, key: string, h: Hasher, ih: InfoHasher)
    requires Progress(st0, s, id) && MayTake(s, SkipTorrent(id, key), s.runs[id], h)
    ensures Progress(st0, RunNext(s, SkipTorrent(id, key), s.runs[id], h, ih), id)
  {
    var r, all := s.runs[id], st0.torrents.Keys;
    assert all - (r.todo - {key}) - (r.skipped + {key}) == all - r.todo - r.skipped;
  }

  lemma StartProgress(st0: Store, s: State, id: nat, h: Hasher, ih: InfoHasher)
    requires Progress(st0, s, id) && MayTake(s, StartSweep(id), s.runs[id], h)
    ensures Progress(st0, RunNext(s, StartSweep(id), s.runs[id], h, ih), id)
  {
    var r, all := s.runs[id], st0.torrents.Keys;
    assert all - r.todo - r.skipped == all - r.skipped;
    AllWithin(st0.pieces, r.alive);
  }

  lemma AllWithin(pieces: Pieces, alive: set<string>)
    ensures Within(pieces, alive + pieces.Keys + {}) == pieces
  {}

  lemma ScanProgress(st0: Store, s: State, id: nat, key: string, h: Hasher, ih: InfoHasher)
    requires Progress(st0, s, id) && MayTake(s, Scan(id, key), s.runs[id], h)
    ensures Progress(st0, RunNext(s, Scan(id, key), s.runs[id], h, ih), id)
  {
    StillListed(s.runs[id].alive, s.runs[id].toScan, s.runs[id].stale, key);
  }

  lemma StillListed(alive: set<string>, toScan: set<string>, stale: set<string>, key: string)
    requires key in toScan
    ensures key in alive ==> alive + (toScan - {key}) + stale == alive + toScan + stale
    ensures alive + (toScan - {key}) + (stale + {key}) == alive + toScan + stale
  {}

  lemma DeleteProgress(st0: Store, s: State, id: nat, key: string, h: Hasher, ih: InfoHasher)
    requires Progress(st0, s, id) && MayTake(s, Delete(id, key), s.runs[id], h)
    ensures Progress(st0, RunNext(s, Delete(id, key), s.runs[id], h, ih), id)
  {
    var r := s.runs[id];
    assert r.stale == (r.stale - {key}) + {key};
    assert Within(st0.pieces, r.alive + r.toScan + r.stale) - {key}
        == Within(st0.pieces, r.alive + r.toScan + (r.stale - {key}));
  }

  lemma StepProgress(st0: Store, s: State, id: nat, step: Step, h: Hasher, ih: InfoHasher)
    requires Progress(st0, s, id) && step.id == id && Enabled(s, step, h) && !step.Stop?
    ensures Progress(st0, Next(s, step, h, ih), id)
  {
    match step
    case Mark(_, key) => MarkProgress(st0, s, id, key, h, ih);
    case SkipTorrent(_, key) => SkipProgress(st0, s, id, key, h, ih);
    case StartSweep(_) => StartProgress(st0, s, id, h, ih);
    case Scan(_, key) => ScanProgress(st0, s, id, key, h, ih);
    case Delete(_, key) => DeleteProgress(st0, s, id, key, h, ih);
    case _ =>
  }

  /** What another gc run deletes in a step. */
  ghost function Deletes(step: Step, id: nat): set<string> {
    if step.Delete? && step.id != id then {step.key} else {}
  }

  /** Beside a gc only gcs run, and all they do to the store is delete. */
  lemma OtherProgress(st0: Store, st1: Store, s: State, id: nat, step: Step, h: Hasher, ih: InfoHasher)
    requires Progress(st0, s, id) && NoWriter(s) && step.id != id && Enabled(s, step, h)
    requires st1 == Less(st0, Deletes(step, id))
    ensures Progress(st1, Next(s, step, h, ih), id)
  {
    OtherStore(s, id, step, h, ih);
    OtherRun(s, step, id, h, ih);
    StoreShrinks(st0, s, Next(s, step, h, ih), id, Deletes(step, id));
  }

  lemma OtherStore(s: State, id: nat, step: Step, h: Hasher, ih: InfoHasher)
    requires NoWriter(s) && id in s.runs && step.id != id && Enabled(s, step, h)
    ensures Next(s, step, h, ih).store == Less(s.store, Deletes(step, id))
  {
    GcsOnly(s, step, h, ih);
    assert s.store.pieces - {} == s.store.pieces;
  }

  lemma OtherRun(s: State, step: Step, id: nat, h: Hasher, ih: InfoHasher)
    requires id in s.runs && step.id != id && Enabled(s, step, h)
    ensures id in Next(s, step, h, ih).runs && Next(s, step, h, ih).runs[id] == s.runs[id]
  {}

  lemma StoreShrinks(st0: Store, s: State, t: State, id: nat, gone: set<string>)
    requires Progress(st0, s, id) && id in t.runs && t.runs[id] == s.runs[id]
    requires t.store == Less(s.store, gone)
    ensures Progress(Less(st0, gone), t, id)
  {
    SamePieces(st0, gone, st0.torrents.Keys - s.runs[id].skipped);
    if s.runs[id].Sweeping? {
      DeletedToo(st0.pieces, gone, s.runs[id].alive + s.runs[id].toScan + s.runs[id].stale);
    } else {
      SamePieces(st0, gone, st0.torrents.Keys - s.runs[id].todo - s.runs[id].skipped);
    }
  }

  lemma SamePieces(st: Store, gone: set<string>, keys: set<string>)
    ensures PiecesOf(Less(st, gone), keys) == PiecesOf(st, keys)
  {}

  lemma DeletedToo(pieces: Pieces, gone: set<string>, keys: set<string>)
    ensures Within(pieces, keys) - gone == Within(pieces - gone, keys)
  {}

  lemma GcsOnly(s: State, step: Step, h: Hasher, ih: InfoHasher)
    requires NoWriter(s) && s.runs != map[] && Enabled(s, step, h)
    ensures var t := Next(s, step, h, ih);
            && NoWriter(t) && t.store.torrents == s.store.torrents
            && t.store.pieces == if step.Delete? then s.store.pieces - {step.key} else s.store.pieces
  {
    var j :| j in s.runs;
    assert IsGc(s.runs[j]);
    if step.id in s.runs {
      assert IsGc(s.runs[step.id]);
    }
  }

  /** Any step but its own end. */
  lemma AnyProgress(st0: Store, st1: Store, s: State, id: nat, step: Step, h: Hasher, ih: InfoHasher)
    requires Progress(st0, s, id) && NoWriter(s) && Enabled(s, step, h) && step != Stop(id)
    requires st1 == Less(st0, Deletes(step, id))
    ensures Progress(st1, Next(s, step, h, ih), id)
  {
    if step.id == id {
      assert st1 == st0;
      StepProgress(st0, s, id, step, h, ih);
    } else {
      OtherProgress(st0, st1, s, id, step, h, ih);
    }
  }

  // ---------- A whole run

  /** Run `id` is a gc that starts at state `a` and has not stopped at state `f`. */
  ghost predicate GcRun(states: seq<State>, steps: seq<Step>, a: nat, f: nat, id: nat) {
    && a < f < |states| && |states| == |steps| + 1 && steps[a] == StartGc(id)
    && forall j {:trigger steps[j]} | a < j < f :: steps[j] != Stop(id)
  }

  /** The keys other gc runs deleted in between. */
  ghost function Gone(steps: seq<Step>, a: nat, f: nat, id: nat): set<string> {
    set j | a < j < f && j < |steps| && steps[j].Delete? && steps[j].id != id :: steps[j].key
  }

  lemma GoneNext(steps: seq<Step>, a: nat, f: nat, id: nat)
    requires a < f < |steps|
    ensures Gone(steps, a, f + 1, id) == Gone(steps, a, f, id) + Deletes(steps[f], id)
  {
    forall x | x in Gone(steps, a, f, id) + Deletes(steps[f], id)
      ensures x in Gone(steps, a, f + 1, id)
    {
      if x in Gone(steps, a, f, id) {
        var j :| a < j < f && steps[j].Delete? && steps[j].id != id && steps[j].key == x;
      }
    }
  }

  ghost predicate GcProgress(states: seq<State>, steps: seq<Step>, a: nat, f: nat, id: nat) {
    && a < |states| && f < |states| && NoWriter(states[f])
    && Progress(Less(states[a].store, Gone(steps, a, f, id)), states[f], id)
  }

  lemma GcProgresses(states: seq<State>, steps: seq<Step>, h: Hasher, ih: InfoHasher, a: nat, f: nat, g: nat, id: nat)
    requires Execution(states, steps, h, ih) && a < f < |steps| && steps[f] != Stop(id) && g == f + 1
    requires GcProgress(states, steps, a, f, id)
    ensures GcProgress(states, steps, a, g, id)
  {
    var st0, step := states[a].store, steps[f];
    assert Enabled(states[f], step, h) && states[g] == Next(states[f], step, h, ih);
    GoneNext(steps, a, f, id);
    LessTwice(st0, Gone(steps, a, f, id), Deletes(step, id), Gone(steps, a, g, id));
    GcsOnly(states[f], step, h, ih);
    AnyProgress(Less(st0, Gone(steps, a, f, id)), Less(st0, Gone(steps, a, g, id)), states[f], id, step, h, ih);
  }

  lemma LessTwice(st: Store, a: set<string>, b: set<string>, c: set<string>)
    requires c == a + b
    ensures Less(st, c) == Less(Less(st, a), b)
  {
    assert st.pieces - c == st.pieces - a - b;
  }

  lemma {:induction false} RunProgress(states: seq<State>, steps: seq<Step>, h: Hasher, ih: InfoHasher,
                                       a: nat, f: nat, id: nat)
    requires Execution(states, steps, h, ih) && GcRun(states, steps, a, f, id)
    ensures GcProgress(states, steps, a, f, id)
    decreases f
  {
    if f == a + 1 {
      assert Enabled(states[a], steps[a], h) && states[f] == Next(states[a], steps[a], h, ih);
      assert Gone(steps, a, f, id) == {};
      StartsProgress(states[a], id, h, ih);
    } else {
      RunProgress(states, steps, h, ih, a, f - 1, id);
      GcProgresses(states, steps, h, ih, a, f - 1, f, id);
    }
  }

  lemma StartsProgress(s: State, id: nat, h: Hasher, ih: InfoHasher)
    requires Enabled(s, StartGc(id), h)
    ensures Progress(Less(s.store, {}), Next(s, StartGc(id), h, ih), id) && NoWriter(Next(s, StartGc(id), h, ih))
  {
    var all := s.store.torrents.Keys;
    assert all - all - {} == {} && PiecesOf(s.store, {}) == {};
    assert Less(s.store, {}) == s.store;
  }

  /** Each readable skipped torrent has all its pieces listed by loaded ones. */
  ghost predicate Harmless(st: Store, skipped: set<string>) {
    forall k | k in skipped && k in st.torrents && st.torrents[k].Torrent? ::
      ToSet(st.torrents[k].info.pieces) <= PiecesOf(st, st.torrents.Keys - skipped)
  }

  ghost predicate Finished(r: Run) {
    r.Sweeping? && r.toScan == {} && r.stale == {}
  }

  /** A finished sweep has left exactly the pieces the loaded torrents list, less what other
      gc runs deleted meanwhile, and the torrents as they were. */
  lemma SweepLeaves(states: seq<State>, steps: seq<Step>, h: Hasher, ih: InfoHasher, a: nat, f: nat, id: nat)
    requires Execution(states, steps, h, ih) && GcRun(states, steps, a, f, id)
    requires id in states[f].runs && Finished(states[f].runs[id])
    ensures var st0, r := states[a].store, states[f].runs[id];
            && states[f].store == Store(st0.torrents, Within(st0.pieces - Gone(steps, a, f, id),
                                                             PiecesOf(st0, st0.torrents.Keys - r.skipped)))
            && r.scanned == r.kept + r.deleted
  {
    RunProgress(states, steps, h, ih, a, f, id);
    var st0, r := states[a].store, states[f].runs[id];
    assert r.alive + {} + {} == r.alive;
    SamePieces(st0, Gone(steps, a, f, id), st0.torrents.Keys - r.skipped);
  }

  /** So when a gc that skipped torrents has finished the store is good if and only if each of
      them that could have been read has all its pieces listed by loaded ones, and no other gc
      deleted a piece some torrent refers to. */
  lemma SweepGoodIff(states: seq<State>, steps: seq<Step>, h: Hasher, ih: InfoHasher, a: nat, f: nat, id: nat)
    requires Execution(states, steps, h, ih) && GcRun(states, steps, a, f, id) && Good(states[a].store, h)
    requires id in states[f].runs && Finished(states[f].runs[id])
    ensures Good(states[f].store, h) <==>
              && Harmless(states[a].store, states[f].runs[id].skipped)
              && Gone(steps, a, f, id) !! Referenced(states[a].store)
  {
    SweepLeaves(states, steps, h, ih, a, f, id);
    KeptGoodIff(states[a].store, states[f].runs[id].skipped, Gone(steps, a, f, id), h);
  }

  lemma KeptGoodIff(st: Store, skipped: set<string>, gone: set<string>, h: Hasher)
    requires Good(st, h)
    ensures var alive := PiecesOf(st, st.torrents.Keys - skipped);
            Good(Store(st.torrents, Within(st.pieces - gone, alive)), h)
            <==> Harmless(st, skipped) && gone !! Referenced(st)
  {
    var loaded := st.torrents.Keys - skipped;
    var kept := Within(st.pieces - gone, PiecesOf(st, loaded));
    forall k | k in st.torrents && st.torrents[k].Torrent?
      ensures Covers(kept, st.torrents[k].info.pieces) <==>
                ToSet(st.torrents[k].info.pieces) <= PiecesOf(st, loaded) && ToSet(st.torrents[k].info.pieces) !! gone
      ensures k in loaded ==> ToSet(st.torrents[k].info.pieces) <= PiecesOf(st, loaded)
    {
      KeptCovers(st, k, loaded, gone);
    }
    ReferencedApart(st, gone);
  }

  lemma ReferencedApart(st: Store, gone: set<string>)
    ensures gone !! Referenced(st) <==>
              forall k | k in st.torrents && st.torrents[k].Torrent? :: ToSet(st.torrents[k].info.pieces) !! gone
  {
    if forall k | k in st.torrents && st.torrents[k].Torrent? :: ToSet(st.torrents[k].info.pieces) !! gone {
      forall x | x in Referenced(st)
        ensures x !in gone
      {
        var k, i :| k in st.torrents && st.torrents[k].Torrent? && 0 <= i < |st.torrents[k].info.pieces|
                    && x == st.torrents[k].info.pieces[i];
        assert x in ToSet(st.torrents[k].info.pieces);
      }
    } else {
      var k :| k in st.torrents && st.torrents[k].Torrent? && !(ToSet(st.torrents[k].info.pieces) !! gone);
      MarkedReferenced(st, k);
    }
  }

  lemma KeptCovers(st: Store, k: string, loaded: set<string>, gone: set<string>)
    requires Committed(st) && k in st.torrents && st.torrents[k].Torrent?
    ensures var hashes, alive := st.torrents[k].info.pieces, PiecesOf(st, loaded);
            && (Covers(Within(st.pieces - gone, alive), hashes) <==> ToSet(hashes) <= alive && ToSet(hashes) !! gone)
            && (k in loaded ==> ToSet(hashes) <= alive)
  {
    var hashes, alive := st.torrents[k].info.pieces, PiecesOf(st, loaded);
    var kept := Within(st.pieces - gone, alive);
    assert Covers(st.pieces, hashes);
    if Covers(kept, hashes) {
      forall x | x in ToSet(hashes)
        ensures x in alive && x !in gone
      {
        var i :| 0 <= i < |hashes| && hashes[i] == x;
        assert hashes[i] in kept;
      }
    }
    if k in loaded {
      forall x | x in ToSet(hashes)
        ensures x in alive
      {
        InPiecesOf(st, loaded, k, x);
      }
    }
  }

  // ---------- What it reports

  /** The number of elements, key by key. */
  ghost function Size(s: set<string>): nat {
    if s == {} then 0 else var x :| x in s; 1 + Size(s - {x})
  }

  lemma {:induction false} SizeIs(s: set<string>)
    ensures Size(s) == |s|
  {
    if s != {} {
      var x :| x in s && Size(s) == 1 + Size(s - {x});
      SizeIs(s - {x});
    }
  }

  /** The counters of a sweep that listed the keys `listed`. */
  ghost predicate Counts(r: Run, listed: set<string>) {
    && r.Sweeping? && r.toScan <= listed && r.stale <= listed - r.toScan - r.alive
    && r.scanned == Size(listed - r.toScan) && r.kept == Size((listed - r.toScan) * r.alive)
    && r.deleted + Size(r.stale) == Size(listed - r.toScan - r.alive)
  }

  lemma AddOne(s: set<string>, t: set<string>, x: string)
    requires x !in s && t == s + {x}
    ensures Size(t) == Size(s) + 1
  {
    SizeIs(s);
    SizeIs(t);
  }

  lemma ScanCounts(r: Run, listed: set<string>, key: string)
    requires Counts(r, listed) && key in r.toScan
    ensures key in r.alive ==>
              Counts(r.(toScan := r.toScan - {key}, scanned := r.scanned + 1, kept := r.kept + 1), listed)
    ensures key !in r.alive ==>
              Counts(r.(toScan := r.toScan - {key}, scanned := r.scanned + 1, stale := r.stale + {key}), listed)
  {
    var rest := r.toScan - {key};
    AddOne(listed - r.toScan, listed - rest, key);
    if key in r.alive {
      AddOne((listed - r.toScan) * r.alive, (listed - rest) * r.alive, key);
      assert listed - rest - r.alive == listed - r.toScan - r.alive;
    } else {
      assert (listed - rest) * r.alive == (listed - r.toScan) * r.alive;
      AddOne(listed - r.toScan - r.alive, listed - rest - r.alive, key);
      AddOne(r.stale, r.stale + {key}, key);
    }
  }

  lemma DeleteCounts(r: Run, listed: set<string>, key: string)
    requires Counts(r, listed) && key in r.stale
    ensures Counts(r.(stale := r.stale - {key}, deleted := r.deleted + 1), listed)
  {
    AddOne(r.stale - {key}, r.stale, key);
  }

  lemma StepCounts(s: State, step: Step, id: nat, listed: set<string>, h: Hasher, ih: InfoHasher)
    requires id in s.runs && Counts(s.runs[id], listed) && Enabled(s, step, h) && step != Stop(id)
    ensures var t := Next(s, step, h, ih); id in t.runs && Counts(t.runs[id], listed)
  {
    if step.Scan? && step.id == id {
      ScanCounts(s.runs[id], listed, step.key);
    } else if step.Delete? && step.id == id {
      DeleteCounts(s.runs[id], listed, step.key);
    } else {
      OtherCounts(s, step, id, h, ih);
    }
  }

  lemma OtherCounts(s: State, step: Step, id: nat, h: Hasher, ih: InfoHasher)
    requires id in s.runs && s.runs[id].Sweeping? && Enabled(s, step, h) && step != Stop(id)
    requires step.id != id || (!step.Scan? && !step.Delete?)
    ensures var t := Next(s, step, h, ih); id in t.runs && t.runs[id] == s.runs[id]
  {}

  lemma SweepStarts(s: State, id: nat, h: Hasher, ih: InfoHasher)
    requires Enabled(s, StartSweep(id), h)
    ensures var t := Next(s, StartSweep(id), h, ih); id in t.runs && Counts(t.runs[id], s.store.pieces.Keys)
  {
    var listed, alive := s.store.pieces.Keys, s.runs[id].alive;
    assert listed - listed == {} && {} * alive == {} && {} - alive == {};
  }

  /** The sweep of run `id` starts at step `b` and has not stopped at state `f`. */
  ghost predicate SweepRun(states: seq<State>, steps: seq<Step>, b: nat, f: nat, id: nat) {
    && b < f < |states| && |states| == |steps| + 1 && steps[b] == StartSweep(id)
    && forall j {:trigger steps[j]} | b < j < f :: steps[j] != Stop(id)
  }

  /** The counters of run `id` are right for the keys `listed`. */
  ghost predicate Counting(s: State, id: nat, listed: set<string>) {
    id in s.runs && Counts(s.runs[id], listed)
  }

  lemma CountsNext(states: seq<State>, steps: seq<Step>, h: Hasher, ih: InfoHasher, f: nat, id: nat,
                   listed: set<string>)
    requires Execution(states, steps, h, ih) && f < |steps| && steps[f] != Stop(id)
    ensures Counting(states[f], id, listed) ==> Counting(states[f + 1], id, listed)
  {
    assert Enabled(states[f], steps[f], h) && states[f + 1] == Next(states[f], steps[f], h, ih);
    if Counting(states[f], id, listed) {
      StepCounts(states[f], steps[f], id, listed, h, ih);
    }
  }

  lemma CountsStart(states: seq<State>, steps: seq<Step>, h: Hasher, ih: InfoHasher, b: nat, id: nat)
    requires Execution(states, steps, h, ih) && b < |steps| && steps[b] == StartSweep(id)
    ensures Counting(states[b + 1], id, states[b].store.pieces.Keys)
  {
    assert Enabled(states[b], steps[b], h) && states[b + 1] == Next(states[b], steps[b], h, ih);
    SweepStarts(states[b], id, h, ih);
  }

  lemma {:induction false} SweepCounts(states: seq<State>, steps: seq<Step>, h: Hasher, ih: InfoHasher, b: nat, f: nat,
                                       id: nat, listed: set<string>)
    requires Execution(states, steps, h, ih) && SweepRun(states, steps, b, f, id)
    requires Counting(states[b + 1], id, listed)
    ensures Counting(states[f], id, listed)
    decreases f
  {
    if b + 1 < f {
      SweepCounts(states, steps, h, ih, b, f - 1, id, listed);
      CountsNext(states, steps, h, ih, f - 1, id, listed);
    }
  }

  /** A finished sweep has scanned every key it listed, kept as many of them as are alive and
      deleted as many as are not. */
  lemma SweepReports(states: seq<State>, steps: seq<Step>, h: Hasher, ih: InfoHasher, b: nat, f: nat, id: nat)
    requires Execution(states, steps, h, ih) && SweepRun(states, steps, b, f, id)
    requires id in states[f].runs && Finished(states[f].runs[id])
    ensures var r, listed := states[f].runs[id], states[b].store.pieces.Keys;
            r.scanned == |listed| && r.kept == |listed * r.alive| && r.deleted == |listed - r.alive|
  {
    var listed := states[b].store.pieces.Keys;
    CountsStart(states, steps, h, ih, b, id);
    SweepCounts(states, steps, h, ih, b, f, id, listed);
    assert listed - {} == listed;
    SizeIs(listed);
    SizeIs(listed * states[f].runs[id].alive);
    SizeIs(listed - states[f].runs[id].alive);
  }

  // ---------- It happens

  /** One torrent of one byte, in one piece. */
  function OneByte(h: Hasher): Info {
    Info("t", 1, [], 1, [h([0])], "")
  }

  function OneTorrent(h: Hasher, ih: InfoHasher): Store {
    Store(map[ih(OneByte(h)) := Torrent(OneByte(h))], map[h([0]) := [0]])
  }

  lemma OneTorrentGood(h: Hasher, ih: InfoHasher)
    ensures Good(OneTorrent(h, ih), h)
    ensures !Good(OneTorrent(h, ih).(pieces := map[]), h)
  {
    var hashes := OneTorrent(h, ih).torrents[ih(OneByte(h))].info.pieces;
    assert Covers(OneTorrent(h, ih).pieces, hashes);
    assert hashes[0] == h([0]);
  }

  /** A gc run alone on a store. */
  ghost function Alone(st: Store, r: Run): State {
    State(st, map[0 := r])
  }

  lemma AloneNext(st: Store, r: Run, r': Run)
    ensures SetRun(Alone(st, r), 0, r') == Alone(st, r')
  {
    assert (map[0 := r])[0 := r'] == map[0 := r'];
  }

  lemma LosingMark(st: Store, key: string, h: Hasher, ih: InfoHasher) returns (states: seq<State>, steps: seq<Step>)
    requires st.torrents.Keys == {key}
    ensures Execution(states, steps, h, ih) && |steps| == 2
    ensures states[0].store == st && states[2] == Alone(st, Marking({}, {}, {key}))
  {
    var s0, s1, s2 := State(st, map[]), Alone(st, Marking({key}, {}, {})), Alone(st, Marking({}, {}, {key}));
    assert {key} - {key} == {} && {} + {key} == {key};
    AloneNext(st, s1.runs[0], s2.runs[0]);
    Extend([s0], [], StartGc(0), s1, h, ih);
    Extend([s0] + [s1], [] + [StartGc(0)], SkipTorrent(0, key), s2, h, ih);
    states, steps := [s0] + [s1] + [s2], [] + [StartGc(0)] + [SkipTorrent(0, key)];
  }

  lemma LosingSweep(before: seq<State>, done: seq<Step>, st: Store, key: string, k: string, h: Hasher, ih: InfoHasher)
    returns (states: seq<State>, steps: seq<Step>)
    requires st.pieces.Keys == {k} && Execution(before, done, h, ih)
    requires before[|done|] == Alone(st, Marking({}, {}, {key}))
    ensures Execution(states, steps, h, ih) && |steps| == |done| + 2 && states[0] == before[0]
    ensures states[|steps|] == Alone(st, Sweeping({}, {key}, {}, {k}, 1, 0, 0))
  {
    var s3, s4 := Alone(st, Sweeping({}, {key}, {k}, {}, 0, 0, 0)), Alone(st, Sweeping({}, {key}, {}, {k}, 1, 0, 0));
    assert {k} - {k} == {} && {} + {k} == {k};
    AloneNext(st, Marking({}, {}, {key}), s3.runs[0]);
    AloneNext(st, s3.runs[0], s4.runs[0]);
    Extend(before, done, StartSweep(0), s3, h, ih);
    Extend(before + [s3], done + [StartSweep(0)], Scan(0, k), s4, h, ih);
    states, steps := before + [s3] + [s4], done + [StartSweep(0)] + [Scan(0, k)];
  }

  /** One torrent that fails to load loses its piece. */
  lemma SkippingLosesPieces(h: Hasher, ih: InfoHasher) returns (states: seq<State>, steps: seq<Step>)
    ensures Execution(states, steps, h, ih) && |steps| == 5
    ensures Good(states[0].store, h) && !Good(states[5].store, h)
  {
    var st, key, k := OneTorrent(h, ih), ih(OneByte(h)), h([0]);
    OneTorrentGood(h, ih);
    var marked, done := LosingMark(st, key, h, ih);
    var before, done' := LosingSweep(marked, done, st, key, k, h, ih);
    var t := Next(before[4], Delete(0, k), h, ih);
    assert t.store == st.(pieces := map[]);
    Extend(before, done', Delete(0, k), t, h, ih);
    states, steps := before + [t], done' + [Delete(0, k)];
  }
}
