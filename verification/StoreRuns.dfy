/**
 Whole runs of fetch, repack and gc over one store (fetch.go lines 266-372, repack.go
 lines 99-245, gc.go lines 82-177). Every step is one store operation; any number of
 fetches and repacks may run at the same time, and any process may die between any two
 steps.

 What the code relies on is stated in the steps: Stat may be spuriously false but never
 spuriously true, listings are complete snapshots, a piece is marked complete only with
 bytes of its hash, and gc does not overlap fetch or repack.
 */
module StoreRuns {
  import opened Streams
  import opened TorrentMetas
  import opened Stores

  datatype Run =
    | Checking(info: Info, key: string)                                 // fetch: looking for the commit marker
    | Downloading(info: Info, known: set<string>, complete: set<nat>)   // fetch: anacrolix at work
    | Repacking(chunks: seq<Bytes>, settled: set<nat>)                  // repack: chunks emitted, and stored or skipped
    | Marking(todo: set<string>, alive: set<string>, skipped: set<string>)
    | Sweeping(alive: set<string>, skipped: set<string>, toScan: set<string>, stale: set<string>,
               scanned: nat, kept: nat, deleted: nat)

  datatype State = State(store: Store, runs: map<nat, Run>)

  datatype Step =
    | StartFetch(id: nat, info: Info)
    | StatYes(id: nat) | StatNo(id: nat, known: set<string>)
    | Known(id: nat, i: nat) | Upload(id: nat, i: nat, data: Bytes) | Unmark(id: nat, i: nat)
    | Commit(id: nat)
    | StartRepack(id: nat, key: string)
    | Emit(id: nat, chunk: Bytes) | Skip(id: nat, j: nat) | Put(id: nat, j: nat)
    | Publish(id: nat, info: Info)
    | StartGc(id: nat)
    | Mark(id: nat, key: string) | SkipTorrent(id: nat, key: string)
    | StartSweep(id: nat)
    | Scan(id: nat, key: string) | Delete(id: nat, key: string)
    | Stop(id: nat)                                                     // return or crash

  predicate IsGc(r: Run) {
    r.Marking? || r.Sweeping?
  }

  ghost predicate NoGc(s: State) {
    forall id {:trigger s.runs[id]} | id in s.runs :: !IsGc(s.runs[id])
  }

  ghost predicate NoWriter(s: State) {
    forall id {:trigger s.runs[id]} | id in s.runs :: IsGc(s.runs[id])
  }

  ghost predicate Enabled(s: State, step: Step, h: Hasher) {
    match step
    case StartFetch(id, _) => id !in s.runs && NoGc(s)
    case StartRepack(id, key) => id !in s.runs && NoGc(s) && key in s.store.torrents && s.store.torrents[key].Torrent?
    case StartGc(id) => id !in s.runs && NoWriter(s)
    case _ => step.id in s.runs && MayTake(s, step, s.runs[step.id], h)
  }

  ghost predicate MayTake(s: State, step: Step, r: Run, h: Hasher) {
    match step
    case StatYes(_) => r.Checking? && r.key in s.store.torrents
    case StatNo(_, known) => r.Checking? && known <= s.store.pieces.Keys
    case Known(_, i) => r.Downloading? && i < |r.info.pieces| && r.info.pieces[i] in r.known
    case Upload(_, i, data) => r.Downloading? && i < |r.info.pieces| && h(data) == r.info.pieces[i]
    case Unmark(_, i) => r.Downloading?
    case Commit(_) => r.Downloading? && forall i | 0 <= i < |r.info.pieces| :: i in r.complete
    case Emit(_, _) => r.Repacking?
    case Skip(_, j) => r.Repacking? && j < |r.chunks| && h(r.chunks[j]) in s.store.pieces
    case Put(_, j) => r.Repacking? && j < |r.chunks|
    case Publish(_, info) =>
      r.Repacking? && info.pieces == HashAll(h, r.chunks) && forall j | 0 <= j < |r.chunks| :: j in r.settled
    case Mark(_, key) => r.Marking? && key in r.todo && key in s.store.torrents && s.store.torrents[key].Torrent?
    case SkipTorrent(_, key) => r.Marking? && key in r.todo
    case StartSweep(_) => r.Marking? && r.todo == {}
    case Scan(_, key) => r.Sweeping? && key in r.toScan
    case Delete(_, key) => r.Sweeping? && key in r.stale
    case Stop(_) => true
    case _ => false
  }

  ghost function SetRun(s: State, id: nat, r: Run): State {
    s.(runs := s.runs[id := r])
  }

  ghost function PutPiece(s: State, k: string, data: Bytes): State {
    s.(store := s.store.(pieces := s.store.pieces[k := data]))
  }

  ghost function PutTorrent(s: State, k: string, info: Info): State {
    s.(store := s.store.(torrents := s.store.torrents[k := Torrent(info)]))
  }

  ghost function ToSet(xs: seq<string>): set<string> {
    set x | x in xs
  }

  ghost function Next(s: State, step: Step, h: Hasher, ih: InfoHasher): State
    requires Enabled(s, step, h)
  {
    match step
    case StartFetch(id, info) => SetRun(s, id, Checking(info, ih(info)))
    case StartRepack(id, _) => SetRun(s, id, Repacking([], {}))
    case StartGc(id) => SetRun(s, id, Marking(s.store.torrents.Keys, {}, {}))
    case _ => RunNext(s, step, s.runs[step.id], h, ih)
  }

  ghost function RunNext(s: State, step: Step, r: Run, h: Hasher, ih: InfoHasher): State
    requires MayTake(s, step, r, h)
  {
    var id := step.id;
    match step
    case StatYes(_) => s.(runs := s.runs - {id})
    case StatNo(_, known) => SetRun(s, id, Downloading(r.info, known, {}))
    case Known(_, i) => SetRun(s, id, r.(complete := r.complete + {i}))
    case Upload(_, i, data) => SetRun(PutPiece(s, r.info.pieces[i], data), id, r.(complete := r.complete + {i}))
    case Unmark(_, i) => SetRun(s, id, r.(complete := r.complete - {i}))
    case Commit(_) => PutTorrent(s, ih(r.info), r.info).(runs := s.runs - {id})
    case Emit(_, chunk) => SetRun(s, id, r.(chunks := r.chunks + [chunk]))
    case Skip(_, j) => SetRun(s, id, r.(settled := r.settled + {j}))
    case Put(_, j) => SetRun(PutPiece(s, h(r.chunks[j]), r.chunks[j]), id, r.(settled := r.settled + {j}))
    case Publish(_, info) => PutTorrent(s, ih(info), info).(runs := s.runs - {id})
    case Mark(_, key) =>
      SetRun(s, id, r.(todo := r.todo - {key}, alive := r.alive + ToSet(s.store.torrents[key].info.pieces)))
    case SkipTorrent(_, key) => SetRun(s, id, r.(todo := r.todo - {key}, skipped := r.skipped + {key}))
    case StartSweep(_) => SetRun(s, id, Sweeping(r.alive, r.skipped, s.store.pieces.Keys, {}, 0, 0, 0))
    case Scan(_, key) =>
      SetRun(s, id, if key in r.alive then r.(toScan := r.toScan - {key}, scanned := r.scanned + 1, kept := r.kept + 1)
                    else r.(toScan := r.toScan - {key}, scanned := r.scanned + 1, stale := r.stale + {key}))
    case Delete(_, key) =>
      SetRun(s, id, r.(stale := r.stale - {key}, deleted := r.deleted + 1))
        .(store := s.store.(pieces := s.store.pieces - {key}))
    case Stop(_) => s.(runs := s.runs - {id})
    case _ => s
  }

  /** What gc may skip: when it starts sweeping, every piece of a skipped torrent that could
      have been read is listed by a loaded one. Module Sweeps shows that it has to be so. */
  ghost predicate SkipsCovered(s: State, step: Step) {
    step.StartSweep? && step.id in s.runs && s.runs[step.id].Marking? ==>
      forall k | k in s.runs[step.id].skipped && k in s.store.torrents && s.store.torrents[k].Torrent? ::
        ToSet(s.store.torrents[k].info.pieces) <= s.runs[step.id].alive
  }

  // ---------- What every state keeps

  /** All pieces any stored torrent refers to. */
  ghost function Referenced(st: Store): set<string> {
    set k, i | k in st.torrents && st.torrents[k].Torrent? && 0 <= i < |st.torrents[k].info.pieces| ::
      st.torrents[k].info.pieces[i]
  }

  ghost predicate RunOk(st: Store, r: Run, h: Hasher) {
    match r
    case Checking(_, _) => true
    case Downloading(info, known, complete) =>
      known <= st.pieces.Keys && forall i | i in complete && i < |info.pieces| :: info.pieces[i] in st.pieces
    case Repacking(chunks, settled) => forall j | j in settled :: j < |chunks| && h(chunks[j]) in st.pieces
    case Marking(todo, alive, skipped) =>
      && todo <= st.torrents.Keys && skipped <= st.torrents.Keys && alive <= Referenced(st)
      && forall k | k in st.torrents && k !in todo && k !in skipped ::
           st.torrents[k].Torrent? && ToSet(st.torrents[k].info.pieces) <= alive
    case Sweeping(alive, skipped, toScan, stale, scanned, kept, deleted) =>
      && alive <= Referenced(st) && alive !! stale && toScan !! stale
      && Referenced(st) <= alive
      && st.pieces.Keys <= toScan + alive + stale
      && scanned == kept + deleted + |stale|
  }

  /** No gc beside a writer. */
  ghost predicate Apart(s: State) {
    NoGc(s) || NoWriter(s)
  }

  ghost predicate Inv(s: State, h: Hasher) {
    && Good(s.store, h) && Apart(s)
    && (forall id {:trigger s.runs[id]} | id in s.runs :: RunOk(s.store, s.runs[id], h))
  }

  // ---------- One step keeps it

  lemma WriterAlone(s: State, id: nat)
    requires Apart(s) && id in s.runs
    ensures if IsGc(s.runs[id]) then NoWriter(s) else NoGc(s)
  {}

  lemma GrowOk(a: Store, b: Store, r: Run, h: Hasher)
    requires RunOk(a, r, h) && !IsGc(r) && a.pieces.Keys <= b.pieces.Keys
    ensures RunOk(b, r, h)
  {}

  lemma ShrinkOk(a: Store, b: Store, r: Run, h: Hasher)
    requires RunOk(a, r, h) && IsGc(r) && b.torrents == a.torrents && b.pieces.Keys <= a.pieces.Keys
    ensures RunOk(b, r, h)
  {
    assert Referenced(b) == Referenced(a);
  }

  /** Storing bytes under their hash keeps the store good. */
  lemma PutPieceGood(st: Store, k: string, data: Bytes, h: Hasher)
    requires Good(st, h) && h(data) == k
    ensures Good(st.(pieces := st.pieces[k := data]), h)
  {
    var t := st.(pieces := st.pieces[k := data]);
    forall x | x in t.torrents && t.torrents[x].Torrent?
      ensures Covers(t.pieces, t.torrents[x].info.pieces)
    {
      assert Covers(st.pieces, st.torrents[x].info.pieces);
    }
  }

  /** Publishing a torrent whose pieces are all there keeps it good. */
  lemma PutTorrentGood(st: Store, k: string, info: Info, h: Hasher)
    requires Good(st, h) && Covers(st.pieces, info.pieces)
    ensures Good(st.(torrents := st.torrents[k := Torrent(info)]), h)
  {}

  /** Deleting a piece nothing refers to keeps it good. */
  lemma DeleteGood(st: Store, k: string, h: Hasher)
    requires Good(st, h) && k !in Referenced(st)
    ensures Good(st.(pieces := st.pieces - {k}), h)
  {
    var t := st.(pieces := st.pieces - {k});
    forall x | x in t.torrents && t.torrents[x].Torrent?
      ensures Covers(t.pieces, t.torrents[x].info.pieces)
    {
      var hashes := st.torrents[x].info.pieces;
      assert Covers(st.pieces, hashes);
      assert forall i | 0 <= i < |hashes| :: hashes[i] in Referenced(st);
    }
  }

  /** The other runs of a writer's step, and of a gc's. */
  lemma OthersOk(s: State, t: State, id: nat, h: Hasher)
    requires Inv(s, h)
    requires forall j | j in t.runs && j != id :: j in s.runs && t.runs[j] == s.runs[j]
    requires || (NoGc(s) && s.store.pieces.Keys <= t.store.pieces.Keys)
             || (NoWriter(s) && t.store.torrents == s.store.torrents && t.store.pieces.Keys <= s.store.pieces.Keys)
    ensures forall j {:trigger t.runs[j]} | j in t.runs && j != id :: RunOk(t.store, t.runs[j], h)
  {
    forall j {:trigger t.runs[j]} | j in t.runs && j != id
      ensures RunOk(t.store, t.runs[j], h)
    {
      assert RunOk(s.store, s.runs[j], h);
      if NoGc(s) && s.store.pieces.Keys <= t.store.pieces.Keys {
        GrowOk(s.store, t.store, s.runs[j], h);
      } else {
        ShrinkOk(s.store, t.store, s.runs[j], h);
      }
    }
  }

  /** Own run of a fetch or repack, and the store it leaves. */
  lemma WriterKeeps(s: State, step: Step, h: Hasher, ih: InfoHasher)
    requires Inv(s, h) && step.id in s.runs && !IsGc(s.runs[step.id]) && MayTake(s, step, s.runs[step.id], h)
    ensures Inv(RunNext(s, step, s.runs[step.id], h, ih), h)
  {
    var r := s.runs[step.id];
    var t := RunNext(s, step, r, h, ih);
    assert RunOk(s.store, r, h);
    WriterAlone(s, step.id);
    WriterStore(s, step, h, ih);
    OthersOk(s, t, step.id, h);
    WriterOwn(s, step, h, ih);
  }

  lemma WriterStore(s: State, step: Step, h: Hasher, ih: InfoHasher)
    requires Inv(s, h) && step.id in s.runs && !IsGc(s.runs[step.id]) && MayTake(s, step, s.runs[step.id], h)
    ensures var t := RunNext(s, step, s.runs[step.id], h, ih);
            Good(t.store, h) && s.store.pieces.Keys <= t.store.pieces.Keys
  {
    var r := s.runs[step.id];
    assert RunOk(s.store, r, h);
    match step
    case Upload(_, i, data) => PutPieceGood(s.store, r.info.pieces[i], data, h);
    case Put(_, j) => PutPieceGood(s.store, h(r.chunks[j]), r.chunks[j], h);
    case Commit(_) => PutTorrentGood(s.store, ih(r.info), r.info, h);
    case Publish(_, info) =>
      forall i | 0 <= i < |info.pieces|
        ensures info.pieces[i] in s.store.pieces
      {
        assert i in r.settled;
      }
      PutTorrentGood(s.store, ih(info), info, h);
    case _ =>
  }

  lemma WriterOwn(s: State, step: Step, h: Hasher, ih: InfoHasher)
    requires Inv(s, h) && step.id in s.runs && !IsGc(s.runs[step.id]) && MayTake(s, step, s.runs[step.id], h)
    ensures var t := RunNext(s, step, s.runs[step.id], h, ih);
            && (forall j | j in t.runs && j != step.id :: j in s.runs && t.runs[j] == s.runs[j])
            && (step.id in t.runs ==> RunOk(t.store, t.runs[step.id], h) && !IsGc(t.runs[step.id]))
  {
    assert RunOk(s.store, s.runs[step.id], h);
  }

  /** What a gc step leaves: its own run in order, everything else as it was. */
  ghost predicate GcLeaves(s: State, t: State, id: nat, h: Hasher) {
    && (forall j | j in t.runs && j != id :: j in s.runs && t.runs[j] == s.runs[j])
    && (id in t.runs ==> RunOk(t.store, t.runs[id], h) && IsGc(t.runs[id]))
    && t.store.torrents == s.store.torrents && t.store.pieces.Keys <= s.store.pieces.Keys
    && Good(t.store, h)
  }

  lemma GcAssemble(s: State, t: State, id: nat, h: Hasher)
    requires Inv(s, h) && id in s.runs && IsGc(s.runs[id]) && GcLeaves(s, t, id, h)
    ensures Inv(t, h)
  {
    WriterAlone(s, id);
    OthersOk(s, t, id, h);
  }

  lemma GcMarkKeeps(s: State, step: Step, h: Hasher, ih: InfoHasher)
    requires Inv(s, h) && step.id in s.runs && s.runs[step.id].Marking? && MayTake(s, step, s.runs[step.id], h)
    requires SkipsCovered(s, step)
    ensures Inv(RunNext(s, step, s.runs[step.id], h, ih), h)
  {
    var r := s.runs[step.id];
    var t := RunNext(s, step, r, h, ih);
    assert RunOk(s.store, r, h) && t.store == s.store;
    match step {
      case Mark(_, key) => MarkedReferenced(s.store, key);
      case StartSweep(_) => AllMarked(s.store, r.alive);
      case _ =>
    }
    GcAssemble(s, t, step.id, h);
  }

  lemma GcScanKeeps(s: State, step: Step, h: Hasher, ih: InfoHasher)
    requires Inv(s, h) && step.id in s.runs && s.runs[step.id].Sweeping? && MayTake(s, step, s.runs[step.id], h)
    requires !step.Delete?
    ensures Inv(RunNext(s, step, s.runs[step.id], h, ih), h)
  {
    var r := s.runs[step.id];
    var t := RunNext(s, step, r, h, ih);
    assert RunOk(s.store, r, h) && t.store == s.store;
    if step.Scan? {
      ScanOk(s.store, r, step.key, h);
    }
    GcAssemble(s, t, step.id, h);
  }

  lemma ScanOk(st: Store, r: Run, key: string, h: Hasher)
    requires r.Sweeping? && RunOk(st, r, h) && key in r.toScan
    ensures key in r.alive ==>
              RunOk(st, r.(toScan := r.toScan - {key}, scanned := r.scanned + 1, kept := r.kept + 1), h)
    ensures key !in r.alive ==>
              RunOk(st, r.(toScan := r.toScan - {key}, scanned := r.scanned + 1, stale := r.stale + {key}), h)
  {}

  lemma GcDeleteKeeps(s: State, step: Step, h: Hasher, ih: InfoHasher)
    requires Inv(s, h) && step.id in s.runs && step.Delete? && MayTake(s, step, s.runs[step.id], h)
    ensures Inv(RunNext(s, step, s.runs[step.id], h, ih), h)
  {
    var r, key := s.runs[step.id], step.key;
    var t := RunNext(s, step, r, h, ih);
    assert RunOk(s.store, r, h);
    assert key !in Referenced(s.store);
    DeleteGood(s.store, key, h);
    DeleteOk(s.store, r, key, h);
    GcAssemble(s, t, step.id, h);
  }

  lemma DeleteOk(st: Store, r: Run, key: string, h: Hasher)
    requires r.Sweeping? && RunOk(st, r, h) && key in r.stale
    ensures RunOk(st.(pieces := st.pieces - {key}), r.(stale := r.stale - {key}, deleted := r.deleted + 1), h)
  {
    assert Referenced(st.(pieces := st.pieces - {key})) == Referenced(st);
    assert r.stale == r.stale - {key} + {key};
  }

  lemma MarkedReferenced(st: Store, key: string)
    requires key in st.torrents && st.torrents[key].Torrent?
    ensures ToSet(st.torrents[key].info.pieces) <= Referenced(st)
  {
    var hashes := st.torrents[key].info.pieces;
    forall x | x in ToSet(hashes)
      ensures x in Referenced(st)
    {
      var i :| 0 <= i < |hashes| && hashes[i] == x;
    }
  }

  lemma AllMarked(st: Store, alive: set<string>)
    requires forall k | k in st.torrents && st.torrents[k].Torrent? :: ToSet(st.torrents[k].info.pieces) <= alive
    ensures Referenced(st) <= alive
  {
    forall x | x in Referenced(st)
      ensures x in alive
    {
      var k, i :| k in st.torrents && st.torrents[k].Torrent? && 0 <= i < |st.torrents[k].info.pieces|
                  && x == st.torrents[k].info.pieces[i];
      assert x in ToSet(st.torrents[k].info.pieces);
    }
  }

  lemma StartKeeps(s: State, step: Step, h: Hasher, ih: InfoHasher)
    requires Inv(s, h) && Enabled(s, step, h) && (step.StartFetch? || step.StartRepack? || step.StartGc?)
    ensures Inv(Next(s, step, h, ih), h)
  {
    var t := Next(s, step, h, ih);
    forall j {:trigger t.runs[j]} | j in t.runs
      ensures RunOk(t.store, t.runs[j], h)
    {
      assert j != step.id ==> RunOk(s.store, s.runs[j], h);
    }
  }

  /** Every step of every run keeps the store good. */
  lemma StepKeeps(s: State, step: Step, h: Hasher, ih: InfoHasher)
    requires Inv(s, h) && Enabled(s, step, h) && SkipsCovered(s, step)
    ensures Inv(Next(s, step, h, ih), h)
  {
    if step.StartFetch? || step.StartRepack? || step.StartGc? {
      StartKeeps(s, step, h, ih);
    } else if step.Delete? {
      GcDeleteKeeps(s, step, h, ih);
    } else if s.runs[step.id].Marking? {
      GcMarkKeeps(s, step, h, ih);
    } else if s.runs[step.id].Sweeping? {
      GcScanKeeps(s, step, h, ih);
    } else {
      WriterKeeps(s, step, h, ih);
    }
  }

  // ---------- Whole runs

  ghost predicate Execution(states: seq<State>, steps: seq<Step>, h: Hasher, ih: InfoHasher) {
    && |states| == |steps| + 1 && states[0].runs == map[]
    && forall i {:trigger steps[i]} | 0 <= i < |steps| ::
         Enabled(states[i], steps[i], h) && states[i + 1] == Next(states[i], steps[i], h, ih)
  }

  /** One more step at the end of a run. */
  lemma Extend(states: seq<State>, steps: seq<Step>, step: Step, t: State, h: Hasher, ih: InfoHasher)
    requires Execution(states, steps, h, ih)
    requires Enabled(states[|steps|], step, h) && Next(states[|steps|], step, h, ih) == t
    ensures Execution(states + [t], steps + [step], h, ih)
  {
    forall i {:trigger (steps + [step])[i]} | 0 <= i < |steps| + 1
      ensures Enabled((states + [t])[i], (steps + [step])[i], h)
      ensures (states + [t])[i + 1] == Next((states + [t])[i], (steps + [step])[i], h, ih)
    {
      assert i < |steps| ==> (steps + [step])[i] == steps[i];
    }
  }

  /** A run from `first` that ends in `last`. */
  ghost predicate EndsIn(states: seq<State>, steps: seq<Step>, h: Hasher, ih: InfoHasher, first: State, last: State) {
    Execution(states, steps, h, ih) && states[0] == first && states[|steps|] == last
  }

  lemma Longer(states: seq<State>, steps: seq<Step>, h: Hasher, ih: InfoHasher, first: State, last: State, step: Step)
    requires EndsIn(states, steps, h, ih, first, last) && Enabled(last, step, h)
    ensures EndsIn(states + [Next(last, step, h, ih)], steps + [step], h, ih, first, Next(last, step, h, ih))
  {
    Extend(states, steps, step, Next(last, step, h, ih), h, ih);
  }

  /** Commit safety: from a good store, whatever runs and wherever they die, every stored
      torrent has all its pieces and every piece key holds bytes with that hash. */
  lemma {:induction false} AlwaysGood(states: seq<State>, steps: seq<Step>, h: Hasher, ih: InfoHasher, i: nat)
    requires Execution(states, steps, h, ih) && Good(states[0].store, h) && i < |states|
    requires forall j {:trigger steps[j]} | 0 <= j < |steps| :: SkipsCovered(states[j], steps[j])
    ensures Inv(states[i], h)
  {
    if i > 0 {
      AlwaysGood(states, steps, h, ih, i - 1);
      assert Enabled(states[i - 1], steps[i - 1], h) && SkipsCovered(states[i - 1], steps[i - 1]);
      StepKeeps(states[i - 1], steps[i - 1], h, ih);
    }
  }

  /** Run `id`, a fetch of `info` started at step `a`, has not ended before state `i`. */
  ghost predicate Fetches(steps: seq<Step>, a: nat, i: nat, id: nat, info: Info) {
    && a < i <= |steps| && steps[a] == StartFetch(id, info)
    && forall j {:trigger steps[j]} | a < j < i ::
         steps[j] != Stop(id) && steps[j] != StatYes(id) && steps[j] != Commit(id)
  }

  /** What it still is, then. */
  ghost predicate FetchOf(r: Run, info: Info, ih: InfoHasher) {
    (r.Checking? && r.info == info && r.key == ih(info)) || (r.Downloading? && r.info == info)
  }

  lemma FetchStays(s: State, step: Step, id: nat, info: Info, h: Hasher, ih: InfoHasher)
    requires Enabled(s, step, h) && step != Stop(id) && step != StatYes(id) && step != Commit(id)
    requires id in s.runs && FetchOf(s.runs[id], info, ih)
    ensures var t := Next(s, step, h, ih); id in t.runs && FetchOf(t.runs[id], info, ih)
  {}

  lemma {:induction false} StillFetching(states: seq<State>, steps: seq<Step>, h: Hasher, ih: InfoHasher,
                                         a: nat, i: nat, id: nat, info: Info)
    requires Execution(states, steps, h, ih) && Fetches(steps, a, i, id, info)
    ensures id in states[i].runs && FetchOf(states[i].runs[id], info, ih)
  {
    assert Enabled(states[i - 1], steps[i - 1], h) && states[i] == Next(states[i - 1], steps[i - 1], h, ih);
    if i > a + 1 {
      StillFetching(states, steps, h, ih, a, i - 1, id, info);
      FetchStays(states[i - 1], steps[i - 1], id, info, h, ih);
    }
  }

  /** A fetch that commits has stored its torrent under its infohash, with all its pieces there;
      every other torrent and all pieces are as they were. A fetch that ends because the
      marker is there has changed nothing. */
  lemma FetchEnds(states: seq<State>, steps: seq<Step>, h: Hasher, ih: InfoHasher, a: nat, i: nat, id: nat, info: Info)
    requires Execution(states, steps, h, ih) && Good(states[0].store, h)
    requires forall j {:trigger steps[j]} | 0 <= j < |steps| :: SkipsCovered(states[j], steps[j])
    requires Fetches(steps, a, i, id, info) && i < |steps| && (steps[i] == Commit(id) || steps[i] == StatYes(id))
    ensures id !in states[i + 1].runs && ih(info) in states[i + 1].store.torrents
    ensures steps[i] == Commit(id) ==>
              && states[i + 1].store.torrents[ih(info)] == Torrent(info)
              && states[i + 1].store.torrents - {ih(info)} == states[i].store.torrents - {ih(info)}
              && states[i + 1].store.pieces == states[i].store.pieces && Covers(states[i].store.pieces, info.pieces)
    ensures steps[i] == StatYes(id) ==> states[i + 1].store == states[i].store
  {
    AlwaysGood(states, steps, h, ih, i);
    StillFetching(states, steps, h, ih, a, i, id, info);
    assert Enabled(states[i], steps[i], h) && states[i + 1] == Next(states[i], steps[i], h, ih);
    assert RunOk(states[i].store, states[i].runs[id], h);
  }

  /** GC exactness: a finished sweep leaves exactly the referenced pieces, and has scanned
      as many keys as it kept or deleted. */
  lemma SweepIsExact(states: seq<State>, steps: seq<Step>, h: Hasher, ih: InfoHasher, i: nat, id: nat)
    requires Execution(states, steps, h, ih) && Good(states[0].store, h) && i < |states|
    requires forall j {:trigger steps[j]} | 0 <= j < |steps| :: SkipsCovered(states[j], steps[j])
    requires id in states[i].runs && states[i].runs[id].Sweeping?
    requires states[i].runs[id].toScan == {} && states[i].runs[id].stale == {}
    ensures states[i].store.pieces.Keys == Referenced(states[i].store)
    ensures states[i].runs[id].scanned == states[i].runs[id].kept + states[i].runs[id].deleted
  {
    AlwaysGood(states, steps, h, ih, i);
    var st := states[i].store;
    assert RunOk(st, states[i].runs[id], h);
    ReferencedStored(st, h);
  }

  lemma ReferencedStored(st: Store, h: Hasher)
    requires Good(st, h)
    ensures Referenced(st) <= st.pieces.Keys
  {
    forall x | x in Referenced(st)
      ensures x in st.pieces
    {
      var k, i :| k in st.torrents && st.torrents[k].Torrent? && 0 <= i < |st.torrents[k].info.pieces|
                  && x == st.torrents[k].info.pieces[i];
      assert Covers(st.pieces, st.torrents[k].info.pieces);
    }
  }
}
