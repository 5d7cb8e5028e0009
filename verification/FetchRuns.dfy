/**
 The piece storage of a fetch process (modules Buffers and Handoff) as one of the runs of
 module StoreRuns (fetch.go lines 266-372): what each step does to the store and to the set
 of complete pieces is what a step there does, or nothing.
 */
module FetchRuns {
  import opened Streams
  import opened TorrentMetas
  import opened Stores
  import B = Buffers
  import opened Handoff
  import R = StoreRuns

  /** The pieces opened so far are the torrent's. */
  ghost predicate OfTorrent(s: B.State, info: Info) {
    forall i {:trigger s.pieces[i]} | i in s.pieces :: i < |info.pieces| && s.pieces[i].hash == info.pieces[i]
  }

  ghost predicate Opens(steps: seq<B.Step>, info: Info) {
    forall j {:trigger steps[j]} | 0 <= j < |steps| && steps[j].Open? ::
      steps[j].idx < |info.pieces| && steps[j].hash == info.pieces[steps[j].idx]
  }

  /** A MarkComplete of the piece is past its upload. */
  ghost predicate HandedOver(s: B.State, i: nat) {
    exists id {:trigger s.calls[id]} :: id in s.calls && s.calls[id].idx == i && s.calls[id].pc.Marking?
  }

  ghost function Complete(s: B.State): set<nat> {
    set i | i in s.pieces && (s.pieces[i].complete || HandedOver(s, i))
  }

  /** A completion check that is about to say yes has found the hash in the listing. */
  ghost predicate Asked(c: B.Config, s: B.State) {
    forall id {:trigger s.calls[id]} | id in s.calls && s.calls[id].pc.CompSet? ::
      s.calls[id].idx in s.pieces && s.pieces[s.calls[id].idx].hash in c.known
  }

  ghost function RunOf(c: B.Config, s: B.State, torrents: map<string, Blob>, info: Info, id: nat): R.State {
    R.State(Store(torrents, s.store), map[id := R.Downloading(info, c.known, Complete(s))])
  }

  datatype Moves = Stutters | Takes(step: R.Step)

  /** The step of the run that a step of the storage is. */
  ghost function StepOf(c: B.Config, s: B.State, step: B.Step, run: nat): Moves
    requires B.Enabled(c, s, step)
  {
    if !step.Act? then Stutters
    else
      var i := s.calls[step.id].idx;
      match s.calls[step.id].pc
      case Uploading(slice) => Takes(R.Upload(run, i, B.Sent(s.heap, slice)))
      case UnmarkStart => Takes(R.Unmark(run, i))
      case CompSet => Takes(R.Known(run, i))
      case _ => Stutters
  }

  // ---------- One step

  lemma OfTorrentKeeps(c: B.Config, s: B.State, step: B.Step, info: Info)
    requires OfTorrent(s, info) && B.Enabled(c, s, step)
    requires step.Open? ==> step.idx < |info.pieces| && step.hash == info.pieces[step.idx]
    ensures OfTorrent(B.Next(c, s, step), info)
  {
    if step.Act? {
      B.ActShape(c, s, step.id);
    }
  }

  lemma AskedKeeps(c: B.Config, s: B.State, step: B.Step)
    requires Asked(c, s) && B.Enabled(c, s, step)
    ensures Asked(c, B.Next(c, s, step))
  {
    if step.Act? {
      B.ActShape(c, s, step.id);
      AskedAct(c, s, step.id);
    }
  }

  lemma AskedAct(c: B.Config, s: B.State, id: nat)
    requires B.Enabled(c, s, B.Act(id))
    ensures var t, call := B.ActNext(c, s, id), s.calls[id];
            id in t.calls && (t.calls[id].pc.CompSet? ==> s.pieces[call.idx].hash in c.known)
  {}

  /** What the step of a call means for its own piece. */
  lemma OwnComplete(c: B.Config, s: B.State, id: nat)
    requires B.Enabled(c, s, B.Act(id))
    ensures var t, idx, pc := B.ActNext(c, s, id), s.calls[id].idx, s.calls[id].pc;
            && id in t.calls && idx in t.pieces
            && (t.calls[id].pc.Marking? <==> pc.Uploading?)
            && (t.pieces[idx].complete <==>
                  if pc.Marking? || pc.CompSet? then true
                  else if pc.UnmarkStart? then false else s.pieces[idx].complete)
  {}

  lemma CompleteAct(c: B.Config, s: B.State, id: nat, i: nat)
    requires B.Enabled(c, s, B.Act(id)) && i in s.pieces
    requires s.calls[id].pc.UnmarkStart? && i == s.calls[id].idx ==> !HandedOver(s, i)
    ensures var t, pc := B.ActNext(c, s, id), s.calls[id].pc;
            i in Complete(t) <==>
              if i == s.calls[id].idx && (pc.Uploading? || pc.CompSet?) then true
              else if i == s.calls[id].idx && pc.UnmarkStart? then false
              else i in Complete(s)
  {
    var t := B.ActNext(c, s, id);
    B.ActShape(c, s, id);
    OwnComplete(c, s, id);
    HandedNext(c, s, id, i);
  }

  /** Who is past its upload after the step. */
  lemma HandedNext(c: B.Config, s: B.State, id: nat, i: nat)
    requires B.Enabled(c, s, B.Act(id)) && i in s.pieces
    ensures var t, own := B.ActNext(c, s, id), i == s.calls[id].idx;
            && (own && s.calls[id].pc.Uploading? ==> HandedOver(t, i))
            && (HandedOver(t, i) ==> HandedOver(s, i) || (own && s.calls[id].pc.Uploading?))
            && (HandedOver(s, i) ==> HandedOver(t, i) || (own && s.calls[id].pc.Marking?))
            && (own && s.calls[id].pc.Marking? ==> HandedOver(s, i))
  {
    var t := B.ActNext(c, s, id);
    B.ActShape(c, s, id);
    OwnComplete(c, s, id);
    if HandedOver(t, i) {
      var j :| j in t.calls && t.calls[j].idx == i && t.calls[j].pc.Marking?;
      assert j in s.calls && (j != id ==> s.calls[j] == t.calls[j]);
    }
    if HandedOver(s, i) {
      var j :| j in s.calls && s.calls[j].idx == i && s.calls[j].pc.Marking?;
      assert j in t.calls && (j != id ==> t.calls[j] == s.calls[j]);
    }
    assert t.calls[id].pc.Marking? <==> s.calls[id].pc.Uploading?;
  }

  /** The complete pieces after the step. */
  lemma CompleteNext(c: B.Config, s: B.State, id: nat)
    requires B.Enabled(c, s, B.Act(id))
    requires s.calls[id].pc.UnmarkStart? ==> !HandedOver(s, s.calls[id].idx)
    ensures var t, i, pc := B.ActNext(c, s, id), s.calls[id].idx, s.calls[id].pc;
            Complete(t) == if pc.Uploading? || pc.CompSet? then Complete(s) + {i}
                           else if pc.UnmarkStart? then Complete(s) - {i} else Complete(s)
  {
    var t := B.ActNext(c, s, id);
    B.ActShape(c, s, id);
    forall i | i in s.pieces
      ensures i in Complete(t) <==>
                if i == s.calls[id].idx && (s.calls[id].pc.Uploading? || s.calls[id].pc.CompSet?) then true
                else if i == s.calls[id].idx && s.calls[id].pc.UnmarkStart? then false
                else i in Complete(s)
    {
      CompleteAct(c, s, id, i);
    }
  }

  /** New facades, new calls, copied bytes and failures complete nothing. */
  lemma CompleteQuiet(c: B.Config, s: B.State, step: B.Step)
    requires B.Enabled(c, s, step) && !step.Act?
    requires forall id {:trigger s.calls[id]} | id in s.calls :: s.calls[id].idx in s.pieces
    ensures Complete(B.Next(c, s, step)) == Complete(s)
  {
    var t := B.Next(c, s, step);
    forall i | i in t.pieces
      ensures HandedOver(t, i) <==> i in s.pieces && HandedOver(s, i)
    {
      QuietHanded(c, s, step, i);
    }
  }

  lemma QuietHanded(c: B.Config, s: B.State, step: B.Step, i: nat)
    requires B.Enabled(c, s, step) && !step.Act?
    requires forall id {:trigger s.calls[id]} | id in s.calls :: s.calls[id].idx in s.pieces
    ensures HandedOver(B.Next(c, s, step), i) <==> i in s.pieces && HandedOver(s, i)
  {
    var t := B.Next(c, s, step);
    if HandedOver(t, i) {
      var j :| j in t.calls && t.calls[j].idx == i && t.calls[j].pc.Marking?;
      assert j in s.calls && s.calls[j] == t.calls[j];
    }
    if HandedOver(s, i) {
      var j :| j in s.calls && s.calls[j].idx == i && s.calls[j].pc.Marking?;
      assert j in t.calls && t.calls[j] == s.calls[j];
    }
  }

  /** One step of the storage is that step of the run. */
  ghost predicate IsStep(c: B.Config, s: B.State, t: B.State, step: B.Step, torrents: map<string, Blob>, info: Info,
                         h: Hasher, ih: InfoHasher, run: nat)
    requires B.Enabled(c, s, step)
  {
    match StepOf(c, s, step, run)
    case Stutters => RunOf(c, t, torrents, info, run) == RunOf(c, s, torrents, info, run)
    case Takes(r) =>
      && R.Enabled(RunOf(c, s, torrents, info, run), r, h)
      && R.Next(RunOf(c, s, torrents, info, run), r, h, ih) == RunOf(c, t, torrents, info, run)
  }

  lemma UploadIsStep(c: B.Config, s: B.State, t: B.State, id: nat, torrents: map<string, Blob>, info: Info, h: Hasher,
                     ih: InfoHasher, run: nat)
    requires B.Enabled(c, s, B.Act(id)) && OfTorrent(s, info) && CallFine(s, s.calls[id], h)
    requires var i, pc := s.calls[id].idx, s.calls[id].pc;
             && pc.Uploading? && Complete(t) == Complete(s) + {i}
             && t.store == s.store[s.pieces[i].hash := B.Sent(s.heap, pc.slice)]
    ensures IsStep(c, s, t, B.Act(id), torrents, info, h, ih, run)
  {}

  lemma OtherIsStep(c: B.Config, s: B.State, t: B.State, id: nat, torrents: map<string, Blob>, info: Info, h: Hasher,
                    ih: InfoHasher, run: nat)
    requires B.Enabled(c, s, B.Act(id)) && OfTorrent(s, info) && Asked(c, s) && t.store == s.store
    requires var i, pc := s.calls[id].idx, s.calls[id].pc;
             && !pc.Uploading?
             && Complete(t) == if pc.CompSet? then Complete(s) + {i}
                               else if pc.UnmarkStart? then Complete(s) - {i} else Complete(s)
    ensures IsStep(c, s, t, B.Act(id), torrents, info, h, ih, run)
  {}

  lemma ActStoreIs(c: B.Config, s: B.State, id: nat)
    requires B.Enabled(c, s, B.Act(id))
    ensures var call := s.calls[id];
            B.ActNext(c, s, id).store == if call.pc.Uploading?
                                         then s.store[s.pieces[call.idx].hash := B.Sent(s.heap, call.pc.slice)]
                                         else s.store
  {}

  lemma StepIsStep(c: B.Config, x: Hist, step: B.Step, torrents: map<string, Blob>, info: Info, h: Hasher,
                   ih: InfoHasher, run: nat)
    requires HInv(c, x, h) && B.Enabled(c, x.s, step) && OfTorrent(x.s, info) && Asked(c, x.s)
    ensures IsStep(c, x.s, B.Next(c, x.s, step), step, torrents, info, h, ih, run)
  {
    if step.Act? {
      var id := step.id;
      assert CallFine(x.s, x.s.calls[id], h);
      if x.s.calls[id].pc.UnmarkStart? {
        forall j | j in x.s.calls && x.s.calls[j].idx == x.s.calls[id].idx
          ensures !x.s.calls[j].pc.Marking?
        {
          assert PairFine(x.s, j, id);
        }
      }
      CompleteNext(c, x.s, id);
      ActStoreIs(c, x.s, id);
      if x.s.calls[id].pc.Uploading? {
        UploadIsStep(c, x.s, B.ActNext(c, x.s, id), id, torrents, info, h, ih, run);
      } else {
        OtherIsStep(c, x.s, B.ActNext(c, x.s, id), id, torrents, info, h, ih, run);
      }
    } else {
      CompleteQuiet(c, x.s, step);
    }
  }

  // ---------- Whole runs

  /** The state the storage starts in: the commit marker was not found, the listing is read. */
  lemma Starts(c: B.Config, st: Store, info: Info, h: Hasher, ih: InfoHasher, run: nat)
    returns (runs: seq<R.State>, taken: seq<R.Step>)
    requires c.known <= st.pieces.Keys
    ensures R.EndsIn(runs, taken, h, ih, R.State(st, map[]), RunOf(c, B.Init(st.pieces), st.torrents, info, run))
    ensures forall j | 0 <= j < |taken| :: !taken[j].StartSweep?
  {
    var s0 := R.State(st, map[]);
    var s1 := R.Next(s0, R.StartFetch(run, info), h, ih);
    R.Longer([s0], [], h, ih, s0, s0, R.StartFetch(run, info));
    R.Longer([s0] + [s1], [] + [R.StartFetch(run, info)], h, ih, s0, s1, R.StatNo(run, c.known));
    runs := [s0] + [s1] + [R.Next(s1, R.StatNo(run, c.known), h, ih)];
    taken := [] + [R.StartFetch(run, info)] + [R.StatNo(run, c.known)];
    assert Complete(B.Init(st.pieces)) == {};
  }

  ghost predicate Tracked(c: B.Config, s: B.State, info: Info) {
    OfTorrent(s, info) && Asked(c, s)
  }

  lemma {:induction false} AlwaysTracked(c: B.Config, xs: seq<Hist>, steps: seq<B.Step>, store: Pieces, info: Info,
                                         i: nat)
    requires Follows(c, xs, steps, store) && Opens(steps, info) && i < |xs|
    ensures Tracked(c, xs[i].s, info)
  {
    if i > 0 {
      var s, step := xs[i - 1].s, steps[i - 1];
      AlwaysTracked(c, xs, steps, store, info, i - 1);
      assert B.Enabled(c, s, step) && xs[i] == HNext(c, xs[i - 1], step);
      OfTorrentKeeps(c, s, step, info);
      AskedKeeps(c, s, step);
    }
  }

  /** Every state the storage of a fetch can reach under the caller's contract is reached by a
      run of module StoreRuns from the same store. */
  lemma {:induction false} StorageIsRun(c: B.Config, xs: seq<Hist>, steps: seq<B.Step>, st: Store, info: Info,
                                        h: Hasher, ih: InfoHasher, i: nat, run: nat)
    returns (runs: seq<R.State>, taken: seq<R.Step>)
    requires CollisionFree(h) && Hashed(st.pieces, h) && c.known <= st.pieces.Keys && Opens(steps, info)
    requires HExecution(c, xs, steps, st.pieces, h) && i < |xs|
    ensures R.EndsIn(runs, taken, h, ih, R.State(st, map[]), RunOf(c, xs[i].s, st.torrents, info, run))
    ensures forall j | 0 <= j < |taken| :: !taken[j].StartSweep?
  {
    if i == 0 {
      runs, taken := Starts(c, st, info, h, ih, run);
    } else {
      var x, step := xs[i - 1], steps[i - 1];
      assert B.Enabled(c, x.s, step) && xs[i] == HNext(c, x, step);
      AlwaysFine(c, xs, steps, st.pieces, h, i - 1);
      AlwaysTracked(c, xs, steps, st.pieces, info, i - 1);
      runs, taken := StorageIsRun(c, xs, steps, st, info, h, ih, i - 1, run);
      StepIsStep(c, x, step, st.torrents, info, h, ih, run);
      runs, taken := OneMore(c, x.s, xs[i].s, step, st, info, h, ih, run, runs, taken);
    }
  }

  lemma OneMore(c: B.Config, s: B.State, t: B.State, step: B.Step, st: Store, info: Info, h: Hasher, ih: InfoHasher,
                run: nat, before: seq<R.State>, done: seq<R.Step>)
    returns (runs: seq<R.State>, taken: seq<R.Step>)
    requires B.Enabled(c, s, step) && IsStep(c, s, t, step, st.torrents, info, h, ih, run)
    requires R.EndsIn(before, done, h, ih, R.State(st, map[]), RunOf(c, s, st.torrents, info, run))
    requires forall j | 0 <= j < |done| :: !done[j].StartSweep?
    ensures R.EndsIn(runs, taken, h, ih, R.State(st, map[]), RunOf(c, t, st.torrents, info, run))
    ensures forall j | 0 <= j < |taken| :: !taken[j].StartSweep?
  {
    match StepOf(c, s, step, run)
    case Stutters => runs, taken := before, done;
    case Takes(r) =>
      R.Longer(before, done, h, ih, R.State(st, map[]), RunOf(c, s, st.torrents, info, run), r);
      runs, taken := before + [RunOf(c, t, st.torrents, info, run)], done + [r];
  }

  /** When every piece is reported complete, the run can commit, and ends with the torrent
      under its infohash and everything else as it was. */
  lemma CommitsTorrent(c: B.Config, xs: seq<Hist>, steps: seq<B.Step>, st: Store, info: Info, h: Hasher, ih: InfoHasher,
                       i: nat, run: nat)
    returns (runs: seq<R.State>, taken: seq<R.Step>)
    requires CollisionFree(h) && Hashed(st.pieces, h) && c.known <= st.pieces.Keys && Opens(steps, info)
    requires HExecution(c, xs, steps, st.pieces, h) && i < |xs|
    requires forall k | 0 <= k < |info.pieces| :: k in xs[i].s.pieces && xs[i].s.pieces[k].complete
    ensures R.EndsIn(runs, taken, h, ih, R.State(st, map[]),
                     R.State(Store(st.torrents[ih(info) := Torrent(info)], xs[i].s.store), map[]))
    ensures taken != [] && taken[|taken| - 1] == R.Commit(run)
    ensures forall j | 0 <= j < |taken| :: !taken[j].StartSweep?
  {
    var last := RunOf(c, xs[i].s, st.torrents, info, run);
    runs, taken := StorageIsRun(c, xs, steps, st, info, h, ih, i, run);
    assert forall k | 0 <= k < |info.pieces| :: k in Complete(xs[i].s);
    R.Longer(runs, taken, h, ih, R.State(st, map[]), last, R.Commit(run));
    runs, taken := runs + [R.Next(last, R.Commit(run), h, ih)], taken + [R.Commit(run)];
    assert last.runs - {run} == map[];
  }

  /** So the torrent goes into a store that is good before and after. */
  lemma CommitIsSafe(c: B.Config, xs: seq<Hist>, steps: seq<B.Step>, st: Store, info: Info, h: Hasher, ih: InfoHasher,
                     i: nat)
    requires CollisionFree(h) && Good(st, h) && c.known <= st.pieces.Keys && Opens(steps, info)
    requires HExecution(c, xs, steps, st.pieces, h) && i < |xs|
    requires forall k | 0 <= k < |info.pieces| :: k in xs[i].s.pieces && xs[i].s.pieces[k].complete
    ensures Good(Store(st.torrents, xs[i].s.store), h)
    ensures Good(Store(st.torrents[ih(info) := Torrent(info)], xs[i].s.store), h)
  {
    var before, done := StorageIsRun(c, xs, steps, st, info, h, ih, i, 0);
    R.AlwaysGood(before, done, h, ih, |done|);
    var runs, taken := CommitsTorrent(c, xs, steps, st, info, h, ih, i, 0);
    R.AlwaysGood(runs, taken, h, ih, |taken|);
  }
}
