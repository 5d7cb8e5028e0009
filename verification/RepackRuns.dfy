/**
 The process of module RepackMachine as one of the runs of module StoreRuns (repack.go
 lines 99-245): each of its steps does to the store what a step there does, or nothing.
 */
module RepackRuns {
  import opened Streams
  import opened TorrentMetas
  import opened Stores
  import M = RepackMachine
  import R = StoreRuns

  /** The chunks that are stored or were found in the store. */
  ghost function Settled(uploads: seq<M.Upload>): set<nat> {
    set j: nat | j < |uploads| && (uploads[j].Stored? || uploads[j].Skipped?)
  }

  /** What a machine state is as a run: a repack with its chunks, or nothing any more. */
  ghost function RunOf(s: M.State, id: nat): R.State {
    R.State(s.store, if s.main.Finished? || s.main.Aborted? then map[]
                     else map[id := R.Repacking(s.chunks, Settled(s.uploads))])
  }

  datatype Moves = Stutters | Takes(step: R.Step)

  /** The step of the run that a step of the machine is. */
  ghost function StepOf(c: M.Config, s: M.State, step: M.Step, h: Hasher, id: nat): Moves
    requires M.Enabled(c, s, step, h)
  {
    match step
    case Emit => Takes(R.Emit(id, s.stream[..Min(c.size, |s.stream|)]))
    case StatYes(j) => Takes(R.Skip(id, j))
    case Upload(j) => Takes(R.Put(id, j))
    case Publish =>
      var info := M.NewInfo(c, s.chunks, h);
      if c.ih(info) == c.key then Takes(R.Stop(id)) else Takes(R.Publish(id, info))
    case Lost => Takes(R.Stop(id))
    case Mismatch => Takes(R.Stop(id))
    case PublishFail => Takes(R.Stop(id))
    case UploadFail(_) => Takes(R.Stop(id))
    case _ => Stutters
  }

  lemma SettledNext(uploads: seq<M.Upload>, j: nat, u: M.Upload)
    requires j < |uploads| && !uploads[j].Stored? && !uploads[j].Skipped?
    ensures Settled(uploads[j := u]) == if u.Stored? || u.Skipped? then Settled(uploads) + {j} else Settled(uploads)
  {}

  lemma SettledMore(uploads: seq<M.Upload>)
    ensures Settled(uploads + [M.Waiting]) == Settled(uploads)
  {}

  /** One step of the machine is that step of the run. */
  ghost predicate IsStep(c: M.Config, s: M.State, t: M.State, step: M.Step, h: Hasher, id: nat)
    requires M.Enabled(c, s, step, h)
  {
    match StepOf(c, s, step, h, id)
    case Stutters => RunOf(t, id) == RunOf(s, id)
    case Takes(r) => R.Enabled(RunOf(s, id), r, h) && R.Next(RunOf(s, id), r, h, c.ih) == RunOf(t, id)
  }

  lemma StepIsStep(c: M.Config, s: M.State, step: M.Step, h: Hasher, id: nat)
    requires M.Enabled(c, s, step, h) && s.store.torrents == c.before.torrents
    ensures IsStep(c, s, M.Next(c, s, step, h), step, h, id)
  {
    if step.Acquire? || step.StatYes? || step.StatNo? || step.Upload? {
      UploaderIsStep(c, s, step, h, id);
    } else if step.Publish? {
      PublishIsStep(c, s, h, id);
    } else {
      MainIsStep(c, s, step, h, id);
    }
  }

  lemma UploaderIsStep(c: M.Config, s: M.State, step: M.Step, h: Hasher, id: nat)
    requires M.Enabled(c, s, step, h) && (step.Acquire? || step.StatYes? || step.StatNo? || step.Upload?)
    ensures IsStep(c, s, M.Next(c, s, step, h), step, h, id)
  {
    SettledNext(s.uploads, step.j, M.Next(c, s, step, h).uploads[step.j]);
  }

  lemma MainIsStep(c: M.Config, s: M.State, step: M.Step, h: Hasher, id: nat)
    requires M.Enabled(c, s, step, h)
    requires !step.Acquire? && !step.StatYes? && !step.StatNo? && !step.Upload? && !step.Publish?
    ensures IsStep(c, s, M.Next(c, s, step, h), step, h, id)
  {
    SettledMore(s.uploads);
  }

  lemma PublishIsStep(c: M.Config, s: M.State, h: Hasher, id: nat)
    requires M.Enabled(c, s, M.Publish, h) && s.store.torrents == c.before.torrents
    ensures IsStep(c, s, M.Next(c, s, M.Publish, h), M.Publish, h, id)
  {}

  // ---------- Whole runs

  /** The torrents change with the last step only. */
  lemma {:induction false} TorrentsWait(c: M.Config, states: seq<M.State>, steps: seq<M.Step>, h: Hasher, i: nat)
    requires M.Execution(c, states, steps, h) && i < |states| && !states[i].main.Finished?
    ensures states[i].store.torrents == c.before.torrents
  {
    if i > 0 {
      assert M.Enabled(c, states[i - 1], steps[i - 1], h) && states[i] == M.Next(c, states[i - 1], steps[i - 1], h);
      TorrentsWait(c, states, steps, h, i - 1);
    }
  }

  /** Every state a repack process can reach is reached by a run of module StoreRuns from the
      same store: what holds of those runs holds of the process. */
  lemma {:induction false} ProcessIsRun(c: M.Config, states: seq<M.State>, steps: seq<M.Step>, h: Hasher, i: nat,
                                        id: nat)
    returns (runs: seq<R.State>, taken: seq<R.Step>)
    requires M.Execution(c, states, steps, h) && i < |states|
    requires c.key in c.before.torrents && c.before.torrents[c.key].Torrent?
    ensures R.EndsIn(runs, taken, h, c.ih, R.State(c.before, map[]), RunOf(states[i], id))
    ensures forall j | 0 <= j < |taken| :: !taken[j].StartSweep?
  {
    if i == 0 {
      var first := R.State(c.before, map[]);
      assert Settled([]) == {};
      runs, taken := [first] + [RunOf(states[0], id)], [] + [R.StartRepack(id, c.key)];
      R.Longer([first], [], h, c.ih, first, first, R.StartRepack(id, c.key));
    } else {
      var s, step := states[i - 1], steps[i - 1];
      assert M.Enabled(c, s, step, h) && states[i] == M.Next(c, s, step, h);
      TorrentsWait(c, states, steps, h, i - 1);
      runs, taken := ProcessIsRun(c, states, steps, h, i - 1, id);
      StepIsStep(c, s, step, h, id);
      match StepOf(c, s, step, h, id)
      case Stutters =>
      case Takes(r) =>
        R.Longer(runs, taken, h, c.ih, R.State(c.before, map[]), RunOf(s, id), r);
        runs, taken := runs + [RunOf(states[i], id)], taken + [r];
    }
  }

  /** So a repack process leaves a good store good, wherever it dies. */
  lemma ProcessKeepsGood(c: M.Config, states: seq<M.State>, steps: seq<M.Step>, h: Hasher, i: nat)
    requires M.Execution(c, states, steps, h) && i < |states| && Good(c.before, h)
    requires c.key in c.before.torrents && c.before.torrents[c.key].Torrent?
    ensures Good(states[i].store, h)
  {
    var runs, taken := ProcessIsRun(c, states, steps, h, i, 0);
    R.AlwaysGood(runs, taken, h, c.ih, |taken|);
  }
}
