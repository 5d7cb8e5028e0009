/**
 Building blocks for runs with given calls (fetch.go lines 119-224): what one call does
 that runs while no other call moves. Used where a run shows that a property fails.
 */
module ShortRuns {
  import opened Streams
  import opened Stores
  import opened Recency
  import opened Buffers
  import opened Handoff

  datatype Trace = Trace(xs: seq<Hist>, steps: seq<Step>)

  /** A run from an empty store; if `kept`, one within the caller's contract. */
  ghost predicate Runs(c: Config, t: Trace, h: Hasher, kept: bool) {
    Follows(c, t.xs, t.steps, map[]) && (kept ==> Kept(t.xs, t.steps, h))
  }

  ghost function Last(t: Trace): Hist
    requires |t.xs| == |t.steps| + 1
  {
    t.xs[|t.steps|]
  }

  /** Whether the piece never had that image. */
  ghost predicate Never(xs: seq<Hist>, idx: nat, b: Bytes) {
    forall m {:trigger xs[m]} | 0 <= m < |xs| && idx in xs[m].image :: xs[m].image[idx] != b
  }

  lemma Then(c: Config, t: Trace, h: Hasher, kept: bool, step: Step) returns (t': Trace)
    requires Runs(c, t, h, kept) && Enabled(c, Last(t).s, step) && (kept ==> Contract(Last(t), step, h))
    ensures Runs(c, t', h, kept) && Last(t') == HNext(c, Last(t), step)
    ensures t' == Trace(t.xs + [HNext(c, Last(t), step)], t.steps + [step])
  {
    var y := HNext(c, Last(t), step);
    t' := Trace(t.xs + [y], t.steps + [step]);
    forall i {:trigger t'.steps[i]} | 0 <= i < |t'.steps|
      ensures Enabled(c, t'.xs[i].s, t'.steps[i]) && t'.xs[i + 1] == HNext(c, t'.xs[i], t'.steps[i])
      ensures kept ==> Contract(t'.xs[i], t'.steps[i], h)
    {
      assert i < |t.steps| ==> t'.steps[i] == t.steps[i];
    }
  }

  lemma ThenNever(c: Config, t: Trace, h: Hasher, kept: bool, step: Step, idx: nat, b: Bytes) returns (t': Trace)
    requires Runs(c, t, h, kept) && Enabled(c, Last(t).s, step) && (kept ==> Contract(Last(t), step, h))
    requires Never(t.xs, idx, b) && (idx in HNext(c, Last(t), step).image ==> HNext(c, Last(t), step).image[idx] != b)
    ensures Runs(c, t', h, kept) && Last(t') == HNext(c, Last(t), step) && Never(t'.xs, idx, b)
    ensures t' == Trace(t.xs + [HNext(c, Last(t), step)], t.steps + [step])
  {
    t' := Then(c, t, h, kept, step);
  }

  lemma Start(c: Config, h: Hasher, kept: bool) returns (t: Trace)
    ensures Runs(c, t, h, kept) && t == Trace([Hist(Init(map[]), map[])], [])
  {
    t := Trace([Hist(Init(map[]), map[])], []);
  }

  /** A piece without a buffer, and no MarkComplete pending on it. */
  ghost predicate Free(c: Config, s: State, id: nat, idx: nat) {
    && id !in s.calls && idx in s.pieces && s.pieces[idx].buf.None? && !s.pieces[idx].complete
    && s.slots < c.inflight && NoMark(s, idx)
  }

  /** After a WriteAt that fills the whole piece. */
  ghost predicate Filled(s: State, t: State, id: nat, idx: nat, data: Bytes)
    requires idx in s.pieces
  {
    && t.pieces == s.pieces[idx := s.pieces[idx].(buf := Some(|s.heap|))]
    && t.calls == s.calls[id := Call(idx, Returned(Wrote(|data|)))]
    && t.heap == s.heap + [data] && t.slots == s.slots + 1 && t.store == s.store && t.sem == s.sem
  }

  lemma SpliceAll(b: Bytes, data: Bytes)
    requires |b| == |data|
    ensures Written(b, 0, data) == data
  {}

  /** The first WriteAt of a piece, from its call to its return. */
  lemma FillSteps(c: Config, x: Hist, id: nat, idx: nat, data: Bytes) returns (x1: Hist, x2: Hist, x3: Hist, x4: Hist)
    requires Free(c, x.s, id, idx) && idx !in x.image && |data| == x.s.pieces[idx].length
    ensures x1 == HNext(c, x, Begin(id, idx, WriteStart(0, data)))
    ensures Enabled(c, x1.s, Act(id)) && x2 == HNext(c, x1, Act(id))
    ensures Enabled(c, x2.s, Act(id)) && x3 == HNext(c, x2, Act(id))
    ensures Enabled(c, x3.s, Act(id)) && x4 == HNext(c, x3, Act(id))
    ensures x1.image == x2.image == x3.image == x.image
    ensures Filled(x.s, x4.s, id, idx, data) && x4.image == x.image[idx := data]
  {
    x1 := HNext(c, x, Begin(id, idx, WriteStart(0, data)));
    x2 := HNext(c, x1, Act(id));
    x3 := HNext(c, x2, Act(id));
    x4 := HNext(c, x3, Act(id));
    SpliceAll(Zeros(|data|), data);
  }

  lemma Fill(c: Config, t: Trace, h: Hasher, kept: bool, id: nat, idx: nat, data: Bytes, w: nat, b: Bytes)
    returns (t': Trace)
    requires Runs(c, t, h, kept) && Free(c, Last(t).s, id, idx)
    requires idx !in Last(t).image && |data| == Last(t).s.pieces[idx].length
    requires Never(t.xs, w, b) && (w == idx ==> data != b)
    ensures Runs(c, t', h, kept) && Never(t'.xs, w, b) && t.xs <= t'.xs && t.steps <= t'.steps
    ensures Filled(Last(t).s, Last(t').s, id, idx, data) && Last(t').image == Last(t).image[idx := data]
  {
    var x1, x2, x3, x4 := FillSteps(c, Last(t), id, idx, data);
    assert w in x1.image ==> x1.image[w] == t.xs[|t.steps|].image[w];
    assert w in x4.image ==> x4.image[w] == if w == idx then data else t.xs[|t.steps|].image[w];
    var t1 := ThenNever(c, t, h, kept, Begin(id, idx, WriteStart(0, data)), w, b);
    t' := ThriceNever(c, t1, h, kept, Act(id), x2, x3, w, b);
  }

  lemma ThriceNever(c: Config, t: Trace, h: Hasher, kept: bool, step: Step, x: Hist, y: Hist, idx: nat, b: Bytes)
    returns (t': Trace)
    requires Runs(c, t, h, kept) && step.Act? && Never(t.xs, idx, b)
    requires Enabled(c, Last(t).s, step) && x == HNext(c, Last(t), step) && (idx in x.image ==> x.image[idx] != b)
    requires Enabled(c, x.s, step) && y == HNext(c, x, step) && (idx in y.image ==> y.image[idx] != b)
    requires Enabled(c, y.s, step) && (idx in HNext(c, y, step).image ==> HNext(c, y, step).image[idx] != b)
    ensures Runs(c, t', h, kept) && Last(t') == HNext(c, y, step) && Never(t'.xs, idx, b)
    ensures t.xs <= t'.xs && t.steps <= t'.steps
  {
    var t1 := ThenNever(c, t, h, kept, step, idx, b);
    var t2 := ThenNever(c, t1, h, kept, step, idx, b);
    t' := ThenNever(c, t2, h, kept, step, idx, b);
  }

  /** A call's first step, alone: it begins and acts once. */
  lemma BeginAct(c: Config, t: Trace, h: Hasher, kept: bool, id: nat, idx: nat, pc: Pc, b: Bytes) returns (t': Trace)
    requires Runs(c, t, h, kept) && Enabled(c, Last(t).s, Begin(id, idx, pc))
    requires kept ==> Contract(Last(t), Begin(id, idx, pc), h)
    requires Never(t.xs, idx, b)
    requires var x := HNext(c, Last(t), Begin(id, idx, pc));
             Enabled(c, x.s, Act(id)) && (idx in HNext(c, x, Act(id)).image ==> HNext(c, x, Act(id)).image[idx] != b)
    ensures Runs(c, t', h, kept) && Never(t'.xs, idx, b)
    ensures Last(t') == HNext(c, HNext(c, Last(t), Begin(id, idx, pc)), Act(id))
    ensures t'.xs == t.xs + [HNext(c, Last(t), Begin(id, idx, pc)), Last(t')]
    ensures t'.steps == t.steps + [Begin(id, idx, pc), Act(id)]
  {
    var x := HNext(c, Last(t), Begin(id, idx, pc));
    assert idx in x.image ==> t.xs[|t.steps|].image[idx] != b;
    var t1 := ThenNever(c, t, h, kept, Begin(id, idx, pc), idx, b);
    t' := ThenNever(c, t1, h, kept, Act(id), idx, b);
    assert t'.xs == t.xs + [x, Last(t')];
    assert t'.steps == t.steps + [Begin(id, idx, pc), Act(id)];
  }
}
