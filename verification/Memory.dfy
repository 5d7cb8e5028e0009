/**
 All the bytes fetch keeps in RAM (fetch.go lines 28-37, 119-224): the buffers, and the
 slices an upload or a ReadAt still holds after its piece has given the buffer up.
 */
module Memory {
  import opened Streams
  import opened Stores
  import opened Recency
  import opened Buffers
  import opened Handoff
  import opened ShortRuns

  /** A call that holds a slice which is not its piece's buffer any more. */
  ghost predicate Stale(s: State, id: nat) {
    && id in s.calls && Slice(s.calls[id].pc).Some?
    && !(s.calls[id].idx in s.pieces && s.pieces[s.calls[id].idx].buf == Slice(s.calls[id].pc))
  }

  ghost function StaleCalls(s: State): set<nat> {
    set id | id in s.calls && Stale(s, id)
  }

  /** The slices some of the calls hold. */
  ghost function SlicesOf(s: State, ids: set<nat>): set<nat> {
    set id | id in ids && id in s.calls && Slice(s.calls[id].pc).Some? :: Slice(s.calls[id].pc).value
  }

  /** Every allocation that is reachable: a buffer, or in the hands of a call. */
  ghost function Pinned(s: State): set<nat> {
    BufferRefs(s) + SlicesOf(s, s.calls.Keys)
  }

  ghost function PinnedBytes(s: State): nat {
    Total(s.heap, Pinned(s))
  }

  // ---------- Counting each allocation once

  lemma {:induction false} TotalWithout(heap: Heap, refs: set<nat>, r: nat)
    requires r in refs
    ensures Total(heap, refs) == |At(heap, r)| + Total(heap, refs - {r})
    decreases |refs|
  {
    var q :| q in refs && Total(heap, refs) == |At(heap, q)| + Total(heap, refs - {q});
    if q != r {
      SizeWithout(refs, q);
      TotalWithout(heap, refs - {q}, r);
      assert refs - {q} - {r} == refs - {r} - {q};
      TotalWithout(heap, refs - {r}, q);
    }
  }

  lemma {:induction false} TotalUnion(heap: Heap, a: set<nat>, b: set<nat>)
    requires a !! b
    ensures Total(heap, a + b) == Total(heap, a) + Total(heap, b)
    decreases |a|
  {
    if a == {} {
      assert a + b == b;
    } else {
      var r :| r in a;
      SizeWithout(a, r);
      TotalUnion(heap, a - {r}, b);
      TotalWithout(heap, a, r);
      TotalWithout(heap, a + b, r);
      assert a + b - {r} == (a - {r}) + b;
    }
  }

  /** A slice in a call's hands is its piece's buffer or nobody's: the stale ones are
      exactly what is held beside the buffers. */
  lemma StaleApart(s: State)
    requires HeapOk(s)
    ensures BufferRefs(s) !! SlicesOf(s, StaleCalls(s))
    ensures Pinned(s) == BufferRefs(s) + SlicesOf(s, StaleCalls(s))
  {
    forall r | r in SlicesOf(s, StaleCalls(s))
      ensures r !in BufferRefs(s)
    {
      var id :| id in StaleCalls(s) && Slice(s.calls[id].pc) == Some(r);
      StaleIsNoBuffer(s, id, r);
    }
    forall r | r in SlicesOf(s, s.calls.Keys)
      ensures r in BufferRefs(s) + SlicesOf(s, StaleCalls(s))
    {
      var id :| id in s.calls && Slice(s.calls[id].pc) == Some(r);
      if !Stale(s, id) {
        assert s.calls[id].idx in Buffered(s.pieces);
      }
    }
  }

  lemma StaleIsNoBuffer(s: State, id: nat, r: nat)
    requires HeapOk(s) && Stale(s, id) && Slice(s.calls[id].pc) == Some(r)
    ensures r !in BufferRefs(s)
  {
    var i := s.calls[id].idx;
    assert BufOk(s, i, Slice(s.calls[id].pc));
    forall j | j in Buffered(s.pieces)
      ensures s.pieces[j].buf.value != r
    {
      assert s.pieces[j].buf == Some(r) ==> j == i;
    }
  }

  /** All bytes held are the buffered bytes and the bytes of stale slices, each slice once. */
  lemma PinnedExactly(c: Config, states: seq<State>, steps: seq<Step>, store: Pieces, i: nat)
    requires Buffers.Execution(c, states, steps, store) && i < |states|
    ensures var s := states[i];
            PinnedBytes(s) == Total(s.heap, BufferRefs(s)) + Total(s.heap, SlicesOf(s, StaleCalls(s)))
  {
    AlwaysHeap(c, states, steps, store, i);
    StaleApart(states[i]);
    TotalUnion(states[i].heap, BufferRefs(states[i]), SlicesOf(states[i], StaleCalls(states[i])));
  }

  lemma {:induction false} SlicesCount(s: State, ids: set<nat>)
    ensures |SlicesOf(s, ids)| <= |ids|
    decreases |ids|
  {
    if ids == {} {
      assert SlicesOf(s, ids) == {};
    } else {
      var id :| id in ids;
      SizeWithout(ids, id);
      SlicesCount(s, ids - {id});
      if id in s.calls && Slice(s.calls[id].pc).Some? {
        var r := Slice(s.calls[id].pc).value;
        SizeWithout(SlicesOf(s, ids), r);
        assert SlicesOf(s, ids) - {r} <= SlicesOf(s, ids - {id});
        SubsetSize(SlicesOf(s, ids) - {r}, SlicesOf(s, ids - {id}));
      } else {
        assert SlicesOf(s, ids) == SlicesOf(s, ids - {id});
      }
    }
  }

  lemma {:induction false} SubsetSize(a: set<nat>, b: set<nat>)
    requires a <= b
    ensures |a| <= |b|
    decreases |a|
  {
    if a != {} {
      var x :| x in a;
      SizeWithout(a, x);
      SizeWithout(b, x);
      SubsetSize(a - {x}, b - {x});
    }
  }

  /** For any caller: one piece for each slot, and one for each call that holds a slice its
      piece has given up. */
  lemma PinnedBound(c: Config, states: seq<State>, steps: seq<Step>, store: Pieces, i: nat, longest: nat)
    requires Buffers.Execution(c, states, steps, store) && i < |states|
    requires forall j | j in states[i].pieces :: states[i].pieces[j].length <= longest
    ensures PinnedBytes(states[i]) <= c.inflight * longest + |StaleCalls(states[i])| * longest
  {
    var s := states[i];
    MemoryBound(c, states, steps, store, i, longest);
    PinnedExactly(c, states, steps, store, i);
    AlwaysHeap(c, states, steps, store, i);
    var held := SlicesOf(s, StaleCalls(s));
    forall r | r in held
      ensures |At(s.heap, r)| <= longest
    {
      var id :| id in s.calls && Slice(s.calls[id].pc) == Some(r);
      assert BufOk(s, s.calls[id].idx, Slice(s.calls[id].pc));
    }
    TotalBound(s.heap, held, longest);
    SlicesCount(s, StaleCalls(s));
    MulMono(|held|, |StaleCalls(s)|, longest);
  }

  // ---------- When nothing is stale

  /** No buffer is given up while another call on its piece holds the slice. */
  ghost predicate Undisturbed(states: seq<State>, steps: seq<Step>) {
    forall j, id {:trigger GivesUp(states[j], steps[j], id)} | 0 <= j < |steps| && j < |states| ::
      !GivesUp(states[j], steps[j], id)
  }

  /** The step clears a buffer that call `id` holds. */
  ghost predicate GivesUp(s: State, step: Step, id: nat) {
    && step.Act? && step.id in s.calls && (s.calls[step.id].pc.Marking? || s.calls[step.id].pc.UnmarkStart?)
    && id in s.calls && s.calls[id].idx == s.calls[step.id].idx && Slice(s.calls[id].pc).Some?
  }

  lemma FreshKeeps(c: Config, s: State, step: Step, id: nat)
    requires HeapOk(s) && Enabled(c, s, step) && !GivesUp(s, step, id)
    requires !Stale(s, id)
    ensures !Stale(Next(c, s, step), id)
  {
    if id in s.calls {
      assert BufOk(s, s.calls[id].idx, Slice(s.calls[id].pc));
    }
    if step.Act? {
      ActShape(c, s, step.id);
      FreshAct(c, s, step.id, id);
    }
  }

  lemma FreshAct(c: Config, s: State, id: nat, j: nat)
    requires Enabled(c, s, Act(id)) && !GivesUp(s, Act(id), j) && !Stale(s, j)
    requires j in s.calls ==> BufOk(s, s.calls[j].idx, Slice(s.calls[j].pc))
    ensures !Stale(ActNext(c, s, id), j)
  {
    ActShape(c, s, id);
    if j == id {
      TakesBuffer(c, s, id);
    } else if j in s.calls && Slice(s.calls[j].pc).Some? && s.calls[j].idx == s.calls[id].idx {
      BufferStays(c, s, id);
    }
  }

  /** Only MarkComplete and MarkNotComplete give a buffer up. */
  lemma BufferStays(c: Config, s: State, id: nat)
    requires Enabled(c, s, Act(id)) && !s.calls[id].pc.Marking? && !s.calls[id].pc.UnmarkStart?
    requires s.pieces[s.calls[id].idx].buf.Some?
    ensures var t, idx := ActNext(c, s, id), s.calls[id].idx;
            idx in t.pieces && t.pieces[idx].buf == s.pieces[idx].buf
  {}

  lemma TakesBuffer(c: Config, s: State, id: nat)
    requires Enabled(c, s, Act(id)) && !Stale(s, id)
    ensures !Stale(ActNext(c, s, id), id)
  {}

  lemma {:induction false} NoneStale(c: Config, states: seq<State>, steps: seq<Step>, store: Pieces, i: nat, id: nat)
    requires Buffers.Execution(c, states, steps, store) && i < |states| && Undisturbed(states, steps)
    ensures !Stale(states[i], id)
  {
    if i > 0 {
      NoneStale(c, states, steps, store, i - 1, id);
      AlwaysHeap(c, states, steps, store, i - 1);
      assert Enabled(c, states[i - 1], steps[i - 1]) && !GivesUp(states[i - 1], steps[i - 1], id);
      FreshKeeps(c, states[i - 1], steps[i - 1], id);
    }
  }

  /** In a run in which no Mark* call clears a buffer while an upload or a ReadAt of the
      piece holds it, all bytes held stay within InflightPieces times the longest piece. */
  lemma UndisturbedBound(c: Config, states: seq<State>, steps: seq<Step>, store: Pieces, i: nat, longest: nat)
    requires Buffers.Execution(c, states, steps, store) && i < |states| && Undisturbed(states, steps)
    requires forall j | j in states[i].pieces :: states[i].pieces[j].length <= longest
    ensures PinnedBytes(states[i]) <= c.inflight * longest
  {
    forall id | id in StaleCalls(states[i])
      ensures false
    {
      NoneStale(c, states, steps, store, i, id);
    }
    PinnedBound(c, states, steps, store, i, longest);
  }

  // ---------- Under the caller's contract

  /** The run without its history. */
  ghost function Plain(xs: seq<Hist>): seq<State> {
    seq(|xs|, i requires 0 <= i < |xs| => xs[i].s)
  }

  lemma PlainRun(c: Config, xs: seq<Hist>, steps: seq<Step>, store: Pieces)
    requires Follows(c, xs, steps, store)
    ensures Buffers.Execution(c, Plain(xs), steps, store)
  {
    var states := Plain(xs);
    forall i {:trigger steps[i]} | 0 <= i < |steps|
      ensures Enabled(c, states[i], steps[i]) && states[i + 1] == Next(c, states[i], steps[i])
    {
      assert Enabled(c, xs[i].s, steps[i]) && xs[i + 1] == HNext(c, xs[i], steps[i]);
    }
  }

  /** The ReadAts that still copy from a slice their piece has given up. */
  ghost function StaleReaders(s: State): set<nat> {
    set id | id in s.calls && Stale(s, id) && s.calls[id].pc.ReadCopy?
  }

  /** Uploads hold nothing beside the buffers; so only ReadAts that a Mark* call has
      overtaken add to the bound. */
  lemma ContractBound(c: Config, xs: seq<Hist>, steps: seq<Step>, store: Pieces, h: Hasher, i: nat, longest: nat)
    requires CollisionFree(h) && Hashed(store, h) && c.known <= store.Keys
    requires HExecution(c, xs, steps, store, h) && i < |xs|
    requires forall j | j in xs[i].s.pieces :: xs[i].s.pieces[j].length <= longest
    ensures StaleCalls(xs[i].s) == StaleReaders(xs[i].s)
    ensures PinnedBytes(xs[i].s) <= c.inflight * longest + |StaleReaders(xs[i].s)| * longest
  {
    AlwaysFine(c, xs, steps, store, h, i);
    var s := xs[i].s;
    forall id | Stale(s, id)
      ensures s.calls[id].pc.ReadCopy?
    {
      assert CallFine(s, s.calls[id], h);
    }
    PlainRun(c, xs, steps, store);
    PinnedBound(c, Plain(xs), steps, store, i, longest);
  }

  // ---------- Runs that exceed the bound

  /** Two pieces of one byte, one of them written. */
  lemma OneWritten(c: Config, h: Hasher, kept: bool) returns (t: Trace)
    requires c.inflight == 1
    ensures Runs(c, t, h, kept) && Never(t.xs, 0, [])
    ensures Last(t) == Hist(State(map[0 := Piece("a", 1, Some(0), false), 1 := Piece("b", 1, None, false)],
                                  map[1 := Call(0, Returned(Wrote(1)))], [[0]], 1, 0, map[]), map[0 := [0]])
  {
    var t0 := Start(c, h, kept);
    var t1 := ThenNever(c, t0, h, kept, Open(0, "a", 1), 0, []);
    var t2 := ThenNever(c, t1, h, kept, Open(1, "b", 1), 0, []);
    t := Fill(c, t2, h, kept, 1, 0, [0], 0, []);
  }

  function Holding(reader: bool): Pc {
    if reader then ReadCopy(0, 0, [None]) else MarkWait(Some(0))
  }

  /** A ReadAt of that piece looks, or a MarkComplete does. */
  lemma OneHeld(c: Config, h: Hasher, reader: bool) returns (t: Trace)
    requires c.inflight == 1
    ensures Runs(c, t, h, reader) && Never(t.xs, 0, [])
    ensures Last(t) == Hist(State(map[0 := Piece("a", 1, Some(0), false), 1 := Piece("b", 1, None, false)],
                                  map[1 := Call(0, Returned(Wrote(1))), 2 := Call(0, Holding(reader))],
                                  [[0]], 1, 0, map[]), map[0 := [0]])
  {
    var t1 := OneWritten(c, h, reader);
    t := BeginAct(c, t1, h, reader, 2, 0, if reader then ReadStart(0, 1) else MarkStart, []);
    assert Blank(1) == [None];
  }

  /** A MarkNotComplete gives the buffer and its slot up. */
  lemma OneGivenUp(c: Config, h: Hasher, reader: bool) returns (t: Trace)
    requires c.inflight == 1
    ensures Runs(c, t, h, reader) && Never(t.xs, 0, []) && Last(t).image == map[] && Last(t).s.slots == 0
    ensures Last(t).s.pieces == map[0 := Piece("a", 1, None, false), 1 := Piece("b", 1, None, false)]
    ensures Last(t).s.heap == [[0]]
    ensures Last(t).s.calls == map[1 := Call(0, Returned(Wrote(1))), 2 := Call(0, Holding(reader)),
                                   3 := Call(0, Returned(Unmarked))]
  {
    var t1 := OneHeld(c, h, reader);
    var t2 := BeginAct(c, t1, h, reader, 3, 0, UnmarkStart, []);
    t := ThenNever(c, t2, h, reader, Act(3), 0, []);
  }

  /** Then a WriteAt to the other piece takes the slot. */
  lemma Overrun(c: Config, h: Hasher, reader: bool) returns (t: Trace)
    requires c.inflight == 1
    ensures Runs(c, t, h, reader) && Exceeds(c, t)
    ensures !reader ==> StaleReaders(Last(t).s) == {}
  {
    var t1 := OneGivenUp(c, h, reader);
    t := Fill(c, t1, h, reader, 4, 1, [0], 0, []);
    TwoPinned(Last(t).s, reader);
  }

  /** The run ends with more bytes held than slots, although its pieces have one byte. */
  ghost predicate Exceeds(c: Config, t: Trace)
    requires |t.xs| == |t.steps| + 1
  {
    (forall j | j in Last(t).s.pieces :: Last(t).s.pieces[j].length == 1) && PinnedBytes(Last(t).s) > c.inflight * 1
  }

  lemma TwoPinned(s: State, reader: bool)
    requires 1 in s.pieces && s.pieces[1].buf == Some(1) && s.heap == [[0], [0]]
    requires 2 in s.calls && s.calls[2].pc == Holding(reader)
    ensures PinnedBytes(s) >= 2
  {
    assert 1 in Buffered(s.pieces) && 1 in BufferRefs(s);
    assert Slice(s.calls[2].pc) == Some(0) && 0 in SlicesOf(s, s.calls.Keys);
    TotalWithout(s.heap, Pinned(s), 1);
    TotalWithout(s.heap, Pinned(s) - {1}, 0);
  }

  /** A run within the contract, with one slot, that holds two pieces: the first by a ReadAt
      that a MarkNotComplete overtook between its look and its copy. */
  lemma ReaderExceedsBound(known: set<string>, h: Hasher) returns (t: Trace)
    ensures HExecution(Config(1, 1, known), t.xs, t.steps, map[], h) && Exceeds(Config(1, 1, known), t)
  {
    t := Overrun(Config(1, 1, known), h, true);
  }

  /** Without the contract an upload can be overtaken as well: a MarkNotComplete that
      overlaps a MarkComplete frees the slot while the upload keeps the bytes. */
  lemma UploadExceedsBound(known: set<string>) returns (t: Trace)
    ensures Follows(Config(1, 1, known), t.xs, t.steps, map[]) && Exceeds(Config(1, 1, known), t)
    ensures StaleReaders(Last(t).s) == {}
  {
    t := Overrun(Config(1, 1, known), _ => "", false);
  }
}
