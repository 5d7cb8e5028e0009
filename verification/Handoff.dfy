/**
 From RAM to the store (fetch.go lines 155-247), for a caller that keeps anacrolix's side
 of the contract: what ReadAt returns before, during and after MarkComplete.

 The contract: WriteAt is called only on incomplete pieces; MarkComplete only when the
 buffer holds the full verified piece, and no other WriteAt or Mark* call on its piece is
 pending while it is. MarkNotComplete may race writers and its like, and reads,
 completion checks and fresh facades may overlap anything.
 */
module Handoff {
  import opened Streams
  import opened Stores
  import opened Recency
  import opened Buffers

  /** The system with a history: `image`, the bytes written to a piece since it was last
      cleared. */
  datatype Hist = Hist(s: State, image: map<nat, Bytes>)

  /** A MarkComplete that has not returned. */
  ghost predicate Exclusive(pc: Pc) {
    pc.MarkStart? || pc.MarkWait? || pc.Uploading? || pc.Marking? || pc.MarkRelease? || pc.MarkLeave?
  }

  ghost predicate Mutating(pc: Pc) {
    Exclusive(pc) || Writing(pc) || pc.UnmarkStart? || pc.UnmarkRelease?
  }

  /** No MarkComplete is pending on the piece; no mutating call at all. */
  ghost predicate NoMark(s: State, idx: nat) {
    forall j {:trigger s.calls[j]} | j in s.calls && s.calls[j].idx == idx :: !Exclusive(s.calls[j].pc)
  }

  ghost predicate NoMutator(s: State, idx: nat) {
    forall j {:trigger s.calls[j]} | j in s.calls && s.calls[j].idx == idx :: !Mutating(s.calls[j].pc)
  }

  /** The buffer holds the piece. */
  ghost predicate Verified(s: State, p: Piece, h: Hasher) {
    p.buf.Some? && h(At(s.heap, p.buf.value)) == p.hash
  }

  ghost predicate Contract(x: Hist, step: Step, h: Hasher) {
    step.Begin? && step.idx in x.s.pieces ==>
      var p := x.s.pieces[step.idx];
      && (step.pc.WriteStart? ==> !p.complete && NoMark(x.s, step.idx))
      && (step.pc.MarkStart? ==> Verified(x.s, p, h) && NoMutator(x.s, step.idx))
      && (step.pc.UnmarkStart? ==> NoMark(x.s, step.idx))
  }

  /** The sections of WriteAt that end in a write. */
  ghost predicate Writes(p: Piece, pc: Pc) {
    (pc.WriteStart? && p.buf.Some?) || pc.WriteHeld?
  }

  /** A WriteAt writes over the image so far, or over zeros. */
  ghost function NextImage(x: Hist, id: nat): map<nat, Bytes>
    requires id in x.s.calls && x.s.calls[id].idx in x.s.pieces
  {
    var idx, pc := x.s.calls[id].idx, x.s.calls[id].pc;
    var p := x.s.pieces[idx];
    var base := if idx in x.image then x.image[idx] else Zeros(p.length);
    if Writes(p, pc) then x.image[idx := Written(base, pc.off, pc.data)]
    else if pc.UnmarkStart? then x.image - {idx}
    else x.image
  }

  ghost function HNext(c: Config, x: Hist, step: Step): Hist
    requires Enabled(c, x.s, step)
  {
    Hist(Next(c, x.s, step), if step.Act? then NextImage(x, step.id) else x.image)
  }

  // ---------- The invariant

  ghost predicate CallFine(s: State, call: Call, h: Hasher)
    requires call.idx in s.pieces
  {
    var p := s.pieces[call.idx];
    match call.pc
    case MarkStart => Verified(s, p, h)
    case MarkWait(slice) => slice == p.buf && Verified(s, p, h)
    case Uploading(slice) => slice == p.buf && Verified(s, p, h)
    case Marking => p.buf.Some? && p.hash in s.store && s.store[p.hash] == At(s.heap, p.buf.value)
    case CompSet => p.hash in s.store
    case ReadStore(_, _) => p.hash in s.store
    case _ => true
  }

  /** RAM or store: wherever the bytes are, they are the image. */
  ghost predicate PieceFine(x: Hist, i: nat, p: Piece) {
    && (p.complete ==> p.hash in x.s.store)
    && (p.buf.Some? ==> i in x.image && x.image[i] == At(x.s.heap, p.buf.value))
    && (i in x.image && p.buf.None? ==> p.complete && x.s.store[p.hash] == x.image[i])
  }

  /** A MarkComplete is alone on its piece. */
  ghost predicate PairFine(s: State, a: nat, b: nat) {
    a in s.calls && b in s.calls && a != b && s.calls[a].idx == s.calls[b].idx && Exclusive(s.calls[a].pc) ==>
      !Mutating(s.calls[b].pc)
  }

  /** A piece already handed over has no writer. */
  ghost predicate WriterFine(x: Hist, call: Call)
    requires call.idx in x.s.pieces
  {
    Writing(call.pc) && call.idx in x.image ==> x.s.pieces[call.idx].buf.Some?
  }

  ghost predicate HInv(c: Config, x: Hist, h: Hasher) {
    && Hashed(x.s.store, h) && c.known <= x.s.store.Keys && HeapOk(x.s)
    && (forall id {:trigger x.s.calls[id]} | id in x.s.calls :: x.s.calls[id].idx in x.s.pieces)
    && (forall id {:trigger x.s.calls[id]} | id in x.s.calls ::
          CallFine(x.s, x.s.calls[id], h) && WriterFine(x, x.s.calls[id]))
    && (forall i {:trigger x.s.pieces[i]} | i in x.s.pieces :: PieceFine(x, i, x.s.pieces[i]))
    && (forall i | i in x.image :: i in x.s.pieces)
    && (forall a, b {:trigger PairFine(x.s, a, b)} :: PairFine(x.s, a, b))
  }

  // ---------- One step keeps it

  /** The store only grows, and never changes a value. */
  ghost predicate Grown(a: Pieces, b: Pieces) {
    forall k {:trigger b[k]} {:trigger a[k]} | k in a :: k in b && b[k] == a[k]
  }

  lemma ActStore(c: Config, x: Hist, id: nat, h: Hasher)
    requires HInv(c, x, h) && CollisionFree(h) && Enabled(c, x.s, Act(id))
    ensures var t := ActNext(c, x.s, id); Grown(x.s.store, t.store) && Hashed(t.store, h)
  {
    assert CallFine(x.s, x.s.calls[id], h);
    UploadStores(c, x.s, id, h);
  }

  lemma UploadStores(c: Config, s: State, id: nat, h: Hasher)
    requires Hashed(s.store, h) && CollisionFree(h) && Enabled(c, s, Act(id)) && CallFine(s, s.calls[id], h)
    ensures var t := ActNext(c, s, id); Grown(s.store, t.store) && Hashed(t.store, h)
  {
    var call := s.calls[id];
    if call.pc.Uploading? {
      var k := s.pieces[call.idx].hash;
      if k in s.store {
        assert h(s.store[k]) == h(Sent(s.heap, call.pc.slice));
      }
    }
  }

  /** The step leaves piece `i` as it was, bytes included. */
  ghost predicate SamePiece(s: State, t: State, i: nat) {
    && i in s.pieces && i in t.pieces && t.pieces[i].hash == s.pieces[i].hash && t.pieces[i].buf == s.pieces[i].buf
    && (s.pieces[i].buf.Some? ==> At(t.heap, s.pieces[i].buf.value) == At(s.heap, s.pieces[i].buf.value))
  }

  /** Only a mutating call of its own changes the buffer of a piece. */
  lemma ActSame(c: Config, s: State, id: nat, i: nat)
    requires Enabled(c, s, Act(id)) && i in s.pieces && BufOk(s, i, s.pieces[i].buf)
    requires i == s.calls[id].idx ==> !Mutating(s.calls[id].pc)
    ensures SamePiece(s, ActNext(c, s, id), i)
  {
    ActShape(c, s, id);
    if s.pieces[i].buf.Some? {
      ActWrites(c, s, id, s.pieces[i].buf.value);
    }
    if i == s.calls[id].idx {
      QuietBuf(c, s, id);
    }
  }

  lemma QuietBuf(c: Config, s: State, id: nat)
    requires Enabled(c, s, Act(id)) && !Mutating(s.calls[id].pc)
    ensures var t, idx := ActNext(c, s, id), s.calls[id].idx;
            idx in t.pieces && t.pieces[idx].buf == s.pieces[idx].buf
  {}

  /** What the step does to the piece of its own call. */
  lemma ActPiece(c: Config, x: Hist, id: nat, h: Hasher)
    requires HInv(c, x, h) && CollisionFree(h) && Enabled(c, x.s, Act(id))
    ensures var y, i := HNext(c, x, Act(id)), x.s.calls[id].idx;
            i in y.s.pieces && PieceFine(y, i, y.s.pieces[i])
  {
    var call := x.s.calls[id];
    assert CallFine(x.s, call, h) && WriterFine(x, call) && PieceFine(x, call.idx, x.s.pieces[call.idx]);
    assert BufOk(x.s, call.idx, x.s.pieces[call.idx].buf);
    ActStore(c, x, id, h);
    if Writing(call.pc) {
      WriterPiece(c, x, id);
    } else {
      OtherPiece(c, x, id, h);
    }
  }

  lemma WriterPiece(c: Config, x: Hist, id: nat)
    requires Enabled(c, x.s, Act(id)) && Writing(x.s.calls[id].pc)
    requires var call := x.s.calls[id];
             WriterFine(x, call) && PieceFine(x, call.idx, x.s.pieces[call.idx])
             && BufOk(x.s, call.idx, x.s.pieces[call.idx].buf)
    ensures var y, i := HNext(c, x, Act(id)), x.s.calls[id].idx;
            i in y.s.pieces && PieceFine(y, i, y.s.pieces[i])
  {}

  lemma OtherPiece(c: Config, x: Hist, id: nat, h: Hasher)
    requires Enabled(c, x.s, Act(id)) && c.known <= x.s.store.Keys && !Writing(x.s.calls[id].pc)
    requires var call := x.s.calls[id];
             CallFine(x.s, call, h) && PieceFine(x, call.idx, x.s.pieces[call.idx])
    requires Grown(x.s.store, ActNext(c, x.s, id).store)
    ensures var y, i := HNext(c, x, Act(id)), x.s.calls[id].idx;
            i in y.s.pieces && PieceFine(y, i, y.s.pieces[i])
  {}

  /** Pieces of other calls keep their bytes and their image. */
  lemma FarPiece(c: Config, x: Hist, id: nat, i: nat)
    requires Enabled(c, x.s, Act(id)) && i in x.s.pieces && i != x.s.calls[id].idx
    requires PieceFine(x, i, x.s.pieces[i]) && BufOk(x.s, i, x.s.pieces[i].buf)
    requires Grown(x.s.store, ActNext(c, x.s, id).store)
    ensures var y := HNext(c, x, Act(id));
            i in y.s.pieces && PieceFine(y, i, y.s.pieces[i])
  {
    ActShape(c, x.s, id);
    ActSame(c, x.s, id, i);
  }

  lemma ActCall(c: Config, x: Hist, id: nat, h: Hasher)
    requires HInv(c, x, h) && CollisionFree(h) && Enabled(c, x.s, Act(id))
    ensures var t := ActNext(c, x.s, id);
            id in t.calls && t.calls[id].idx in t.pieces && CallFine(t, t.calls[id], h)
  {
    var call := x.s.calls[id];
    assert CallFine(x.s, call, h) && PieceFine(x, call.idx, x.s.pieces[call.idx]);
    OwnCall(c, x.s, id, h);
  }

  lemma OwnCall(c: Config, s: State, id: nat, h: Hasher)
    requires Enabled(c, s, Act(id)) && c.known <= s.store.Keys && CallFine(s, s.calls[id], h)
    requires s.pieces[s.calls[id].idx].complete ==> s.pieces[s.calls[id].idx].hash in s.store
    ensures var t := ActNext(c, s, id);
            id in t.calls && t.calls[id].idx in t.pieces && CallFine(t, t.calls[id], h)
  {}

  /** Other calls are not disturbed. */
  lemma ActOther(c: Config, x: Hist, id: nat, j: nat, h: Hasher)
    requires HInv(c, x, h) && CollisionFree(h) && Enabled(c, x.s, Act(id)) && j in x.s.calls && j != id
    ensures var t := ActNext(c, x.s, id);
            && j in t.calls && t.calls[j] == x.s.calls[j]
            && t.calls[j].idx in t.pieces && CallFine(t, t.calls[j], h)
  {
    var i := x.s.calls[j].idx;
    assert CallFine(x.s, x.s.calls[j], h) && PairFine(x.s, j, id) && BufOk(x.s, i, x.s.pieces[i].buf);
    ActStore(c, x, id, h);
    ActShape(c, x.s, id);
    if i != x.s.calls[id].idx || !Mutating(x.s.calls[id].pc) {
      ActSame(c, x.s, id, i);
    }
    OtherCall(x.s, ActNext(c, x.s, id), x.s.calls[j], h);
  }

  lemma OtherCall(s: State, t: State, call: Call, h: Hasher)
    requires call.idx in s.pieces && CallFine(s, call, h) && Grown(s.store, t.store)
    requires call.idx in t.pieces && t.pieces[call.idx].hash == s.pieces[call.idx].hash
    requires Exclusive(call.pc) ==> SamePiece(s, t, call.idx)
    ensures CallFine(t, call, h)
  {}

  lemma ActPairs(c: Config, x: Hist, id: nat, h: Hasher, a: nat, b: nat)
    requires HInv(c, x, h) && Enabled(c, x.s, Act(id))
    ensures PairFine(ActNext(c, x.s, id), a, b)
  {
    assert PairFine(x.s, a, b) && PairFine(x.s, b, a);
    PairActs(c, x.s, id, a, b);
  }

  lemma PairActs(c: Config, s: State, id: nat, a: nat, b: nat)
    requires Enabled(c, s, Act(id)) && PairFine(s, a, b) && PairFine(s, b, a)
    ensures PairFine(ActNext(c, s, id), a, b)
  {
    ActShape(c, s, id);
  }

  lemma ActWriters(c: Config, x: Hist, id: nat, h: Hasher, j: nat)
    requires HInv(c, x, h) && Enabled(c, x.s, Act(id)) && j in ActNext(c, x.s, id).calls
    ensures var y := HNext(c, x, Act(id));
            y.s.calls[j].idx in y.s.pieces && WriterFine(y, y.s.calls[j])
  {
    ActShape(c, x.s, id);
    assert PairFine(x.s, id, j);
    assert j in x.s.calls && WriterFine(x, x.s.calls[j]);
    WriterActs(c, x, id, j);
  }

  lemma WriterActs(c: Config, x: Hist, id: nat, j: nat)
    requires Enabled(c, x.s, Act(id)) && j in x.s.calls && x.s.calls[j].idx in x.s.pieces
    requires PairFine(x.s, id, j) && WriterFine(x, x.s.calls[j])
    ensures var y := HNext(c, x, Act(id));
            j in y.s.calls && y.s.calls[j].idx in y.s.pieces && WriterFine(y, y.s.calls[j])
  {
    ActShape(c, x.s, id);
  }

  lemma ActKeeps(c: Config, x: Hist, id: nat, h: Hasher)
    requires HInv(c, x, h) && CollisionFree(h) && Enabled(c, x.s, Act(id))
    ensures HInv(c, HNext(c, x, Act(id)), h)
  {
    var y, idx := HNext(c, x, Act(id)), x.s.calls[id].idx;
    ActStore(c, x, id, h);
    ActShape(c, x.s, id);
    HeapAct(c, x.s, id);
    forall j {:trigger y.s.calls[j]} | j in y.s.calls
      ensures y.s.calls[j].idx in y.s.pieces && CallFine(y.s, y.s.calls[j], h) && WriterFine(y, y.s.calls[j])
    {
      if j == id {
        ActCall(c, x, id, h);
      } else {
        ActOther(c, x, id, j, h);
      }
      ActWriters(c, x, id, h, j);
    }
    forall i {:trigger y.s.pieces[i]} | i in y.s.pieces
      ensures PieceFine(y, i, y.s.pieces[i])
    {
      if i == idx {
        ActPiece(c, x, id, h);
      } else {
        assert PieceFine(x, i, x.s.pieces[i]) && BufOk(x.s, i, x.s.pieces[i].buf);
        FarPiece(c, x, id, i);
      }
    }
    forall a, b {:trigger PairFine(y.s, a, b)}
      ensures PairFine(y.s, a, b)
    {
      ActPairs(c, x, id, h, a, b);
    }
  }

  lemma OpenKeeps(c: Config, x: Hist, step: Step, h: Hasher)
    requires HInv(c, x, h) && step.Open?
    ensures HInv(c, HNext(c, x, step), h)
  {
    var y := HNext(c, x, step);
    HeapKeeps(c, x.s, step);
    forall j {:trigger y.s.calls[j]} | j in y.s.calls
      ensures y.s.calls[j].idx in y.s.pieces && CallFine(y.s, y.s.calls[j], h) && WriterFine(y, y.s.calls[j])
    {
      assert x.s.calls[j].idx in x.s.pieces && CallFine(x.s, x.s.calls[j], h) && WriterFine(x, x.s.calls[j]);
    }
    forall i {:trigger y.s.pieces[i]} | i in y.s.pieces
      ensures PieceFine(y, i, y.s.pieces[i])
    {
      assert i in x.s.pieces ==> PieceFine(x, i, x.s.pieces[i]);
    }
    assert forall a, b {:trigger PairFine(y.s, a, b)} :: PairFine(x.s, a, b) ==> PairFine(y.s, a, b);
  }

  lemma BeginPairs(s: State, t: State, id: nat, idx: nat, pc: Pc, a: nat, b: nat)
    requires id !in s.calls && t.calls == s.calls[id := Call(idx, pc)]
    requires Starting(pc) && PairFine(s, a, b)
    requires pc.WriteStart? || pc.UnmarkStart? ==> NoMark(s, idx)
    requires pc.MarkStart? ==> NoMutator(s, idx)
    ensures PairFine(t, a, b)
  {}

  lemma BeginKeeps(c: Config, x: Hist, step: Step, h: Hasher)
    requires HInv(c, x, h) && step.Begin? && Enabled(c, x.s, step) && Contract(x, step, h)
    ensures HInv(c, HNext(c, x, step), h)
  {
    var y := HNext(c, x, step);
    var p := x.s.pieces[step.idx];
    HeapKeeps(c, x.s, step);
    assert PieceFine(x, step.idx, p);
    forall j {:trigger y.s.calls[j]} | j in y.s.calls
      ensures y.s.calls[j].idx in y.s.pieces && CallFine(y.s, y.s.calls[j], h) && WriterFine(y, y.s.calls[j])
    {
      if j != step.id {
        assert x.s.calls[j].idx in x.s.pieces && CallFine(x.s, x.s.calls[j], h) && WriterFine(x, x.s.calls[j]);
      }
    }
    forall i {:trigger y.s.pieces[i]} | i in y.s.pieces
      ensures PieceFine(y, i, y.s.pieces[i])
    {
      assert PieceFine(x, i, x.s.pieces[i]);
    }
    forall a, b {:trigger PairFine(y.s, a, b)}
      ensures PairFine(y.s, a, b)
    {
      BeginPairs(x.s, y.s, step.id, step.idx, step.pc, a, b);
    }
  }

  /** What a ReadAt that copies a byte, or a call whose store operation fails, leaves alone. */
  ghost predicate OnlyGoes(s: State, t: State, id: nat) {
    && t.pieces == s.pieces && t.heap == s.heap && t.store == s.store && id in s.calls && id in t.calls
    && t.calls == s.calls[id := t.calls[id]] && t.calls[id].idx == s.calls[id].idx
    && (t.calls[id].pc.ReadCopy? || t.calls[id].pc.Returned? || t.calls[id].pc.MarkLeave?)
    && (t.calls[id].pc.MarkLeave? ==> Exclusive(s.calls[id].pc))
  }

  lemma GoesAlone(c: Config, s: State, step: Step)
    requires (step.Copy? || step.Fail?) && Enabled(c, s, step)
    ensures OnlyGoes(s, Next(c, s, step), step.id)
  {}

  lemma GotoCall(x: Hist, y: Hist, id: nat, h: Hasher, j: nat)
    requires OnlyGoes(x.s, y.s, id) && y.image == x.image && j in x.s.calls && x.s.calls[j].idx in x.s.pieces
    requires CallFine(x.s, x.s.calls[j], h) && WriterFine(x, x.s.calls[j])
    ensures y.s.calls[j].idx in y.s.pieces && CallFine(y.s, y.s.calls[j], h) && WriterFine(y, y.s.calls[j])
  {}

  lemma GotoPair(s: State, t: State, id: nat, a: nat, b: nat)
    requires OnlyGoes(s, t, id) && PairFine(s, a, b)
    ensures PairFine(t, a, b)
  {}

  lemma GotoFine(c: Config, x: Hist, step: Step, h: Hasher)
    requires HInv(c, x, h) && (step.Copy? || step.Fail?) && Enabled(c, x.s, step)
    ensures HInv(c, HNext(c, x, step), h)
  {
    var y, id := HNext(c, x, step), step.id;
    HeapKeeps(c, x.s, step);
    GoesAlone(c, x.s, step);
    forall j {:trigger y.s.calls[j]} | j in y.s.calls
      ensures y.s.calls[j].idx in y.s.pieces && CallFine(y.s, y.s.calls[j], h) && WriterFine(y, y.s.calls[j])
    {
      assert j in x.s.calls && x.s.calls[j].idx in x.s.pieces;
      assert CallFine(x.s, x.s.calls[j], h) && WriterFine(x, x.s.calls[j]);
      GotoCall(x, y, id, h, j);
    }
    forall i {:trigger y.s.pieces[i]} | i in y.s.pieces
      ensures PieceFine(y, i, y.s.pieces[i])
    {
      assert PieceFine(x, i, x.s.pieces[i]);
    }
    forall a, b {:trigger PairFine(y.s, a, b)}
      ensures PairFine(y.s, a, b)
    {
      assert PairFine(x.s, a, b);
      GotoPair(x.s, y.s, id, a, b);
    }
  }

  // ---------- Whole runs under the contract

  ghost predicate Follows(c: Config, xs: seq<Hist>, steps: seq<Step>, store: Pieces) {
    && |xs| == |steps| + 1 && xs[0] == Hist(Init(store), map[])
    && forall i {:trigger steps[i]} | 0 <= i < |steps| ::
         Enabled(c, xs[i].s, steps[i]) && xs[i + 1] == HNext(c, xs[i], steps[i])
  }

  ghost predicate Kept(xs: seq<Hist>, steps: seq<Step>, h: Hasher) {
    |steps| <= |xs| && forall i {:trigger steps[i]} | 0 <= i < |steps| :: Contract(xs[i], steps[i], h)
  }

  ghost predicate HExecution(c: Config, xs: seq<Hist>, steps: seq<Step>, store: Pieces, h: Hasher) {
    Follows(c, xs, steps, store) && Kept(xs, steps, h)
  }

  lemma {:induction false} AlwaysFine(c: Config, xs: seq<Hist>, steps: seq<Step>, store: Pieces, h: Hasher, i: nat)
    requires CollisionFree(h) && Hashed(store, h) && c.known <= store.Keys
    requires HExecution(c, xs, steps, store, h) && i < |xs|
    ensures HInv(c, xs[i], h)
  {
    if i > 0 {
      AlwaysFine(c, xs, steps, store, h, i - 1);
      var x, step := xs[i - 1], steps[i - 1];
      assert Enabled(c, x.s, step) && Contract(x, step, h);
      match step
      case Open(_, _, _) => OpenKeeps(c, x, step, h);
      case Begin(_, _, _) => BeginKeeps(c, x, step, h);
      case Act(id) => ActKeeps(c, x, id, h);
      case _ => GotoFine(c, x, step, h);
    }
  }

  /** A piece reported complete has its key in the store, in every reachable state; and
      the store stays content-addressed. */
  lemma CompleteIsStored(c: Config, xs: seq<Hist>, steps: seq<Step>, store: Pieces, h: Hasher, i: nat, idx: nat)
    requires CollisionFree(h) && Hashed(store, h) && c.known <= store.Keys
    requires HExecution(c, xs, steps, store, h) && i < |xs| && idx in xs[i].s.pieces
    ensures xs[i].s.pieces[idx].complete ==> xs[i].s.pieces[idx].hash in xs[i].s.store
    ensures Hashed(xs[i].s.store, h)
  {
    AlwaysFine(c, xs, steps, store, h, i);
    assert PieceFine(xs[i], idx, xs[i].s.pieces[idx]);
  }

  /** A written piece is in RAM or, byte for byte, in the store. */
  lemma WrittenIsSomewhere(c: Config, xs: seq<Hist>, steps: seq<Step>, store: Pieces, h: Hasher, i: nat, idx: nat)
    requires CollisionFree(h) && Hashed(store, h) && c.known <= store.Keys
    requires HExecution(c, xs, steps, store, h) && i < |xs| && idx in xs[i].image
    ensures idx in xs[i].s.pieces
    ensures var p := xs[i].s.pieces[idx];
            if p.buf.Some? then At(xs[i].s.heap, p.buf.value) == xs[i].image[idx]
            else p.complete && p.hash in xs[i].s.store && xs[i].s.store[p.hash] == xs[i].image[idx]
  {
    AlwaysFine(c, xs, steps, store, h, i);
    assert PieceFine(xs[i], idx, xs[i].s.pieces[idx]);
  }
}
