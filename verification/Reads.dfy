/**
 What ReadAt returns (fetch.go lines 155-187) under the caller's contract of module
 Handoff. It looks under the mutex and copies later, from a slice other calls may write to
 or give up meanwhile.
 */
module Reads {
  import opened Streams
  import opened Stores
  import opened Recency
  import opened Buffers
  import opened Handoff
  import opened ShortRuns

  /** The mutex section of a ReadAt: step `at`, of call `id` on piece `idx`. */
  datatype Look = Look(at: nat, id: nat, idx: nat, off: nat, len: nat)

  ghost predicate Looks(xs: seq<Hist>, steps: seq<Step>, l: Look) {
    && l.at < |steps| < |xs| && steps[l.at] == Act(l.id) && l.idx in xs[l.at].s.pieces
    && l.id in xs[l.at].s.calls && xs[l.at].s.calls[l.id] == Call(l.idx, ReadStart(l.off, l.len))
  }

  /** The bytes are what the piece's image was in some state between `a` and `i`. */
  ghost predicate WasImage(xs: seq<Hist>, idx: nat, b: Bytes, a: nat, i: nat) {
    exists m {:trigger xs[m]} :: a <= m <= i && m < |xs| && idx in xs[m].image && xs[m].image[idx] == b
  }

  /** Step `j` copies byte `k` and finds `v`; the slice is then some image the piece has had
      since the look. */
  ghost predicate Copied(xs: seq<Hist>, steps: seq<Step>, l: Look, ref: nat, k: nat, v: byte, j: nat) {
    && l.at < j < |steps| < |xs| && steps[j] == Copy(l.id, k)
    && var b := At(xs[j].s.heap, ref);
       l.off + k < |b| && b[l.off + k] == v && WasImage(xs, l.idx, b, l.at, j)
  }

  ghost predicate Seen(xs: seq<Hist>, steps: seq<Step>, l: Look, ref: nat, k: nat, v: byte, i: nat) {
    exists j: nat :: j < i && Copied(xs, steps, l, ref, k, v, j)
  }

  /** The bytes gathered so far. */
  ghost predicate AllSeen(xs: seq<Hist>, steps: seq<Step>, l: Look, ref: nat, got: seq<Option<byte>>, i: nat) {
    forall k {:trigger got[k]} | 0 <= k < |got| && got[k].Some? :: Seen(xs, steps, l, ref, k, got[k].value, i)
  }

  /** The bytes handed out: each was the image's byte at its place in some state between
      the look and its own copy. */
  ghost predicate BytesSeen(xs: seq<Hist>, steps: seq<Step>, l: Look, ref: nat, data: Bytes, i: nat) {
    forall k {:trigger data[k]} | 0 <= k < |data| :: Seen(xs, steps, l, ref, k, data[k], i)
  }

  ghost predicate Reading(xs: seq<Hist>, steps: seq<Step>, call: Call, l: Look, ref: nat, n: nat, i: nat) {
    && call.idx == l.idx
    && match call.pc
       case ReadCopy(r, o, got) => r == ref && o == l.off && |got| == n && AllSeen(xs, steps, l, ref, got, i)
       case Returned(ReadBytes(data)) => |data| == n && BytesSeen(xs, steps, l, ref, data, i)
       case _ => false
  }

  // ---------- The slice

  /** Whatever changes a slice leaves it as the buffer of a piece that had it before. */
  lemma WriterOf(c: Config, s: State, step: Step, ref: nat) returns (w: nat)
    requires Enabled(c, s, step) && ref < |s.heap| && At(Next(c, s, step).heap, ref) != At(s.heap, ref)
    ensures var t := Next(c, s, step);
            w in s.pieces && w in t.pieces && s.pieces[w].buf == t.pieces[w].buf == Some(ref)
  {
    assert step.Act?;
    ActWrites(c, s, step.id, ref);
    w := s.calls[step.id].idx;
  }

  lemma StillImage(xs: seq<Hist>, idx: nat, b: Bytes, a: nat, i: nat)
    requires WasImage(xs, idx, b, a, i)
    ensures WasImage(xs, idx, b, a, i + 1)
  {
    var m :| a <= m <= i && m < |xs| && idx in xs[m].image && xs[m].image[idx] == b;
  }

  lemma BufferIsImage(c: Config, xs: seq<Hist>, h: Hasher, idx: nat, ref: nat, a: nat, i: nat)
    requires a <= i < |xs| && HInv(c, xs[i], h) && idx in xs[i].s.pieces && xs[i].s.pieces[idx].buf == Some(ref)
    ensures WasImage(xs, idx, At(xs[i].s.heap, ref), a, i)
  {
    assert PieceFine(xs[i], idx, xs[i].s.pieces[idx]);
  }

  /** A slice that some ReadAt of the piece holds is written only while it is the buffer,
      so that it always is an image the piece had. */
  lemma SliceKeeps(c: Config, xs: seq<Hist>, a: nat, i: nat, step: Step, idx: nat, ref: nat, h: Hasher)
    requires a <= i && i + 1 < |xs| && HInv(c, xs[i + 1], h) && BufOk(xs[i].s, idx, Some(ref))
    requires Enabled(c, xs[i].s, step) && xs[i + 1].s == Next(c, xs[i].s, step)
    requires WasImage(xs, idx, At(xs[i].s.heap, ref), a, i)
    ensures WasImage(xs, idx, At(xs[i + 1].s.heap, ref), a, i + 1)
  {
    if At(xs[i + 1].s.heap, ref) == At(xs[i].s.heap, ref) {
      StillImage(xs, idx, At(xs[i].s.heap, ref), a, i);
    } else {
      var w := WriterOf(c, xs[i].s, step, ref);
      assert w == idx;
      BufferIsImage(c, xs, h, idx, ref, a, i + 1);
    }
  }

  // ---------- Copying

  lemma AllSeenLater(xs: seq<Hist>, steps: seq<Step>, l: Look, ref: nat, got: seq<Option<byte>>, i: nat)
    requires AllSeen(xs, steps, l, ref, got, i)
    ensures AllSeen(xs, steps, l, ref, got, i + 1)
  {
    forall k {:trigger got[k]} | 0 <= k < |got| && got[k].Some?
      ensures Seen(xs, steps, l, ref, k, got[k].value, i + 1)
    {
      var j: nat :| j < i && Copied(xs, steps, l, ref, k, got[k].value, j);
    }
  }

  lemma BytesSeenLater(xs: seq<Hist>, steps: seq<Step>, l: Look, ref: nat, data: Bytes, i: nat)
    requires BytesSeen(xs, steps, l, ref, data, i)
    ensures BytesSeen(xs, steps, l, ref, data, i + 1)
  {
    forall k {:trigger data[k]} | 0 <= k < |data|
      ensures Seen(xs, steps, l, ref, k, data[k], i + 1)
    {
      var j: nat :| j < i && Copied(xs, steps, l, ref, k, data[k], j);
    }
  }

  lemma ReadingLater(xs: seq<Hist>, steps: seq<Step>, call: Call, l: Look, ref: nat, n: nat, i: nat)
    requires Reading(xs, steps, call, l, ref, n, i)
    ensures Reading(xs, steps, call, l, ref, n, i + 1)
  {
    match call.pc
    case ReadCopy(_, _, got) => AllSeenLater(xs, steps, l, ref, got, i);
    case Returned(r) => BytesSeenLater(xs, steps, l, ref, r.data, i);
  }

  /** One more byte: it is the slice's as it is at this moment. */
  lemma CopySees(xs: seq<Hist>, steps: seq<Step>, l: Look, ref: nat, got: seq<Option<byte>>, at: nat, i: nat)
    requires AllSeen(xs, steps, l, ref, got, i) && l.at < i < |steps| < |xs| && steps[i] == Copy(l.id, at)
    requires at < |got| && l.off + at < |At(xs[i].s.heap, ref)| && WasImage(xs, l.idx, At(xs[i].s.heap, ref), l.at, i)
    ensures AllSeen(xs, steps, l, ref, got[at := Some(ByteAt(At(xs[i].s.heap, ref), l.off + at))], i + 1)
  {
    var got' := got[at := Some(ByteAt(At(xs[i].s.heap, ref), l.off + at))];
    assert Copied(xs, steps, l, ref, at, got'[at].value, i);
    AllSeenLater(xs, steps, l, ref, got, i);
    forall k {:trigger got'[k]} | 0 <= k < |got'| && got'[k].Some?
      ensures Seen(xs, steps, l, ref, k, got'[k].value, i + 1)
    {
      assert k != at ==> got'[k] == got[k];
    }
  }

  lemma DoneSees(xs: seq<Hist>, steps: seq<Step>, l: Look, ref: nat, got: seq<Option<byte>>, i: nat)
    requires AllSeen(xs, steps, l, ref, got, i) && Full(got)
    ensures |Values(got)| == |got| && BytesSeen(xs, steps, l, ref, Values(got), i)
  {
    var data := Values(got);
    forall k {:trigger data[k]} | 0 <= k < |data|
      ensures Seen(xs, steps, l, ref, k, data[k], i)
    {
      assert got[k].Some?;
    }
  }

  /** What a step does to a ReadAt that copies, or has returned. */
  lemma ReaderMoves(c: Config, s: State, step: Step, id: nat)
    requires Enabled(c, s, step) && id in s.calls && (s.calls[id].pc.ReadCopy? || s.calls[id].pc.Returned?)
    ensures var t, call := Next(c, s, step), s.calls[id];
            && id in t.calls
            && (|| t.calls[id] == call
                || (step.Copy? && step.id == id && call.pc.ReadCopy? && step.at < |call.pc.got|
                    && t.calls[id] == Call(call.idx, call.pc.(got := call.pc.got[step.at :=
                         Some(ByteAt(At(s.heap, call.pc.ref), call.pc.off + step.at))])))
                || (step == Act(id) && call.pc.ReadCopy? && Full(call.pc.got)
                    && t.calls[id] == Call(call.idx, Returned(ReadBytes(Values(call.pc.got))))))
  {
    if step.Act? {
      ActShape(c, s, step.id);
    }
  }

  lemma ReadingKeeps(c: Config, xs: seq<Hist>, steps: seq<Step>, l: Look, ref: nat, n: nat, i: nat)
    requires l.at < i < |steps| < |xs| && HeapOk(xs[i].s)
    requires Enabled(c, xs[i].s, steps[i]) && xs[i + 1].s == Next(c, xs[i].s, steps[i])
    requires l.id in xs[i].s.calls && Reading(xs, steps, xs[i].s.calls[l.id], l, ref, n, i)
    requires xs[i].s.calls[l.id].pc.ReadCopy? ==> WasImage(xs, l.idx, At(xs[i].s.heap, ref), l.at, i)
    ensures l.id in xs[i + 1].s.calls && Reading(xs, steps, xs[i + 1].s.calls[l.id], l, ref, n, i + 1)
  {
    var s, step := xs[i].s, steps[i];
    var call := s.calls[l.id];
    ReaderMoves(c, s, step, l.id);
    if xs[i + 1].s.calls[l.id] == call {
      ReadingLater(xs, steps, call, l, ref, n, i);
    } else if step.Copy? {
      assert BufOk(s, l.idx, Slice(call.pc)) && CopyFits(s, call);
      CopySees(xs, steps, l, ref, call.pc.got, step.at, i);
    } else {
      DoneSees(xs, steps, l, ref, call.pc.got, i);
      BytesSeenLater(xs, steps, l, ref, Values(call.pc.got), i);
    }
  }

  /** How many bytes there are to copy. */
  ghost function Due(l: Look, length: nat): nat
    requires l.off < length
  {
    Min(l.off + l.len, length) - l.off
  }

  /** The ReadAt copies `n` bytes, or has returned them. */
  ghost predicate InProgress(xs: seq<Hist>, steps: seq<Step>, l: Look, ref: nat, n: nat, i: nat) {
    && i < |xs| && l.id in xs[i].s.calls && Reading(xs, steps, xs[i].s.calls[l.id], l, ref, n, i)
    && (xs[i].s.calls[l.id].pc.ReadCopy? ==> WasImage(xs, l.idx, At(xs[i].s.heap, ref), l.at, i))
  }

  /** The same for the ReadAt that found the slice `ref` in a piece it has bytes to read from. */
  ghost predicate Progress(xs: seq<Hist>, steps: seq<Step>, l: Look, ref: nat, i: nat) {
    && l.at < |xs| && l.idx in xs[l.at].s.pieces && l.off < xs[l.at].s.pieces[l.idx].length
    && InProgress(xs, steps, l, ref, Due(l, xs[l.at].s.pieces[l.idx].length), i)
  }

  lemma ProgressKeeps(c: Config, xs: seq<Hist>, steps: seq<Step>, h: Hasher, l: Look, ref: nat, j: nat, i: nat)
    requires l.at < j < |steps| < |xs| && i == j + 1 && HeapOk(xs[j].s) && HInv(c, xs[i], h)
    requires Enabled(c, xs[j].s, steps[j]) && xs[i].s == Next(c, xs[j].s, steps[j])
    requires Progress(xs, steps, l, ref, j)
    ensures Progress(xs, steps, l, ref, i)
  {
    ReadingKeeps(c, xs, steps, l, ref, Due(l, xs[l.at].s.pieces[l.idx].length), j);
    if xs[i].s.calls[l.id].pc.ReadCopy? {
      ReaderMoves(c, xs[j].s, steps[j], l.id);
      assert BufOk(xs[j].s, l.idx, Slice(xs[j].s.calls[l.id].pc));
      SliceKeeps(c, xs, l.at, j, steps[j], l.idx, ref, h);
    }
  }

  lemma ProgressGoesOn(c: Config, xs: seq<Hist>, steps: seq<Step>, store: Pieces, h: Hasher, l: Look, ref: nat,
                       j: nat, i: nat)
    requires CollisionFree(h) && Hashed(store, h) && c.known <= store.Keys
    requires HExecution(c, xs, steps, store, h) && l.at < j < |steps| && i == j + 1 && Progress(xs, steps, l, ref, j)
    ensures Progress(xs, steps, l, ref, i)
  {
    AlwaysFine(c, xs, steps, store, h, j);
    AlwaysFine(c, xs, steps, store, h, i);
    assert Enabled(c, xs[j].s, steps[j]) && xs[j + 1] == HNext(c, xs[j], steps[j]);
    ProgressKeeps(c, xs, steps, h, l, ref, j, i);
  }

  lemma ProgressStarts(c: Config, xs: seq<Hist>, steps: seq<Step>, store: Pieces, h: Hasher, l: Look, ref: nat, i: nat)
    requires CollisionFree(h) && Hashed(store, h) && c.known <= store.Keys
    requires HExecution(c, xs, steps, store, h) && Looks(xs, steps, l) && i == l.at + 1
    requires xs[l.at].s.pieces[l.idx].buf == Some(ref) && l.off < xs[l.at].s.pieces[l.idx].length
    ensures Progress(xs, steps, l, ref, i)
  {
    AlwaysFine(c, xs, steps, store, h, l.at);
    assert Enabled(c, xs[l.at].s, steps[l.at]) && xs[l.at + 1] == HNext(c, xs[l.at], steps[l.at]);
    ReadingStarts(c, xs, steps, h, l, ref, i);
  }

  lemma {:induction false} ProgressHolds(c: Config, xs: seq<Hist>, steps: seq<Step>, store: Pieces, h: Hasher,
                                         l: Look, ref: nat, i: nat)
    requires CollisionFree(h) && Hashed(store, h) && c.known <= store.Keys
    requires HExecution(c, xs, steps, store, h) && Looks(xs, steps, l) && l.at < i < |xs|
    requires xs[l.at].s.pieces[l.idx].buf == Some(ref) && l.off < xs[l.at].s.pieces[l.idx].length
    ensures Progress(xs, steps, l, ref, i)
  {
    if i == l.at + 1 {
      ProgressStarts(c, xs, steps, store, h, l, ref, i);
    } else {
      ProgressHolds(c, xs, steps, store, h, l, ref, i - 1);
      ProgressGoesOn(c, xs, steps, store, h, l, ref, i - 1, i);
    }
  }

  lemma ReadingStarts(c: Config, xs: seq<Hist>, steps: seq<Step>, h: Hasher, l: Look, ref: nat, i: nat)
    requires i == l.at + 1 && Looks(xs, steps, l) && HInv(c, xs[l.at], h)
    requires Enabled(c, xs[l.at].s, steps[l.at]) && xs[l.at + 1] == HNext(c, xs[l.at], steps[l.at])
    requires xs[l.at].s.pieces[l.idx].buf == Some(ref) && l.off < xs[l.at].s.pieces[l.idx].length
    ensures Progress(xs, steps, l, ref, i)
  {
    var x := xs[l.at];
    assert PieceFine(x, l.idx, x.s.pieces[l.idx]) && BufOk(x.s, l.idx, x.s.pieces[l.idx].buf);
    assert x.image[l.idx] == At(xs[l.at + 1].s.heap, ref);
  }

  /** A ReadAt that found a buffer returns as many bytes as it asked for and the piece has
      from there on, and each is the piece's byte at that place in some state between the
      look and the copy of that very byte; whatever was written, given up or handed over
      meanwhile. Past the end it is EOF. */
  lemma ReadsFromBuffer(c: Config, xs: seq<Hist>, steps: seq<Step>, store: Pieces, h: Hasher, l: Look, i: nat)
    requires CollisionFree(h) && Hashed(store, h) && c.known <= store.Keys
    requires HExecution(c, xs, steps, store, h) && Looks(xs, steps, l) && l.at < i < |xs|
    requires xs[l.at].s.pieces[l.idx].buf.Some?
    requires l.id in xs[i].s.calls && xs[i].s.calls[l.id].pc.Returned?
    ensures var r, p := xs[i].s.calls[l.id].pc.result, xs[l.at].s.pieces[l.idx];
            if l.off >= p.length then r == ReadEOF
            else r.ReadBytes? && |r.data| == Due(l, p.length) && BytesSeen(xs, steps, l, p.buf.value, r.data, i)
  {
    AlwaysFine(c, xs, steps, store, h, l.at);
    var p := xs[l.at].s.pieces[l.idx];
    assert BufOk(xs[l.at].s, l.idx, p.buf);
    if l.off >= p.length {
      assert Enabled(c, xs[l.at].s, steps[l.at]) && xs[l.at + 1] == HNext(c, xs[l.at], steps[l.at]);
      StaysReturned(c, xs, steps, store, l.at + 1, i, l.id);
    } else {
      ProgressHolds(c, xs, steps, store, h, l, p.buf.value, i);
    }
  }

  lemma {:induction false} StaysReturned(c: Config, xs: seq<Hist>, steps: seq<Step>, store: Pieces, j: nat, i: nat,
                                         id: nat)
    requires Follows(c, xs, steps, store) && j <= i < |xs| && id in xs[j].s.calls && xs[j].s.calls[id].pc.Returned?
    ensures id in xs[i].s.calls && xs[i].s.calls[id] == xs[j].s.calls[id]
  {
    if j < i {
      StaysReturned(c, xs, steps, store, j, i - 1, id);
      assert Enabled(c, xs[i - 1].s, steps[i - 1]) && xs[i] == HNext(c, xs[i - 1], steps[i - 1]);
      ReaderMoves(c, xs[i - 1].s, steps[i - 1], id);
    }
  }

  // ---------- From the store

  ghost predicate Fetching(s: State, l: Look, key: string, data: Bytes) {
    && l.id in s.calls && s.calls[l.id].idx == l.idx && l.idx in s.pieces && s.pieces[l.idx].hash == key
    && key in s.store && s.store[key] == data
    && (|| s.calls[l.id].pc == ReadStore(l.off, l.len) || s.calls[l.id].pc == Returned(ReadError)
        || s.calls[l.id].pc == Returned(ReadResult(data, l.off, l.len)))
  }

  lemma FetchingKeeps(c: Config, x: Hist, step: Step, h: Hasher, l: Look, key: string, data: Bytes)
    requires HInv(c, x, h) && CollisionFree(h) && Enabled(c, x.s, step) && Fetching(x.s, l, key, data)
    ensures Fetching(Next(c, x.s, step), l, key, data)
  {
    if step.Act? {
      ActStore(c, x, step.id, h);
      FetchingAct(c, x.s, step.id, l, key, data);
    }
  }

  lemma FetchingAct(c: Config, s: State, id: nat, l: Look, key: string, data: Bytes)
    requires Enabled(c, s, Act(id)) && Fetching(s, l, key, data) && Grown(s.store, ActNext(c, s, id).store)
    ensures Fetching(ActNext(c, s, id), l, key, data)
  {
    ActShape(c, s, id);
  }

  lemma {:induction false} FetchingHolds(c: Config, xs: seq<Hist>, steps: seq<Step>, store: Pieces, h: Hasher,
                                         l: Look, key: string, data: Bytes, j: nat, i: nat)
    requires CollisionFree(h) && Hashed(store, h) && c.known <= store.Keys
    requires HExecution(c, xs, steps, store, h) && j <= i < |xs| && Fetching(xs[j].s, l, key, data)
    ensures Fetching(xs[i].s, l, key, data)
  {
    if j < i {
      FetchingHolds(c, xs, steps, store, h, l, key, data, j, i - 1);
      AlwaysFine(c, xs, steps, store, h, i - 1);
      assert Enabled(c, xs[i - 1].s, steps[i - 1]) && xs[i] == HNext(c, xs[i - 1], steps[i - 1]);
      FetchingKeeps(c, xs[i - 1], steps[i - 1], h, l, key, data);
    }
  }

  /** A ReadAt that found no buffer reads, if the piece is complete, the bytes its hash
      names, which for a piece written here are the bytes last written; or the store
      fails. Else it is EOF. */
  lemma ReadsFromStore(c: Config, xs: seq<Hist>, steps: seq<Step>, store: Pieces, h: Hasher, l: Look, i: nat)
    requires CollisionFree(h) && Hashed(store, h) && c.known <= store.Keys
    requires HExecution(c, xs, steps, store, h) && Looks(xs, steps, l) && l.at < i < |xs|
    requires xs[l.at].s.pieces[l.idx].buf.None?
    requires l.id in xs[i].s.calls && xs[i].s.calls[l.id].pc.Returned?
    ensures var r, x := xs[i].s.calls[l.id].pc.result, xs[l.at];
            var p, kept := x.s.pieces[l.idx], x.s.store;
            if !p.complete then r == ReadEOF && l.idx !in x.image
            else p.hash in kept && h(kept[p.hash]) == p.hash && (l.idx in x.image ==> kept[p.hash] == x.image[l.idx])
                 && (r == ReadError || r == ReadResult(kept[p.hash], l.off, l.len))
  {
    AlwaysFine(c, xs, steps, store, h, l.at);
    var p := xs[l.at].s.pieces[l.idx];
    assert PieceFine(xs[l.at], l.idx, p);
    assert Enabled(c, xs[l.at].s, steps[l.at]) && xs[l.at + 1] == HNext(c, xs[l.at], steps[l.at]);
    if p.complete {
      var data := xs[l.at].s.store[p.hash];
      assert Fetching(xs[l.at + 1].s, l, p.hash, data);
      FetchingHolds(c, xs, steps, store, h, l, p.hash, data, l.at + 1, i);
    } else {
      StaysReturned(c, xs, steps, store, l.at + 1, i, l.id);
    }
  }

  // ---------- With no write in the way

  /** The step writes to the position: a WriteAt section whose bytes cover it. */
  ghost predicate WritesAt(s: State, step: Step, idx: nat, pos: nat) {
    && step.Act? && step.id in s.calls && s.calls[step.id].idx == idx && idx in s.pieces
    && var pc := s.calls[step.id].pc;
       Writes(s.pieces[idx], pc) && pc.off <= pos < pc.off + |pc.data|
  }

  /** No WriteAt writes to the piece from `lo` to before `hi`, between the two states. */
  ghost predicate NoWrite(xs: seq<Hist>, steps: seq<Step>, idx: nat, lo: nat, hi: nat, a: nat, i: nat) {
    forall j, pos {:trigger WritesAt(xs[j].s, steps[j], idx, pos)} |
      a <= j < i && j < |steps| < |xs| && lo <= pos < hi :: !WritesAt(xs[j].s, steps[j], idx, pos)
  }

  /** Only such a step of the piece changes the slice there. */
  lemma PlaceKeeps(c: Config, s: State, step: Step, idx: nat, ref: nat, pos: nat)
    requires Enabled(c, s, step) && BufOk(s, idx, Some(ref)) && !WritesAt(s, step, idx, pos)
    ensures ByteAt(At(Next(c, s, step).heap, ref), pos) == ByteAt(At(s.heap, ref), pos)
  {
    if step.Act? {
      ActWrites(c, s, step.id, ref);
      if Writing(s.calls[step.id].pc) {
        PlaceWritten(c, s, step.id, idx, ref, pos);
      }
    }
  }

  lemma PlaceWritten(c: Config, s: State, id: nat, idx: nat, ref: nat, pos: nat)
    requires Enabled(c, s, Act(id)) && Writing(s.calls[id].pc) && ref < |s.heap|
    requires s.calls[id].idx != idx ==> s.pieces[s.calls[id].idx].buf != Some(ref)
    requires !WritesAt(s, Act(id), idx, pos)
    ensures ByteAt(At(ActNext(c, s, id).heap, ref), pos) == ByteAt(At(s.heap, ref), pos)
  {}

  /** While the ReadAt copies, the slice is its own or its piece's. */
  lemma SliceHeld(c: Config, xs: seq<Hist>, steps: seq<Step>, store: Pieces, h: Hasher, l: Look, ref: nat, j: nat)
    requires CollisionFree(h) && Hashed(store, h) && c.known <= store.Keys
    requires HExecution(c, xs, steps, store, h) && Looks(xs, steps, l) && l.at <= j < |steps|
    requires xs[l.at].s.pieces[l.idx].buf == Some(ref) && l.off < xs[l.at].s.pieces[l.idx].length
    requires l.id in xs[j + 1].s.calls && xs[j + 1].s.calls[l.id].pc.ReadCopy?
    ensures BufOk(xs[j].s, l.idx, Some(ref))
    ensures l.at < j ==> l.id in xs[j].s.calls && xs[j].s.calls[l.id].pc.ReadCopy?
  {
    var s := xs[j].s;
    AlwaysFine(c, xs, steps, store, h, j);
    if j == l.at {
      assert BufOk(s, l.idx, s.pieces[l.idx].buf);
    } else {
      assert Enabled(c, s, steps[j]) && xs[j + 1] == HNext(c, xs[j], steps[j]);
      ProgressHolds(c, xs, steps, store, h, l, ref, j);
      ReaderMoves(c, s, steps[j], l.id);
      assert BufOk(s, l.idx, Slice(s.calls[l.id].pc));
    }
  }

  lemma {:induction false} PlaceStays(c: Config, xs: seq<Hist>, steps: seq<Step>, store: Pieces, h: Hasher,
                                      l: Look, ref: nat, pos: nat, j: nat)
    requires CollisionFree(h) && Hashed(store, h) && c.known <= store.Keys
    requires HExecution(c, xs, steps, store, h) && Looks(xs, steps, l) && l.at < j < |xs|
    requires xs[l.at].s.pieces[l.idx].buf == Some(ref) && l.off < xs[l.at].s.pieces[l.idx].length
    requires NoWrite(xs, steps, l.idx, l.off, l.off + l.len, l.at, j) && l.off <= pos < l.off + l.len
    requires l.id in xs[j].s.calls && xs[j].s.calls[l.id].pc.ReadCopy?
    ensures ByteAt(At(xs[j].s.heap, ref), pos) == ByteAt(At(xs[l.at].s.heap, ref), pos)
  {
    var s := xs[j - 1].s;
    SliceHeld(c, xs, steps, store, h, l, ref, j - 1);
    assert Enabled(c, s, steps[j - 1]) && xs[j] == HNext(c, xs[j - 1], steps[j - 1]);
    assert !WritesAt(s, steps[j - 1], l.idx, pos);
    PlaceKeeps(c, s, steps[j - 1], l.idx, ref, pos);
    if l.at < j - 1 {
      PlaceStays(c, xs, steps, store, h, l, ref, pos, j - 1);
    }
  }

  /** Hence a ReadAt of a written piece returns exactly the bytes last written when it
      looked, if no WriteAt writes to that range before it is done: whether they were still
      in RAM or already in the store, and whatever else runs meanwhile, writes to the rest of
      the piece included; unless the store read itself fails. */
  lemma ReadsLastWritten(c: Config, xs: seq<Hist>, steps: seq<Step>, store: Pieces, h: Hasher, l: Look, i: nat)
    requires CollisionFree(h) && Hashed(store, h) && c.known <= store.Keys
    requires HExecution(c, xs, steps, store, h) && Looks(xs, steps, l) && l.at < i < |xs|
    requires l.id in xs[i].s.calls && xs[i].s.calls[l.id].pc.Returned? && l.idx in xs[l.at].image
    requires NoWrite(xs, steps, l.idx, l.off, l.off + l.len, l.at, i)
    ensures var r := xs[i].s.calls[l.id].pc.result;
            || r == ReadResult(xs[l.at].image[l.idx], l.off, l.len)
            || (r == ReadError && xs[l.at].s.pieces[l.idx].buf.None?)
  {
    AlwaysFine(c, xs, steps, store, h, l.at);
    var p := xs[l.at].s.pieces[l.idx];
    assert PieceFine(xs[l.at], l.idx, p) && BufOk(xs[l.at].s, l.idx, p.buf);
    if p.buf.None? {
      ReadsFromStore(c, xs, steps, store, h, l, i);
    } else {
      ReadsFromBuffer(c, xs, steps, store, h, l, i);
      if l.off < p.length {
        SeenIsImage(c, xs, steps, store, h, l, p.buf.value, xs[i].s.calls[l.id].pc.result.data, i);
      }
    }
  }

  lemma SeenIsImage(c: Config, xs: seq<Hist>, steps: seq<Step>, store: Pieces, h: Hasher, l: Look, ref: nat,
                    data: Bytes, i: nat)
    requires CollisionFree(h) && Hashed(store, h) && c.known <= store.Keys
    requires HExecution(c, xs, steps, store, h) && Looks(xs, steps, l) && l.at < i < |xs|
    requires xs[l.at].s.pieces[l.idx].buf == Some(ref) && l.off < xs[l.at].s.pieces[l.idx].length
    requires NoWrite(xs, steps, l.idx, l.off, l.off + l.len, l.at, i)
    requires BytesSeen(xs, steps, l, ref, data, i) && |data| <= l.len
    requires l.off + |data| <= |At(xs[l.at].s.heap, ref)|
    ensures data == At(xs[l.at].s.heap, ref)[l.off .. l.off + |data|]
  {
    forall k | 0 <= k < |data|
      ensures data[k] == At(xs[l.at].s.heap, ref)[l.off + k]
    {
      var j: nat :| j < i && Copied(xs, steps, l, ref, k, data[k], j);
      assert Enabled(c, xs[j].s, steps[j]);
      assert NoWrite(xs, steps, l.idx, l.off, l.off + l.len, l.at, j);
      PlaceStays(c, xs, steps, store, h, l, ref, l.off + k, j);
    }
  }

  // ---------- What was written is read back

  /** The last section of a WriteAt: step `at`, of call `id` on piece `idx`. */
  datatype Write = Write(at: nat, id: nat, idx: nat, off: nat, data: Bytes)

  /** Step `w.at` is that section, and the WriteAt answers success. */
  ghost predicate EndsWrite(xs: seq<Hist>, steps: seq<Step>, w: Write, n: nat) {
    && w.at < |steps| < |xs| && steps[w.at] == Act(w.id) && w.id in xs[w.at].s.calls
    && (|| xs[w.at].s.calls[w.id] == Call(w.idx, WriteStart(w.off, w.data))
        || xs[w.at].s.calls[w.id] == Call(w.idx, WriteHeld(w.off, w.data)))
    && w.id in xs[w.at + 1].s.calls && xs[w.at + 1].s.calls[w.id].pc == Returned(Wrote(n))
  }

  /** No MarkNotComplete clears the piece between the two states. */
  ghost predicate NoClear(xs: seq<Hist>, steps: seq<Step>, idx: nat, a: nat, i: nat) {
    forall j {:trigger Clears(xs[j].s, steps[j], idx)} | a <= j < i && j < |steps| < |xs| ::
      !Clears(xs[j].s, steps[j], idx)
  }

  ghost predicate Clears(s: State, step: Step, idx: nat) {
    step.Act? && step.id in s.calls && s.calls[step.id].idx == idx && s.calls[step.id].pc.UnmarkStart?
  }

  /** The image of the piece has `data` where `w` wrote it, as far as [lo, hi) goes. */
  ghost predicate HasData(x: Hist, w: Write, lo: nat, hi: nat) {
    && w.idx in x.image && hi <= |x.image[w.idx]| && w.off <= lo && hi <= w.off + |w.data|
    && forall k {:trigger x.image[w.idx][k]} | lo <= k < hi :: x.image[w.idx][k] == w.data[k - w.off]
  }

  lemma DataKept(c: Config, x: Hist, step: Step, w: Write, lo: nat, hi: nat)
    requires Enabled(c, x.s, step) && HasData(x, w, lo, hi) && !Clears(x.s, step, w.idx)
    requires forall k {:trigger WritesAt(x.s, step, w.idx, k)} | lo <= k < hi :: !WritesAt(x.s, step, w.idx, k)
    ensures HasData(HNext(c, x, step), w, lo, hi)
  {
    var y := HNext(c, x, step);
    if step.Act? && x.s.calls[step.id].idx == w.idx && Writes(x.s.pieces[w.idx], x.s.calls[step.id].pc) {
      var pc := x.s.calls[step.id].pc;
      assert y.image[w.idx] == Written(x.image[w.idx], pc.off, pc.data);
      forall k {:trigger y.image[w.idx][k]} | lo <= k < hi
        ensures y.image[w.idx][k] == w.data[k - w.off]
      {
        assert !WritesAt(x.s, step, w.idx, k);
        WrittenAt(x.image[w.idx], pc.off, pc.data, k);
      }
    }
  }

  lemma WriteEnds(c: Config, xs: seq<Hist>, steps: seq<Step>, store: Pieces, h: Hasher, w: Write, n: nat)
    requires CollisionFree(h) && Hashed(store, h) && c.known <= store.Keys
    requires HExecution(c, xs, steps, store, h) && EndsWrite(xs, steps, w, n)
    ensures w.idx in xs[w.at].s.pieces && WriteDone(xs[w.at].s, xs[w.at + 1].s, w.id, w.idx, w.off, w.data)
  {
    var s := xs[w.at].s;
    AlwaysFine(c, xs, steps, store, h, w.at);
    assert Enabled(c, s, steps[w.at]) && xs[w.at + 1] == HNext(c, xs[w.at], steps[w.at]);
    assert BufOk(s, w.idx, s.pieces[w.idx].buf);
    WriterDone(c, s, w.id);
  }

  lemma DoneIsData(s: State, y: Hist, w: Write, n: nat)
    requires w.idx in s.pieces && WriteDone(s, y.s, w.id, w.idx, w.off, w.data)
    requires y.s.calls[w.id].pc == Returned(Wrote(n)) && PieceFine(y, w.idx, y.s.pieces[w.idx])
    ensures n == |w.data| && HasData(y, w, w.off, w.off + |w.data|)
  {
    forall k {:trigger y.image[w.idx][k]} | w.off <= k < w.off + |w.data|
      ensures y.image[w.idx][k] == w.data[k - w.off]
    {
      assert Under(y.s, w.idx, k) == w.data[k - w.off];
    }
  }

  lemma DataThere(c: Config, xs: seq<Hist>, steps: seq<Step>, store: Pieces, h: Hasher, w: Write, n: nat)
    requires CollisionFree(h) && Hashed(store, h) && c.known <= store.Keys
    requires HExecution(c, xs, steps, store, h) && EndsWrite(xs, steps, w, n)
    ensures n == |w.data| && HasData(xs[w.at + 1], w, w.off, w.off + |w.data|)
  {
    WriteEnds(c, xs, steps, store, h, w, n);
    AlwaysFine(c, xs, steps, store, h, w.at + 1);
    assert PieceFine(xs[w.at + 1], w.idx, xs[w.at + 1].s.pieces[w.idx]);
    DoneIsData(xs[w.at].s, xs[w.at + 1], w, n);
  }

  lemma {:induction false} DataStays(c: Config, xs: seq<Hist>, steps: seq<Step>, store: Pieces, h: Hasher,
                                     w: Write, n: nat, lo: nat, hi: nat, m: nat)
    requires CollisionFree(h) && Hashed(store, h) && c.known <= store.Keys
    requires HExecution(c, xs, steps, store, h) && EndsWrite(xs, steps, w, n) && w.at < m < |xs|
    requires w.off <= lo && hi <= w.off + |w.data| && NoClear(xs, steps, w.idx, w.at + 1, m)
    requires NoWrite(xs, steps, w.idx, lo, hi, w.at + 1, m)
    ensures HasData(xs[m], w, lo, hi)
  {
    if m == w.at + 1 {
      DataThere(c, xs, steps, store, h, w, n);
    } else {
      DataStays(c, xs, steps, store, h, w, n, lo, hi, m - 1);
      assert Enabled(c, xs[m - 1].s, steps[m - 1]) && xs[m] == HNext(c, xs[m - 1], steps[m - 1]);
      assert !Clears(xs[m - 1].s, steps[m - 1], w.idx);
      DataKept(c, xs[m - 1], steps[m - 1], w, lo, hi);
    }
  }

  /** A ReadAt of what a WriteAt wrote, or of a part of it, returns exactly those bytes, if no
      other WriteAt covers a byte of the range before it is done and no MarkNotComplete cleared
      the piece before it looked; whether they are still in RAM or already in the store, unless
      the store read fails. And the WriteAt has answered that it wrote all it was given. */
  lemma ReadsBack(c: Config, xs: seq<Hist>, steps: seq<Step>, store: Pieces, h: Hasher, w: Write, n: nat, l: Look,
                  i: nat)
    requires CollisionFree(h) && Hashed(store, h) && c.known <= store.Keys
    requires HExecution(c, xs, steps, store, h) && EndsWrite(xs, steps, w, n) && Looks(xs, steps, l)
    requires w.at < l.at < i < |xs| && l.idx == w.idx && l.id in xs[i].s.calls && xs[i].s.calls[l.id].pc.Returned?
    requires w.off <= l.off && 0 < l.len && l.off + l.len <= w.off + |w.data|
    requires NoWrite(xs, steps, w.idx, l.off, l.off + l.len, w.at + 1, i) && NoClear(xs, steps, w.idx, w.at + 1, l.at)
    ensures n == |w.data|
    ensures var r := xs[i].s.calls[l.id].pc.result;
            || r == ReadBytes(w.data[l.off - w.off .. l.off - w.off + l.len])
            || (r == ReadError && xs[l.at].s.pieces[l.idx].buf.None?)
  {
    var lo, hi := l.off, l.off + l.len;
    DataThere(c, xs, steps, store, h, w, n);
    NoWriteLater(xs, steps, w.idx, lo, hi, w.at + 1, l.at, i);
    DataStays(c, xs, steps, store, h, w, n, lo, hi, l.at);
    ReadsLastWritten(c, xs, steps, store, h, l, i);
    DataSlice(xs[l.at], w, lo, hi);
  }

  lemma NoWriteLater(xs: seq<Hist>, steps: seq<Step>, idx: nat, lo: nat, hi: nat, a: nat, b: nat, i: nat)
    requires a <= b <= i && NoWrite(xs, steps, idx, lo, hi, a, i)
    ensures NoWrite(xs, steps, idx, lo, hi, b, i) && NoWrite(xs, steps, idx, lo, hi, a, b)
  {}

  lemma DataSlice(x: Hist, w: Write, lo: nat, hi: nat)
    requires HasData(x, w, lo, hi) && lo < hi
    ensures ReadResult(x.image[w.idx], lo, hi - lo) == ReadBytes(w.data[lo - w.off .. hi - w.off])
  {
    assert x.image[w.idx][lo .. hi] == w.data[lo - w.off .. hi - w.off];
  }

  // ---------- A torn read

  /** One piece of two bytes, written once: zeros. */
  lemma TwoZeros(c: Config, h: Hasher) returns (t: Trace)
    requires c.inflight > 0
    ensures Runs(c, t, h, true) && Never(t.xs, 0, [0, 7]) && Last(t).image == map[0 := [0, 0]]
    ensures Last(t).s == State(map[0 := Piece("a", 2, Some(0), false)], map[1 := Call(0, Returned(Wrote(2)))],
                               [[0, 0]], 1, 0, map[])
  {
    var t0 := Start(c, h, true);
    var t1 := ThenNever(c, t0, h, true, Open(0, "a", 2), 0, [0, 7]);
    t := Fill(c, t1, h, true, 1, 0, [0, 0], 0, [0, 7]);
  }

  /** A ReadAt looks and copies the first byte. */
  lemma CopiesFirst(c: Config, h: Hasher) returns (t: Trace, a: nat)
    requires c.inflight > 0
    ensures Runs(c, t, h, true) && Never(t.xs, 0, [0, 7]) && Last(t).image == map[0 := [0, 0]]
    ensures Looks(t.xs, t.steps, Look(a, 2, 0, 0, 2)) && t.xs[a].image == map[0 := [0, 0]]
    ensures Last(t).s.pieces == map[0 := Piece("a", 2, Some(0), false)] && Last(t).s.heap == [[0, 0]]
    ensures Last(t).s.calls
            == map[1 := Call(0, Returned(Wrote(2))), 2 := Call(0, ReadCopy(0, 0, [Some(0), None]))]
  {
    var t1 := TwoZeros(c, h);
    var t2 := BeginAct(c, t1, h, true, 2, 0, ReadStart(0, 2), [0, 7]);
    assert Blank(2) == [None, None];
    assert Last(t2).s.calls[2] == Call(0, ReadCopy(0, 0, [None, None]));
    t := ThenNever(c, t2, h, true, Copy(2, 0), 0, [0, 7]);
    a := |t1.steps| + 1;
    assert t.steps[a] == Act(2) && t.xs[a] == HNext(c, Last(t1), Begin(2, 0, ReadStart(0, 2)));
    assert [None, None][0 := Some(0 as byte)] == [Some(0), None];
  }

  /** A WriteAt over both bytes runs before the ReadAt copies the second one. */
  lemma OverwritesBoth(c: Config, h: Hasher) returns (t: Trace, a: nat)
    requires c.inflight > 0
    ensures Runs(c, t, h, true) && Never(t.xs, 0, [0, 7])
    ensures Looks(t.xs, t.steps, Look(a, 2, 0, 0, 2)) && t.xs[a].image == map[0 := [0, 0]]
    ensures 0 in Last(t).s.pieces && Last(t).s.heap == [[7, 7]] && Last(t).image == map[0 := [7, 7]]
    ensures 2 in Last(t).s.calls && Last(t).s.calls[2] == Call(0, ReadCopy(0, 0, [Some(0), None]))
  {
    var t1: Trace;
    t1, a := CopiesFirst(c, h);
    SpliceAll([0, 0], [7, 7]);
    t := BeginAct(c, t1, h, true, 3, 0, WriteStart(0, [7, 7]), [0, 7]);
    assert [[0, 0]][0 := [7, 7]] == [[7 as byte, 7]];
    assert t.steps[a] == t1.steps[a] && t.xs[a] == t1.xs[a];
  }

  /** Without that condition a ReadAt may return what the piece never held: one WriteAt
      that runs between the copies of two bytes is enough. */
  lemma TornRead(c: Config, h: Hasher) returns (t: Trace, a: nat)
    requires c.inflight > 0
    ensures HExecution(c, t.xs, t.steps, map[], h)
    ensures Looks(t.xs, t.steps, Look(a, 2, 0, 0, 2)) && a < |t.steps| && 2 in Last(t).s.calls
    ensures Last(t).s.calls[2].pc == Returned(ReadBytes([0, 7]))
    ensures Never(t.xs, 0, [0, 7])
  {
    var t1: Trace;
    t1, a := OverwritesBoth(c, h);
    var t2 := ThenNever(c, t1, h, true, Copy(2, 1), 0, [0, 7]);
    assert [Some(0 as byte), None][1 := Some(7)] == [Some(0), Some(7)];
    t := ThenNever(c, t2, h, true, Act(2), 0, [0, 7]);
    assert Values([Some(0), Some(7)]) == [0, 7];
    assert t.steps[a] == t1.steps[a] && t.xs[a] == t1.xs[a];
  }
}
