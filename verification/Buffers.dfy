/**
 In-flight piece buffers (fetch.go lines 20-247): WriteAt, MarkComplete, MarkNotComplete,
 Completion and ReadAt run concurrently over shared piece states. A mutex per piece, a
 semaphore of buffer slots (bufSem) and an upload semaphore (sem) guard them.

 Each mutex section is one step; acquiring and releasing a semaphore, uploading, failing
 to upload and reading the store are steps of their own. ReadAt copies from the slice it
 found after it has given the mutex back: each byte is a step, in any order. Any number of
 pieces and calls may be pending, in any order. Nothing here assumes anything about the
 caller.
 */
module Buffers {
  import opened Streams
  import opened Stores
  import opened Recency

  /** The state behind all facades of one piece; `buf` is the number of an allocation. */
  datatype Piece = Piece(hash: string, length: nat, buf: Option<nat>, complete: bool)

  /** The byte slices allocated so far. Slices are shared: a call may still hold one that
      its piece has given up. */
  type Heap = seq<Bytes>

  function At(heap: Heap, ref: nat): Bytes {
    if ref < |heap| then heap[ref] else []
  }

  function ByteAt(b: Bytes, k: nat): byte {
    if k < |b| then b[k] else 0
  }

  function Zeros(n: nat): Bytes {
    seq(n, _ => 0)
  }

  function Splice(b: Bytes, off: nat, data: Bytes): Bytes
    requires off + |data| <= |b|
  {
    b[..off] + data + b[off + |data|..]
  }

  /** The end of a WriteAt section: write in range, or nothing. */
  function Written(b: Bytes, off: nat, data: Bytes): (r: Bytes)
    ensures |r| == |b|
  {
    if off + |data| > |b| then b else Splice(b, off, data)
  }

  datatype Result = Wrote(n: nat) | ShortWrite | Marked | UploadError | Unmarked | IsComplete(complete: bool)
                  | ReadBytes(data: Bytes) | ReadEOF | ReadError

  /** Position by position: `data` where it goes if it fits, everything else as it was. */
  lemma WrittenAt(b: Bytes, off: nat, data: Bytes, k: nat)
    requires k < |b|
    ensures Written(b, off, data)[k] == if off + |data| <= |b| && off <= k < off + |data| then data[k - off] else b[k]
  {
    if off + |data| <= |b| {
      assert Splice(b, off, data) == b[..off] + data + b[off + |data|..];
    }
  }

  function WriteResult(b: Bytes, off: nat, data: Bytes): Result {
    if off + |data| > |b| then ShortWrite else Wrote(|data|)
  }

  /** `len` bytes of `b` from `off` on, as far as they go; past the end is EOF. */
  function ReadResult(b: Bytes, off: nat, len: nat): Result {
    if off >= |b| then ReadEOF else ReadBytes(b[off .. Min(off + len, |b|)])
  }

  /** Where a call is. */
  datatype Pc =
    | WriteStart(off: nat, data: Bytes)     // line 120
    | WriteWait(off: nat, data: Bytes)      // line 129: waiting for a slot
    | WriteHeld(off: nat, data: Bytes)      // line 130: slot acquired, not rechecked
    | MarkStart                             // line 190
    | MarkWait(slice: Option<nat>)          // line 195: waiting for sem
    | Uploading(slice: Option<nat>)         // line 198
    | Marking                               // line 200
    | MarkRelease                           // line 207: buffer freed, slot not yet given back
    | MarkLeave(ok: bool)                   // line 196: sem not yet given back
    | UnmarkStart                           // line 213
    | UnmarkRelease                         // line 220
    | CompStart                             // line 227
    | CompSet                               // line 239
    | ReadStart(off: nat, len: nat)         // line 156
    | ReadCopy(ref: nat, off: nat, got: seq<Option<byte>>) // line 166: the bytes copied so far
    | ReadStore(off: nat, len: nat)         // line 175
    | Returned(result: Result)

  datatype Call = Call(idx: nat, pc: Pc)

  datatype Config = Config(inflight: nat, upSem: nat, known: set<string>)

  /** `slots` and `sem` count the tokens in the two channels. */
  datatype State = State(
    pieces: map<nat, Piece>, calls: map<nat, Call>, heap: Heap, slots: nat, sem: nat, store: Pieces)

  datatype Step =
    | Open(idx: nat, hash: string, length: nat)  // a fresh facade: stateFor
    | Begin(id: nat, idx: nat, pc: Pc)
    | Act(id: nat)
    | Copy(id: nat, at: nat)                     // one byte of a ReadAt
    | Fail(id: nat)                              // the upload, or the read from the store, fails

  predicate Starting(pc: Pc) {
    pc.WriteStart? || pc.MarkStart? || pc.UnmarkStart? || pc.CompStart? || pc.ReadStart?
  }

  predicate Full(got: seq<Option<byte>>) {
    forall k | 0 <= k < |got| :: got[k].Some?
  }

  function Values(got: seq<Option<byte>>): Bytes {
    seq(|got|, k requires 0 <= k < |got| => if got[k].Some? then got[k].value else 0)
  }

  /** When a pending call can go on. Receives from a channel wait for a token. */
  predicate CanAct(c: Config, s: State, call: Call) {
    call.idx in s.pieces &&
    match call.pc
    case WriteWait(_, _) => s.slots < c.inflight
    case WriteHeld(_, _) => s.pieces[call.idx].buf.None? || s.slots > 0
    case MarkWait(_) => s.sem < c.upSem
    case MarkRelease => s.slots > 0
    case UnmarkRelease => s.slots > 0
    case MarkLeave(_) => s.sem > 0
    case ReadCopy(_, _, got) => Full(got)
    case ReadStore(_, _) => s.pieces[call.idx].hash in s.store
    case Returned(_) => false
    case _ => true
  }

  predicate Enabled(c: Config, s: State, step: Step) {
    match step
    case Open(_, _, _) => true
    case Begin(id, idx, pc) => id !in s.calls && idx in s.pieces && Starting(pc)
    case Act(id) => id in s.calls && CanAct(c, s, s.calls[id])
    case Copy(id, at) =>
      id in s.calls && s.calls[id].pc.ReadCopy? && at < |s.calls[id].pc.got| && s.calls[id].pc.got[at].None?
    case Fail(id) => id in s.calls && (s.calls[id].pc.Uploading? || s.calls[id].pc.ReadStore?)
  }

  function Goto(s: State, id: nat, pc: Pc): State
    requires id in s.calls
  {
    s.(calls := s.calls[id := s.calls[id].(pc := pc)])
  }

  function SetPiece(s: State, idx: nat, p: Piece): State {
    s.(pieces := s.pieces[idx := p])
  }

  function WriteInto(s: State, ref: nat, off: nat, data: Bytes): State {
    if ref < |s.heap| then s.(heap := s.heap[ref := Written(s.heap[ref], off, data)]) else s
  }

  /** The bytes an upload sends; a piece without a buffer has none. */
  function Sent(heap: Heap, slice: Option<nat>): Bytes {
    if slice.Some? then At(heap, slice.value) else []
  }

  function Blank(n: nat): seq<Option<byte>> {
    seq(n, _ => None)
  }

  /** Where a ReadAt goes that found the slice `ref`. */
  function CopyFrom(heap: Heap, ref: nat, off: nat, len: nat): Pc {
    var b := At(heap, ref);
    if off >= |b| then Returned(ReadEOF) else ReadCopy(ref, off, Blank(Min(off + len, |b|) - off))
  }

  function ActNext(c: Config, s: State, id: nat): State
    requires id in s.calls && CanAct(c, s, s.calls[id])
  {
    var idx := s.calls[id].idx;
    var p := s.pieces[idx];
    match s.calls[id].pc
    case WriteStart(off, data) =>
      if p.buf.None? then Goto(s, id, WriteWait(off, data))
      else Goto(WriteInto(s, p.buf.value, off, data), id, Returned(WriteResult(At(s.heap, p.buf.value), off, data)))
    case WriteWait(off, data) => Goto(s, id, WriteHeld(off, data)).(slots := s.slots + 1)
    case WriteHeld(off, data) =>
      if p.buf.None? then
        var b := Zeros(p.length);
        Goto(SetPiece(s, idx, p.(buf := Some(|s.heap|))), id, Returned(WriteResult(b, off, data)))
          .(heap := s.heap + [Written(b, off, data)])
      else
        Goto(WriteInto(s, p.buf.value, off, data), id, Returned(WriteResult(At(s.heap, p.buf.value), off, data)))
          .(slots := s.slots - 1)
    case MarkStart => Goto(s, id, MarkWait(p.buf))
    case MarkWait(slice) => Goto(s, id, Uploading(slice)).(sem := s.sem + 1)
    case Uploading(slice) => Goto(s, id, Marking).(store := s.store[p.hash := Sent(s.heap, slice)])
    case Marking =>
      Goto(SetPiece(s, idx, p.(complete := true, buf := None)), id,
           if p.buf.Some? then MarkRelease else MarkLeave(true))
    case MarkRelease => Goto(s, id, MarkLeave(true)).(slots := s.slots - 1)
    case MarkLeave(ok) => Goto(s, id, Returned(if ok then Marked else UploadError)).(sem := s.sem - 1)
    case UnmarkStart =>
      Goto(SetPiece(s, idx, p.(complete := false, buf := None)), id,
           if p.buf.Some? then UnmarkRelease else Returned(Unmarked))
    case UnmarkRelease => Goto(s, id, Returned(Unmarked)).(slots := s.slots - 1)
    case CompStart =>
      Goto(s, id, if p.complete then Returned(IsComplete(true))
                  else if p.hash in c.known then CompSet else Returned(IsComplete(false)))
    case CompSet => Goto(SetPiece(s, idx, p.(complete := true)), id, Returned(IsComplete(true)))
    case ReadStart(off, len) =>
      Goto(s, id, if p.buf.Some? then CopyFrom(s.heap, p.buf.value, off, len)
                  else if p.complete then ReadStore(off, len) else Returned(ReadEOF))
    case ReadCopy(_, _, got) => Goto(s, id, Returned(ReadBytes(Values(got))))
    case ReadStore(off, len) => Goto(s, id, Returned(ReadResult(s.store[p.hash], off, len)))
    case Returned(_) => s
  }

  function CopyNext(s: State, id: nat, at: nat): State
    requires id in s.calls && s.calls[id].pc.ReadCopy? && at < |s.calls[id].pc.got|
  {
    var pc := s.calls[id].pc;
    Goto(s, id, pc.(got := pc.got[at := Some(ByteAt(At(s.heap, pc.ref), pc.off + at))]))
  }

  function Next(c: Config, s: State, step: Step): State
    requires Enabled(c, s, step)
  {
    match step
    case Open(idx, hash, length) =>
      if idx in s.pieces then s else SetPiece(s, idx, Piece(hash, length, None, false))
    case Begin(id, idx, pc) => s.(calls := s.calls[id := Call(idx, pc)])
    case Act(id) => ActNext(c, s, id)
    case Copy(id, at) => CopyNext(s, id, at)
    case Fail(id) => Goto(s, id, if s.calls[id].pc.Uploading? then MarkLeave(false) else Returned(ReadError))
  }

  function Init(store: Pieces): State {
    State(map[], map[], [], 0, 0, store)
  }

  /** A WriteAt that has not got to its end. */
  predicate Writing(pc: Pc) {
    pc.WriteStart? || pc.WriteWait? || pc.WriteHeld?
  }

  // ---------- The slot ledger

  datatype Tag = HoldsSlot | OwesSlot | HoldsSem

  /** WriteAts that acquired a slot but have not rechecked; Mark* calls that freed a buffer
      but have not given its slot back; uploads. */
  predicate Is(tag: Tag, pc: Pc) {
    match tag
    case HoldsSlot => pc.WriteHeld?
    case OwesSlot => pc.MarkRelease? || pc.UnmarkRelease?
    case HoldsSem => pc.Uploading? || pc.Marking? || pc.MarkRelease? || pc.MarkLeave?
  }

  ghost function Tagged(calls: map<nat, Call>, tag: Tag): set<nat> {
    set id | id in calls && Is(tag, calls[id].pc)
  }

  ghost function Buffered(pieces: map<nat, Piece>): set<nat> {
    set i | i in pieces && pieces[i].buf.Some?
  }

  ghost predicate Ledger(s: State) {
    && s.slots == |Buffered(s.pieces)| + |Tagged(s.calls, HoldsSlot)| + |Tagged(s.calls, OwesSlot)|
    && s.sem == |Tagged(s.calls, HoldsSem)|
  }

  ghost predicate Inv(c: Config, s: State) {
    && Ledger(s) && s.slots <= c.inflight && s.sem <= c.upSem
    && (forall id {:trigger s.calls[id]} | id in s.calls :: s.calls[id].idx in s.pieces)
  }

  function Bit(b: bool): int {
    if b then 1 else 0
  }

  lemma TaggedUpdate(calls: map<nat, Call>, id: nat, call: Call, tag: Tag)
    ensures |Tagged(calls[id := call], tag)|
            == |Tagged(calls, tag)| + Bit(Is(tag, call.pc)) - Bit(id in calls && Is(tag, calls[id].pc))
  {
    var was, now := Tagged(calls, tag), Tagged(calls[id := call], tag);
    assert now - {id} == was - {id};
    SizeWithout(was, id);
    SizeWithout(now, id);
  }

  lemma BufferedUpdate(pieces: map<nat, Piece>, i: nat, p: Piece)
    ensures |Buffered(pieces[i := p])|
            == |Buffered(pieces)| + Bit(p.buf.Some?) - Bit(i in pieces && pieces[i].buf.Some?)
  {
    var was, now := Buffered(pieces), Buffered(pieces[i := p]);
    assert now - {i} == was - {i};
    SizeWithout(was, i);
    SizeWithout(now, i);
  }

  lemma SizeWithout(s: set<nat>, x: nat)
    ensures |s| == |s - {x}| + Bit(x in s)
  {
    if x in s {
      assert s == s - {x} + {x};
    } else {
      assert s == s - {x};
    }
  }

  /** The four counts after one call and one piece changed. */
  lemma Counted(s: State, t: State, id: nat, call: Call, idx: nat, p: Piece)
    requires t.calls == s.calls[id := call] && t.pieces == s.pieces[idx := p]
    ensures forall tag ::
              |Tagged(t.calls, tag)|
              == |Tagged(s.calls, tag)| + Bit(Is(tag, call.pc)) - Bit(id in s.calls && Is(tag, s.calls[id].pc))
    ensures |Buffered(t.pieces)|
            == |Buffered(s.pieces)| + Bit(p.buf.Some?) - Bit(idx in s.pieces && s.pieces[idx].buf.Some?)
  {
    forall tag
      ensures |Tagged(t.calls, tag)|
              == |Tagged(s.calls, tag)| + Bit(Is(tag, call.pc)) - Bit(id in s.calls && Is(tag, s.calls[id].pc))
    {
      TaggedUpdate(s.calls, id, call, tag);
    }
    BufferedUpdate(s.pieces, idx, p);
  }

  /** Calls and pieces a step of call `id` may change. */
  lemma ActShape(c: Config, s: State, id: nat)
    requires id in s.calls && CanAct(c, s, s.calls[id])
    ensures var t, idx := ActNext(c, s, id), s.calls[id].idx;
            && id in t.calls && t.calls == s.calls[id := t.calls[id]] && t.calls[id].idx == idx
            && idx in t.pieces && t.pieces == s.pieces[idx := t.pieces[idx]]
            && t.pieces[idx].length == s.pieces[idx].length && t.pieces[idx].hash == s.pieces[idx].hash
  {}

  /** The tokens of bufSem move with the buffers and with what calls hold or owe. */
  ghost predicate TokensMatch(c: Config, s: State, t: State, id: nat)
    requires id in s.calls && s.calls[id].idx in s.pieces
  {
    var idx, pc := s.calls[id].idx, s.calls[id].pc;
    && id in t.calls && idx in t.pieces && (t.slots <= s.slots || t.slots <= c.inflight)
    && t.slots - s.slots == Bit(t.pieces[idx].buf.Some?) - Bit(s.pieces[idx].buf.Some?)
                            + Bit(Is(HoldsSlot, t.calls[id].pc)) - Bit(Is(HoldsSlot, pc))
                            + Bit(Is(OwesSlot, t.calls[id].pc)) - Bit(Is(OwesSlot, pc))
  }

  lemma WriterTokens(c: Config, s: State, id: nat)
    requires id in s.calls && CanAct(c, s, s.calls[id]) && Writing(s.calls[id].pc)
    ensures TokensMatch(c, s, ActNext(c, s, id), id)
  {}

  lemma OtherTokens(c: Config, s: State, id: nat)
    requires id in s.calls && CanAct(c, s, s.calls[id]) && !Writing(s.calls[id].pc)
    ensures TokensMatch(c, s, ActNext(c, s, id), id)
  {}

  lemma ActSlots(c: Config, s: State, id: nat)
    requires Inv(c, s) && id in s.calls && CanAct(c, s, s.calls[id])
    ensures var t := ActNext(c, s, id);
            && t.slots == |Buffered(t.pieces)| + |Tagged(t.calls, HoldsSlot)| + |Tagged(t.calls, OwesSlot)|
            && t.slots <= c.inflight
  {
    var t, idx := ActNext(c, s, id), s.calls[id].idx;
    ActShape(c, s, id);
    if Writing(s.calls[id].pc) {
      WriterTokens(c, s, id);
    } else {
      OtherTokens(c, s, id);
    }
    SlotCounts(s, t, id, idx);
  }

  lemma SlotCounts(s: State, t: State, id: nat, idx: nat)
    requires id in s.calls && id in t.calls && idx in s.pieces && idx in t.pieces
    requires t.calls == s.calls[id := t.calls[id]] && t.pieces == s.pieces[idx := t.pieces[idx]]
    ensures |Buffered(t.pieces)|
            == |Buffered(s.pieces)| + Bit(t.pieces[idx].buf.Some?) - Bit(s.pieces[idx].buf.Some?)
    ensures |Tagged(t.calls, HoldsSlot)|
            == |Tagged(s.calls, HoldsSlot)| + Bit(Is(HoldsSlot, t.calls[id].pc)) - Bit(Is(HoldsSlot, s.calls[id].pc))
    ensures |Tagged(t.calls, OwesSlot)|
            == |Tagged(s.calls, OwesSlot)| + Bit(Is(OwesSlot, t.calls[id].pc)) - Bit(Is(OwesSlot, s.calls[id].pc))
  {
    BufferedUpdate(s.pieces, idx, t.pieces[idx]);
    TaggedUpdate(s.calls, id, t.calls[id], HoldsSlot);
    TaggedUpdate(s.calls, id, t.calls[id], OwesSlot);
  }

  lemma ActSem(c: Config, s: State, id: nat)
    requires Inv(c, s) && id in s.calls && CanAct(c, s, s.calls[id])
    ensures var t := ActNext(c, s, id);
            t.sem == |Tagged(t.calls, HoldsSem)| && t.sem <= c.upSem
  {
    var t := ActNext(c, s, id);
    ActShape(c, s, id);
    TaggedUpdate(s.calls, id, t.calls[id], HoldsSem);
  }

  /** Every step of every call keeps the ledger, failed uploads included. */
  lemma StepKeeps(c: Config, s: State, step: Step)
    requires Inv(c, s) && Enabled(c, s, step)
    ensures Inv(c, Next(c, s, step))
  {
    var t := Next(c, s, step);
    match step
    case Open(idx, hash, length) =>
      if idx !in s.pieces {
        BufferedUpdate(s.pieces, idx, Piece(hash, length, None, false));
      }
    case Begin(id, idx, pc) => BeginKeeps(c, s, id, idx, pc);
    case Act(id) =>
      ActShape(c, s, id);
      ActSlots(c, s, id);
      ActSem(c, s, id);
    case Copy(id, _) => GotoKeeps(c, s, id, t.calls[id].pc);
    case Fail(id) => GotoKeeps(c, s, id, t.calls[id].pc);
  }

  lemma BeginKeeps(c: Config, s: State, id: nat, idx: nat, pc: Pc)
    requires Inv(c, s) && Enabled(c, s, Begin(id, idx, pc))
    ensures Inv(c, Next(c, s, Begin(id, idx, pc)))
  {
    var t := Next(c, s, Begin(id, idx, pc));
    assert t.pieces == s.pieces[idx := s.pieces[idx]];
    Counted(s, t, id, Call(idx, pc), idx, s.pieces[idx]);
  }

  /** A call that goes on without touching pieces, tokens or what it owes. */
  lemma GotoKeeps(c: Config, s: State, id: nat, pc: Pc)
    requires Inv(c, s) && id in s.calls && forall tag :: Is(tag, pc) <==> Is(tag, s.calls[id].pc)
    ensures Inv(c, Goto(s, id, pc))
  {
    var t, idx := Goto(s, id, pc), s.calls[id].idx;
    assert t.pieces == s.pieces[idx := s.pieces[idx]];
    Counted(s, t, id, t.calls[id], idx, s.pieces[idx]);
  }

  // ---------- Whole runs

  ghost predicate Execution(c: Config, states: seq<State>, steps: seq<Step>, store: Pieces) {
    && |states| == |steps| + 1 && states[0] == Init(store)
    && forall i {:trigger steps[i]} | 0 <= i < |steps| ::
         Enabled(c, states[i], steps[i]) && states[i + 1] == Next(c, states[i], steps[i])
  }

  /** The slot ledger holds in every reachable state of every interleaving. */
  lemma {:induction false} AlwaysLedger(c: Config, states: seq<State>, steps: seq<Step>, store: Pieces, i: nat)
    requires Execution(c, states, steps, store) && i < |states|
    ensures Inv(c, states[i])
  {
    if i == 0 {
      var s := Init(store);
      assert Buffered(s.pieces) == {} && forall tag :: Tagged(s.calls, tag) == {};
    } else {
      AlwaysLedger(c, states, steps, store, i - 1);
      assert Enabled(c, states[i - 1], steps[i - 1]);
      StepKeeps(c, states[i - 1], steps[i - 1]);
    }
  }

  lemma InTagged(calls: map<nat, Call>, id: nat, tag: Tag)
    requires id in calls && Is(tag, calls[id].pc)
    ensures |Tagged(calls, tag)| > 0
  {
    assert id in Tagged(calls, tag);
  }

  /** Hence a receive never blocks: whoever is about to give a token back finds one. */
  lemma ReceivesNeverBlock(c: Config, s: State, id: nat)
    requires Inv(c, s) && id in s.calls
    requires var pc := s.calls[id].pc;
             pc.WriteHeld? || pc.MarkRelease? || pc.UnmarkRelease? || pc.MarkLeave?
    ensures CanAct(c, s, s.calls[id])
  {
    var pc := s.calls[id].pc;
    InTagged(s.calls, id, if pc.WriteHeld? then HoldsSlot else if pc.MarkLeave? then HoldsSem else OwesSlot);
  }

  // ---------- Who holds which slice

  /** The slice a call holds on its own account. */
  function Slice(pc: Pc): Option<nat> {
    match pc
    case ReadCopy(ref, _, _) => Some(ref)
    case MarkWait(slice) => slice
    case Uploading(slice) => slice
    case _ => None
  }

  /** The allocation exists and is as long as piece `i`. */
  ghost predicate Fits(s: State, i: nat, ref: nat) {
    i in s.pieces && ref < |s.heap| && |s.heap[ref]| == s.pieces[i].length
  }

  /** No piece but `i` has it for a buffer. */
  ghost predicate Only(pieces: map<nat, Piece>, i: nat, ref: nat) {
    forall j {:trigger pieces[j]} | j in pieces && pieces[j].buf == Some(ref) :: j == i
  }

  ghost predicate CopyFits(s: State, call: Call) {
    call.pc.ReadCopy? && call.idx in s.pieces ==> call.pc.off + |call.pc.got| <= s.pieces[call.idx].length
  }

  ghost predicate BufOk(s: State, i: nat, buf: Option<nat>) {
    buf.Some? ==> Fits(s, i, buf.value) && Only(s.pieces, i, buf.value)
  }

  /** Buffers fit their pieces and are not shared between pieces; a slice some call still
      holds fits its piece and has not become another one's buffer. */
  ghost predicate HeapOk(s: State) {
    && (forall i {:trigger s.pieces[i]} | i in s.pieces :: BufOk(s, i, s.pieces[i].buf))
    && (forall id {:trigger s.calls[id]} | id in s.calls ::
          BufOk(s, s.calls[id].idx, Slice(s.calls[id].pc)) && CopyFits(s, s.calls[id]))
  }

  /** A step writes to the buffer of its own piece, or to a new one. */
  lemma ActHeap(c: Config, s: State, id: nat)
    requires id in s.calls && CanAct(c, s, s.calls[id])
    ensures var t, idx := ActNext(c, s, id), s.calls[id].idx;
            && |s.heap| <= |t.heap| && (forall r | 0 <= r < |s.heap| :: |t.heap[r]| == |s.heap[r]|)
            && idx in t.pieces
            && (t.pieces[idx].buf == s.pieces[idx].buf || t.pieces[idx].buf == None
                || (t.pieces[idx].buf == Some(|s.heap|) && |t.heap| == |s.heap| + 1
                    && |t.heap[|s.heap|]| == s.pieces[idx].length))
  {}

  /** What changes a slice is a WriteAt, whose piece then has it for a buffer. */
  lemma ActWrites(c: Config, s: State, id: nat, ref: nat)
    requires id in s.calls && CanAct(c, s, s.calls[id]) && ref < |s.heap|
    ensures var t, idx := ActNext(c, s, id), s.calls[id].idx;
            && ref < |t.heap| && idx in t.pieces
            && (t.heap[ref] == s.heap[ref]
                || (Writing(s.calls[id].pc) && s.pieces[idx].buf == t.pieces[idx].buf == Some(ref)))
  {}

  lemma BufKeeps(s: State, t: State, idx: nat, i: nat, buf: Option<nat>)
    requires idx in s.pieces && idx in t.pieces && t.pieces == s.pieces[idx := t.pieces[idx]]
    requires t.pieces[idx].length == s.pieces[idx].length
    requires |s.heap| <= |t.heap| && forall r | 0 <= r < |s.heap| :: |t.heap[r]| == |s.heap[r]|
    requires || t.pieces[idx].buf == s.pieces[idx].buf || t.pieces[idx].buf == None
             || t.pieces[idx].buf == Some(|s.heap|)
    requires BufOk(s, i, buf)
    ensures BufOk(t, i, buf)
  {}

  /** The slice a call takes is the buffer it found. */
  lemma ActSlice(c: Config, s: State, id: nat)
    requires id in s.calls && CanAct(c, s, s.calls[id]) && CopyFits(s, s.calls[id])
    requires BufOk(s, s.calls[id].idx, s.pieces[s.calls[id].idx].buf)
    ensures var t, idx := ActNext(c, s, id), s.calls[id].idx;
            && id in t.calls && CopyFits(t, t.calls[id])
            && (Slice(t.calls[id].pc) == None || Slice(t.calls[id].pc) == Slice(s.calls[id].pc)
                || Slice(t.calls[id].pc) == s.pieces[idx].buf)
  {}

  lemma NewBuf(s: State, t: State, idx: nat)
    requires idx in s.pieces && idx in t.pieces && t.pieces == s.pieces[idx := t.pieces[idx]]
    requires t.pieces[idx].buf == Some(|s.heap|) && |t.heap| == |s.heap| + 1
    requires |t.heap[|s.heap|]| == t.pieces[idx].length
    requires forall i {:trigger s.pieces[i]} | i in s.pieces :: BufOk(s, i, s.pieces[i].buf)
    ensures BufOk(t, idx, t.pieces[idx].buf)
  {
    forall j {:trigger t.pieces[j]} | j in t.pieces && j != idx
      ensures t.pieces[j].buf != Some(|s.heap|)
    {
      assert BufOk(s, j, s.pieces[j].buf);
    }
  }

  lemma HeapActPiece(c: Config, s: State, id: nat, i: nat)
    requires HeapOk(s) && id in s.calls && CanAct(c, s, s.calls[id]) && i in s.pieces
    ensures var t := ActNext(c, s, id); i in t.pieces && BufOk(t, i, t.pieces[i].buf)
  {
    var t, idx := ActNext(c, s, id), s.calls[id].idx;
    ActShape(c, s, id);
    ActHeap(c, s, id);
    if i == idx && t.pieces[idx].buf == Some(|s.heap|) && |t.heap| == |s.heap| + 1 {
      NewBuf(s, t, idx);
    } else {
      BufKeeps(s, t, idx, i, s.pieces[i].buf);
    }
  }

  lemma HeapActCall(c: Config, s: State, id: nat, j: nat)
    requires HeapOk(s) && id in s.calls && CanAct(c, s, s.calls[id]) && j in s.calls
    ensures var t := ActNext(c, s, id);
            j in t.calls && BufOk(t, t.calls[j].idx, Slice(t.calls[j].pc)) && CopyFits(t, t.calls[j])
  {
    var t, idx := ActNext(c, s, id), s.calls[id].idx;
    ActShape(c, s, id);
    ActHeap(c, s, id);
    BufKeeps(s, t, idx, s.calls[j].idx, Slice(s.calls[j].pc));
    if j == id {
      ActSlice(c, s, id);
      BufKeeps(s, t, idx, idx, s.pieces[idx].buf);
    }
  }

  /** A call that moves on without touching pieces or slices. */
  lemma HeapGoto(s: State, id: nat, pc: Pc)
    requires HeapOk(s) && id in s.calls
    requires Slice(pc) == None || Slice(pc) == Slice(s.calls[id].pc)
    requires CopyFits(s, Call(s.calls[id].idx, pc))
    ensures HeapOk(Goto(s, id, pc))
  {
    var t := Goto(s, id, pc);
    forall i {:trigger t.pieces[i]} | i in t.pieces
      ensures BufOk(t, i, t.pieces[i].buf)
    {
      assert BufOk(s, i, s.pieces[i].buf);
    }
    forall j {:trigger t.calls[j]} | j in t.calls
      ensures BufOk(t, t.calls[j].idx, Slice(t.calls[j].pc)) && CopyFits(t, t.calls[j])
    {
      assert BufOk(s, s.calls[j].idx, Slice(s.calls[j].pc)) && CopyFits(s, s.calls[j]);
    }
  }

  lemma HeapBegin(s: State, id: nat, idx: nat, pc: Pc)
    requires HeapOk(s) && id !in s.calls && Starting(pc)
    ensures HeapOk(s.(calls := s.calls[id := Call(idx, pc)]))
  {
    var t := s.(calls := s.calls[id := Call(idx, pc)]);
    forall i {:trigger t.pieces[i]} | i in t.pieces
      ensures BufOk(t, i, t.pieces[i].buf)
    {
      assert BufOk(s, i, s.pieces[i].buf);
    }
    forall j {:trigger t.calls[j]} | j in t.calls
      ensures BufOk(t, t.calls[j].idx, Slice(t.calls[j].pc)) && CopyFits(t, t.calls[j])
    {
      assert j != id ==> BufOk(s, s.calls[j].idx, Slice(s.calls[j].pc)) && CopyFits(s, s.calls[j]);
    }
  }

  lemma HeapOpen(s: State, idx: nat, p: Piece)
    requires HeapOk(s) && idx !in s.pieces && p.buf.None?
    requires forall id {:trigger s.calls[id]} | id in s.calls :: s.calls[id].idx in s.pieces
    ensures HeapOk(SetPiece(s, idx, p))
  {
    var t := SetPiece(s, idx, p);
    forall i {:trigger t.pieces[i]} | i in t.pieces
      ensures BufOk(t, i, t.pieces[i].buf)
    {
      assert i != idx ==> BufOk(s, i, s.pieces[i].buf);
    }
    forall j {:trigger t.calls[j]} | j in t.calls
      ensures BufOk(t, t.calls[j].idx, Slice(t.calls[j].pc)) && CopyFits(t, t.calls[j])
    {
      assert s.calls[j].idx in s.pieces && BufOk(s, s.calls[j].idx, Slice(s.calls[j].pc)) && CopyFits(s, s.calls[j]);
    }
  }

  lemma HeapAct(c: Config, s: State, id: nat)
    requires HeapOk(s) && id in s.calls && CanAct(c, s, s.calls[id])
    ensures HeapOk(ActNext(c, s, id))
  {
    var t := ActNext(c, s, id);
    ActShape(c, s, id);
    forall i {:trigger t.pieces[i]} | i in t.pieces
      ensures BufOk(t, i, t.pieces[i].buf)
    {
      HeapActPiece(c, s, id, i);
    }
    forall j {:trigger t.calls[j]} | j in t.calls
      ensures BufOk(t, t.calls[j].idx, Slice(t.calls[j].pc)) && CopyFits(t, t.calls[j])
    {
      HeapActCall(c, s, id, j);
    }
  }

  lemma HeapKeeps(c: Config, s: State, step: Step)
    requires HeapOk(s) && Enabled(c, s, step)
    requires forall id {:trigger s.calls[id]} | id in s.calls :: s.calls[id].idx in s.pieces
    ensures HeapOk(Next(c, s, step))
  {
    match step
    case Open(idx, hash, length) =>
      if idx !in s.pieces {
        HeapOpen(s, idx, Piece(hash, length, None, false));
      }
    case Begin(id, idx, pc) => HeapBegin(s, id, idx, pc);
    case Act(id) => HeapAct(c, s, id);
    case Copy(id, at) =>
      assert CopyFits(s, s.calls[id]);
      HeapGoto(s, id, CopyNext(s, id, at).calls[id].pc);
    case Fail(id) => HeapGoto(s, id, Next(c, s, step).calls[id].pc);
  }

  /** In every reachable state each buffer fits its piece and belongs to it alone. */
  lemma {:induction false} AlwaysHeap(c: Config, states: seq<State>, steps: seq<Step>, store: Pieces, i: nat)
    requires Execution(c, states, steps, store) && i < |states|
    ensures HeapOk(states[i])
  {
    if i > 0 {
      AlwaysHeap(c, states, steps, store, i - 1);
      AlwaysLedger(c, states, steps, store, i - 1);
      assert Enabled(c, states[i - 1], steps[i - 1]);
      HeapKeeps(c, states[i - 1], steps[i - 1]);
    }
  }

  // ---------- What a WriteAt does

  /** The bytes under a piece: its buffer, or the zeros it would get. */
  ghost function Under(s: State, idx: nat, k: nat): byte
    requires idx in s.pieces
  {
    if s.pieces[idx].buf.Some? then ByteAt(At(s.heap, s.pieces[idx].buf.value), k) else 0
  }

  /** After the last section of a WriteAt: it answers the length of `data` if that fits into
      the piece, and then `data` is there; else it answers a short write and the bytes are as
      they were. Either way the piece has a buffer. */
  ghost predicate WriteDone(s: State, t: State, id: nat, idx: nat, off: nat, data: Bytes)
    requires idx in s.pieces
  {
    var fits := off + |data| <= s.pieces[idx].length;
    && idx in t.pieces && t.pieces[idx].buf.Some? && t.pieces[idx].length == s.pieces[idx].length
    && id in t.calls && t.calls[id] == Call(idx, Returned(if fits then Wrote(|data|) else ShortWrite))
    && |At(t.heap, t.pieces[idx].buf.value)| == s.pieces[idx].length
    && forall k {:trigger Under(t, idx, k)} | 0 <= k < s.pieces[idx].length ::
         Under(t, idx, k) == if fits && off <= k < off + |data| then data[k - off] else Under(s, idx, k)
  }

  lemma WriterDone(c: Config, s: State, id: nat)
    requires id in s.calls && CanAct(c, s, s.calls[id]) && BufOk(s, s.calls[id].idx, s.pieces[s.calls[id].idx].buf)
    requires s.calls[id].pc.WriteHeld? || (s.calls[id].pc.WriteStart? && s.pieces[s.calls[id].idx].buf.Some?)
    ensures WriteDone(s, ActNext(c, s, id), id, s.calls[id].idx, s.calls[id].pc.off, s.calls[id].pc.data)
  {
    var t, idx, off, data := ActNext(c, s, id), s.calls[id].idx, s.calls[id].pc.off, s.calls[id].pc.data;
    var p := s.pieces[idx];
    var b := if p.buf.Some? then At(s.heap, p.buf.value) else Zeros(p.length);
    assert t.pieces[idx].buf.Some? && At(t.heap, t.pieces[idx].buf.value) == Written(b, off, data);
    forall k {:trigger Under(t, idx, k)} | 0 <= k < p.length
      ensures Under(t, idx, k)
              == if off + |data| <= p.length && off <= k < off + |data| then data[k - off] else Under(s, idx, k)
    {
      WrittenAt(b, off, data, k);
    }
  }

  /** In every run: a WriteAt waits exactly if its piece has no buffer when it looks, and
      otherwise, or once it holds a slot, writes and answers as it should. */
  lemma WriteAnswers(c: Config, states: seq<State>, steps: seq<Step>, store: Pieces, i: nat, id: nat)
    requires Execution(c, states, steps, store) && i < |steps| && steps[i] == Act(id)
    requires id in states[i].calls && Writing(states[i].calls[id].pc)
    ensures states[i].calls[id].idx in states[i].pieces
    ensures var s, t, call := states[i], states[i + 1], states[i].calls[id];
            if call.pc.WriteWait? || (call.pc.WriteStart? && s.pieces[call.idx].buf.None?)
            then id in t.calls && t.pieces == s.pieces && t.heap == s.heap && Writing(t.calls[id].pc)
            else WriteDone(s, t, id, call.idx, call.pc.off, call.pc.data)
  {
    var s, call := states[i], states[i].calls[id];
    assert Enabled(c, s, steps[i]) && states[i + 1] == Next(c, s, steps[i]);
    AlwaysHeap(c, states, steps, store, i);
    assert BufOk(s, call.idx, s.pieces[call.idx].buf);
    if call.pc.WriteHeld? || (call.pc.WriteStart? && s.pieces[call.idx].buf.Some?) {
      WriterDone(c, s, id);
    }
  }

  // ---------- Buffered bytes

  /** The bytes of a set of allocations. */
  ghost function Total(heap: Heap, refs: set<nat>): nat {
    if refs == {} then 0 else var r :| r in refs; |At(heap, r)| + Total(heap, refs - {r})
  }

  lemma {:induction false} TotalBound(heap: Heap, refs: set<nat>, longest: nat)
    requires forall r | r in refs :: |At(heap, r)| <= longest
    ensures Total(heap, refs) <= |refs| * longest
  {
    if refs != {} {
      var r :| r in refs && Total(heap, refs) == |At(heap, r)| + Total(heap, refs - {r});
      var rest := refs - {r};
      TotalBound(heap, rest, longest);
      SizeWithout(refs, r);
      PlusOne(|rest|, longest);
    }
  }

  lemma PlusOne(k: nat, n: nat)
    ensures (k + 1) * n == k * n + n
  {}

  /** The allocations that are buffers of some of the pieces. */
  ghost function Refs(pieces: map<nat, Piece>, held: set<nat>): set<nat>
    requires held <= Buffered(pieces)
  {
    set i | i in held :: pieces[i].buf.value
  }

  lemma {:induction false} RefsCount(pieces: map<nat, Piece>, held: set<nat>)
    requires held <= Buffered(pieces)
    requires forall i {:trigger pieces[i]} | i in held :: Only(pieces, i, pieces[i].buf.value)
    ensures |Refs(pieces, held)| == |held|
    decreases |held|
  {
    if held != {} {
      var i :| i in held;
      var rest := held - {i};
      SizeWithout(held, i);
      RefsCount(pieces, rest);
      assert Only(pieces, i, pieces[i].buf.value);
      assert Refs(pieces, held) - {pieces[i].buf.value} == Refs(pieces, rest);
      SizeWithout(Refs(pieces, held), pieces[i].buf.value);
    }
  }

  ghost function BufferRefs(s: State): set<nat> {
    Refs(s.pieces, Buffered(s.pieces))
  }

  /** As many allocations as pieces with a buffer. */
  lemma BufferRefsCount(s: State)
    requires HeapOk(s)
    ensures |BufferRefs(s)| == |Buffered(s.pieces)|
  {
    forall i {:trigger s.pieces[i]} | i in Buffered(s.pieces)
      ensures Only(s.pieces, i, s.pieces[i].buf.value)
    {
      assert BufOk(s, i, s.pieces[i].buf);
    }
    RefsCount(s.pieces, Buffered(s.pieces));
  }

  /** Buffered bytes never exceed InflightPieces times the longest piece. */
  lemma MemoryBound(c: Config, states: seq<State>, steps: seq<Step>, store: Pieces, i: nat, longest: nat)
    requires Execution(c, states, steps, store) && i < |states|
    requires forall j | j in states[i].pieces :: states[i].pieces[j].length <= longest
    ensures |BufferRefs(states[i])| == |Buffered(states[i].pieces)| <= c.inflight
    ensures Total(states[i].heap, BufferRefs(states[i])) <= c.inflight * longest
  {
    var s := states[i];
    AlwaysLedger(c, states, steps, store, i);
    AlwaysHeap(c, states, steps, store, i);
    BufferRefsCount(s);
    forall r | r in BufferRefs(s)
      ensures |At(s.heap, r)| <= longest
    {
      var j :| j in Buffered(s.pieces) && s.pieces[j].buf.value == r;
      assert BufOk(s, j, s.pieces[j].buf);
    }
    TotalBound(s.heap, BufferRefs(s), longest);
    MulMono(|BufferRefs(s)|, c.inflight, longest);
  }

  // ---------- Exactly which states cannot move

  ghost predicate Pending(s: State, id: nat) {
    id in s.calls && !s.calls[id].pc.Returned?
  }

  /** No pending call can take a step (new calls aside). */
  ghost predicate Stuck(c: Config, s: State) {
    forall id | Pending(s, id) ::
      !Enabled(c, s, Act(id)) && !Enabled(c, s, Fail(id)) && forall at :: !Enabled(c, s, Copy(id, at))
  }

  /** A call that is not waiting for a slot can go on, or the holder of the upload token
      it waits for can. */
  lemma OthersMove(c: Config, s: State, id: nat)
    requires Inv(c, s) && c.upSem > 0 && Pending(s, id) && !s.calls[id].pc.WriteWait?
    ensures !Stuck(c, s)
  {
    var call := s.calls[id];
    if call.pc.MarkWait? && s.sem >= c.upSem {
      assert Tagged(s.calls, HoldsSem) != {};
      var other :| other in Tagged(s.calls, HoldsSem);
      HolderMoves(c, s, other);
    } else if call.pc.ReadStore? {
      assert Enabled(c, s, Fail(id));
    } else if call.pc.ReadCopy? && !Full(call.pc.got) {
      var at: nat :| at < |call.pc.got| && call.pc.got[at].None?;
      assert Enabled(c, s, Copy(id, at));
    } else {
      if call.pc.WriteHeld? || call.pc.MarkRelease? || call.pc.UnmarkRelease? || call.pc.MarkLeave? {
        ReceivesNeverBlock(c, s, id);
      }
      assert s.calls[id].idx in s.pieces;
      assert Enabled(c, s, Act(id));
    }
  }

  lemma HolderMoves(c: Config, s: State, id: nat)
    requires Inv(c, s) && id in Tagged(s.calls, HoldsSem)
    ensures !Stuck(c, s)
  {
    var pc := s.calls[id].pc;
    if pc.MarkRelease? || pc.MarkLeave? {
      ReceivesNeverBlock(c, s, id);
    }
    assert s.calls[id].idx in s.pieces;
    assert Pending(s, id) && Enabled(c, s, Act(id));
  }

  /** A state with pending calls cannot move if and only if every pending call is a
      WriteAt waiting for a slot and exactly InflightPieces pieces hold buffers. So the
      two semaphores never wait on each other. */
  lemma StuckIff(c: Config, s: State)
    requires Inv(c, s) && c.upSem > 0 && (exists id :: Pending(s, id))
    ensures Stuck(c, s) <==>
              && (forall id | Pending(s, id) :: s.calls[id].pc.WriteWait?)
              && |Buffered(s.pieces)| == c.inflight
  {
    if id :| Pending(s, id) && !s.calls[id].pc.WriteWait? {
      OthersMove(c, s, id);
    } else {
      AllWaiting(s);
      assert s.slots == |Buffered(s.pieces)|;
      var id :| Pending(s, id);
      assert s.calls[id].idx in s.pieces;
      if s.slots < c.inflight {
        assert Enabled(c, s, Act(id));
      } else {
        WaitersStuck(c, s);
      }
    }
  }

  lemma AllWaiting(s: State)
    requires forall id | Pending(s, id) :: s.calls[id].pc.WriteWait?
    ensures |Tagged(s.calls, HoldsSlot)| == 0 && |Tagged(s.calls, OwesSlot)| == 0
  {
    forall id | id in s.calls
      ensures !s.calls[id].pc.WriteHeld? && !Is(OwesSlot, s.calls[id].pc)
    {
      if !s.calls[id].pc.Returned? {
        assert Pending(s, id);
      }
    }
    assert Tagged(s.calls, HoldsSlot) == {} && Tagged(s.calls, OwesSlot) == {};
  }

  lemma WaitersStuck(c: Config, s: State)
    requires s.slots >= c.inflight && forall id | Pending(s, id) :: s.calls[id].pc.WriteWait?
    ensures Stuck(c, s)
  {}

  // ---------- How writers get going again

  /** One step of a call's own, which does not block. */
  ghost predicate Moves(c: Config, s: State, id: nat, t: State) {
    id in s.calls && CanAct(c, s, s.calls[id]) && t == ActNext(c, s, id)
  }

  /** The call takes steps of its own, none of which blocks. */
  ghost predicate Path(c: Config, id: nat, path: seq<State>) {
    path != [] && forall k {:trigger path[k]} | 0 <= k < |path| - 1 :: Moves(c, path[k], id, path[k + 1])
  }

  /** Some buffer was given up: every waiting writer can acquire a slot. */
  ghost predicate WritersCanGo(c: Config, s: State, t: State) {
    forall w | w in s.calls && s.calls[w].pc.WriteWait? ::
      w in t.calls && t.calls[w] == s.calls[w] && CanAct(c, t, t.calls[w])
  }

  /** A Mark* about to clear a buffer frees a slot in two steps. */
  lemma ClearingFrees(c: Config, s: State, id: nat) returns (u: State, t: State)
    requires Inv(c, s) && id in s.calls && (s.calls[id].pc.UnmarkStart? || s.calls[id].pc.Marking?)
    requires s.calls[id].idx in Buffered(s.pieces)
    ensures Moves(c, s, id, u) && Moves(c, u, id, t) && t.slots == s.slots - 1 && WritersCanGo(c, s, t)
  {
    u := ActNext(c, s, id);
    StepKeeps(c, s, Act(id));
    ReceivesNeverBlock(c, u, id);
    t := ActNext(c, u, id);
    forall w | w in s.calls && s.calls[w].pc.WriteWait?
      ensures w in t.calls && t.calls[w] == s.calls[w] && CanAct(c, t, t.calls[w])
    {
      assert s.calls[w].idx in s.pieces;
    }
  }

  /** MarkNotComplete on any buffered piece unblocks the writers, even in a stuck state. */
  lemma UnmarkUnblocks(c: Config, s: State, id: nat, idx: nat) returns (path: seq<State>)
    requires Inv(c, s) && idx in Buffered(s.pieces) && id !in s.calls
    ensures Enabled(c, s, Begin(id, idx, UnmarkStart))
    ensures |path| == 3 && path[0] == Next(c, s, Begin(id, idx, UnmarkStart)) && Path(c, id, path)
    ensures WritersCanGo(c, s, path[2])
  {
    var s1 := Next(c, s, Begin(id, idx, UnmarkStart));
    StepKeeps(c, s, Begin(id, idx, UnmarkStart));
    var s2, s3 := ClearingFrees(c, s1, id);
    path := [s1, s2, s3];
    assert forall w | w in s.calls :: s1.calls[w] == s.calls[w];
  }

  /** So does MarkComplete, through its upload. */
  lemma MarkUnblocks(c: Config, s: State, id: nat, idx: nat) returns (path: seq<State>)
    requires Inv(c, s) && c.upSem > 0 && idx in Buffered(s.pieces) && id !in s.calls
    requires forall w | Pending(s, w) :: s.calls[w].pc.WriteWait?
    ensures Enabled(c, s, Begin(id, idx, MarkStart))
    ensures |path| == 6 && path[0] == Next(c, s, Begin(id, idx, MarkStart)) && Path(c, id, path)
    ensures WritersCanGo(c, s, path[5])
  {
    var s1 := Next(c, s, Begin(id, idx, MarkStart));
    StepKeeps(c, s, Begin(id, idx, MarkStart));
    NoUploads(s);
    assert s1.sem == s.sem == 0;
    var s2, s3, s4 := UploadRuns(c, s1, id);
    var s5, s6 := ClearingFrees(c, s4, id);
    path := [s1, s2, s3, s4, s5, s6];
    CanGoLater(c, s, s4, s6, id);
  }

  lemma CanGoLater(c: Config, s: State, u: State, t: State, id: nat)
    requires WritersCanGo(c, u, t) && id !in s.calls
    requires forall w | w in s.calls :: w in u.calls && u.calls[w] == s.calls[w]
    ensures WritersCanGo(c, s, t)
  {}

  lemma NoUploads(s: State)
    requires Ledger(s) && forall w | Pending(s, w) :: s.calls[w].pc.WriteWait?
    ensures s.sem == 0
  {
    forall w | w in s.calls
      ensures !Is(HoldsSem, s.calls[w].pc)
    {
      if !s.calls[w].pc.Returned? {
        assert Pending(s, w);
      }
    }
    assert Tagged(s.calls, HoldsSem) == {};
  }

  lemma UploadRuns(c: Config, s: State, id: nat) returns (u: State, v: State, t: State)
    requires Inv(c, s) && s.sem < c.upSem && id in s.calls && s.calls[id].pc.MarkStart?
    ensures Moves(c, s, id, u) && Moves(c, u, id, v) && Moves(c, v, id, t) && Inv(c, t)
    ensures id in t.calls && t.calls[id] == Call(s.calls[id].idx, Marking) && t.pieces == s.pieces && t.slots == s.slots
    ensures forall w | w in s.calls && w != id :: w in t.calls && t.calls[w] == s.calls[w]
  {
    assert s.calls[id].idx in s.pieces;
    u := ActNext(c, s, id);
    StepKeeps(c, s, Act(id));
    v := ActNext(c, u, id);
    StepKeeps(c, u, Act(id));
    t := ActNext(c, v, id);
    StepKeeps(c, v, Act(id));
  }

  // ---------- One WriteAt per piece

  /** No two WriteAts are pending on the same piece. */
  ghost predicate OneWriter(s: State) {
    forall a, b | a in s.calls && b in s.calls && Writing(s.calls[a].pc) && Writing(s.calls[b].pc)
               && s.calls[a].idx == s.calls[b].idx :: a == b
  }

  /** A writer waiting for a slot, or holding one, has no buffer on its piece yet. */
  ghost predicate WaitersBare(s: State) {
    forall w {:trigger s.calls[w]} | w in s.calls && (s.calls[w].pc.WriteWait? || s.calls[w].pc.WriteHeld?) ::
      s.calls[w].idx in s.pieces && s.pieces[s.calls[w].idx].buf.None?
  }

  lemma BareKeeps(c: Config, s: State, step: Step)
    requires Inv(c, s) && WaitersBare(s) && Enabled(c, s, step) && OneWriter(s)
    ensures WaitersBare(Next(c, s, step))
  {
    var t := Next(c, s, step);
    forall w {:trigger t.calls[w]} | w in t.calls && (t.calls[w].pc.WriteWait? || t.calls[w].pc.WriteHeld?)
      ensures t.calls[w].idx in t.pieces && t.pieces[t.calls[w].idx].buf.None?
    {
      if step.Act? {
        ActShape(c, s, step.id);
        BareAct(c, s, step.id, w);
      } else {
        assert w in s.calls && s.calls[w].idx in s.pieces;
      }
    }
  }

  lemma BareAct(c: Config, s: State, id: nat, w: nat)
    requires Inv(c, s) && WaitersBare(s) && OneWriter(s) && id in s.calls && CanAct(c, s, s.calls[id])
    requires var t := ActNext(c, s, id);
             w in t.calls && (t.calls[w].pc.WriteWait? || t.calls[w].pc.WriteHeld?)
    ensures var t := ActNext(c, s, id);
            t.calls[w].idx in t.pieces && t.pieces[t.calls[w].idx].buf.None?
  {
    ActShape(c, s, id);
    assert w in s.calls && s.calls[w].idx in s.pieces;
    if w == id {
      OwnBare(c, s, id);
    } else if s.calls[w].idx == s.calls[id].idx {
      assert !Writing(s.calls[id].pc);
      NoBuffer(c, s, id);
    }
  }

  /** A writer that waits, or holds a slot, leaves its piece alone. */
  lemma OwnBare(c: Config, s: State, id: nat)
    requires WaitersBare(s) && id in s.calls && CanAct(c, s, s.calls[id])
    requires var pc := ActNext(c, s, id).calls[id].pc; pc.WriteWait? || pc.WriteHeld?
    ensures var t := ActNext(c, s, id);
            t.calls[id].idx in t.pieces && t.pieces[t.calls[id].idx].buf.None?
  {}

  /** Only writers allocate. */
  lemma NoBuffer(c: Config, s: State, id: nat)
    requires id in s.calls && CanAct(c, s, s.calls[id]) && !Writing(s.calls[id].pc)
    requires s.pieces[s.calls[id].idx].buf.None?
    ensures ActNext(c, s, id).pieces[s.calls[id].idx].buf.None?
  {}

  /** With at most one WriteAt per piece at a time, every writer that waits for a slot
      waits on a piece without a buffer, so the buffers in the way belong to pieces that
      are done downloading or uploading. */
  lemma {:induction false} WaitersHaveNoBuffer(c: Config, states: seq<State>, steps: seq<Step>, store: Pieces, i: nat)
    requires Execution(c, states, steps, store) && i < |states| && forall j | 0 <= j < |states| :: OneWriter(states[j])
    ensures WaitersBare(states[i])
  {
    if i > 0 {
      WaitersHaveNoBuffer(c, states, steps, store, i - 1);
      AlwaysLedger(c, states, steps, store, i - 1);
      assert Enabled(c, states[i - 1], steps[i - 1]) && OneWriter(states[i - 1]);
      BareKeeps(c, states[i - 1], steps[i - 1]);
    }
  }

  // ---------- What MarkComplete's answer means

  /** Past the upload: the piece's key is in the store. */
  ghost predicate PastUpload(pc: Pc) {
    pc.Marking? || pc.MarkRelease? || pc == MarkLeave(true) || pc == Returned(Marked)
  }

  ghost predicate UploadsStored(s: State) {
    forall id {:trigger s.calls[id]} | id in s.calls && PastUpload(s.calls[id].pc) ::
      s.calls[id].idx in s.pieces && s.pieces[s.calls[id].idx].hash in s.store
  }

  lemma UploadedKeeps(c: Config, s: State, step: Step)
    requires UploadsStored(s) && Enabled(c, s, step)
    ensures UploadsStored(Next(c, s, step))
  {
    var t := Next(c, s, step);
    forall id {:trigger t.calls[id]} | id in t.calls && PastUpload(t.calls[id].pc)
      ensures t.calls[id].idx in t.pieces && t.pieces[t.calls[id].idx].hash in t.store
    {
      if step.Act? {
        ActShape(c, s, step.id);
        UploadedAct(c, s, step.id, id);
      } else {
        assert id in s.calls && PastUpload(s.calls[id].pc);
      }
    }
  }

  lemma UploadedAct(c: Config, s: State, id: nat, j: nat)
    requires UploadsStored(s) && id in s.calls && CanAct(c, s, s.calls[id])
    requires var t := ActNext(c, s, id); j in t.calls && PastUpload(t.calls[j].pc)
    ensures var t := ActNext(c, s, id); t.calls[j].idx in t.pieces && t.pieces[t.calls[j].idx].hash in t.store
  {
    ActShape(c, s, id);
    assert j in s.calls;
  }

  /** A MarkComplete that returns without an error has stored its piece, whatever other
      calls did meanwhile; one whose upload failed says so. */
  lemma {:induction false} MarkedIsStored(c: Config, states: seq<State>, steps: seq<Step>, store: Pieces, i: nat)
    requires Execution(c, states, steps, store) && i < |states|
    ensures UploadsStored(states[i])
  {
    if i > 0 {
      MarkedIsStored(c, states, steps, store, i - 1);
      assert Enabled(c, states[i - 1], steps[i - 1]);
      UploadedKeeps(c, states[i - 1], steps[i - 1]);
    }
  }

  /** Call `id` took the given way out of its upload between two states. */
  ghost predicate LeftUpload(states: seq<State>, steps: seq<Step>, id: nat, a: nat, i: nat, way: Step) {
    exists j {:trigger steps[j]} :: a <= j < i && j < |steps| && j < |states| && steps[j] == way
                                    && id in states[j].calls && states[j].calls[id].pc.Uploading?
  }

  ghost predicate Uploaded(states: seq<State>, steps: seq<Step>, id: nat, a: nat, i: nat) {
    LeftUpload(states, steps, id, a, i, Act(id))
  }

  ghost predicate UploadFailed(states: seq<State>, steps: seq<Step>, id: nat, a: nat, i: nat) {
    LeftUpload(states, steps, id, a, i, Fail(id))
  }

  /** A MarkComplete on its way: what it has done so far, by where it is. */
  ghost predicate MarkTold(pc: Pc, uploaded: bool, failed: bool) {
    match pc
    case MarkStart => !uploaded && !failed
    case MarkWait(_) => !uploaded && !failed
    case Uploading(_) => !uploaded && !failed
    case Marking => uploaded && !failed
    case MarkRelease => uploaded && !failed
    case MarkLeave(ok) => uploaded == ok && failed == !ok
    case Returned(r) => (r == Marked && uploaded && !failed) || (r == UploadError && failed && !uploaded)
    case _ => false
  }

  /** One step of a MarkComplete, as far as its answer goes. */
  lemma MarkMoves(c: Config, s: State, step: Step, id: nat, uploaded: bool, failed: bool)
    requires Enabled(c, s, step) && id in s.calls && MarkTold(s.calls[id].pc, uploaded, failed)
    ensures var t, here := Next(c, s, step), s.calls[id].pc.Uploading?;
            && id in t.calls && t.calls[id].idx == s.calls[id].idx
            && MarkTold(t.calls[id].pc, uploaded || (here && step == Act(id)), failed || (here && step == Fail(id)))
  {
    if step.Act? {
      ActShape(c, s, step.id);
    }
  }

  lemma LeftNext(states: seq<State>, steps: seq<Step>, id: nat, a: nat, i: nat, way: Step)
    requires a <= i < |steps| && i < |states|
    ensures LeftUpload(states, steps, id, a, i + 1, way)
            <==> LeftUpload(states, steps, id, a, i, way)
                 || (steps[i] == way && id in states[i].calls && states[i].calls[id].pc.Uploading?)
  {}

  lemma {:induction false} MarkTells(c: Config, states: seq<State>, steps: seq<Step>, store: Pieces,
                                     a: nat, i: nat, id: nat, idx: nat)
    requires Execution(c, states, steps, store) && a < i < |states| && steps[a] == Begin(id, idx, MarkStart)
    ensures id in states[i].calls && states[i].calls[id].idx == idx
    ensures MarkTold(states[i].calls[id].pc, Uploaded(states, steps, id, a, i), UploadFailed(states, steps, id, a, i))
  {
    var s, step := states[i - 1], steps[i - 1];
    assert Enabled(c, s, step) && states[i] == Next(c, s, step);
    LeftNext(states, steps, id, a, i - 1, Act(id));
    LeftNext(states, steps, id, a, i - 1, Fail(id));
    if i == a + 1 {
      assert !Uploaded(states, steps, id, a, i - 1) && !UploadFailed(states, steps, id, a, i - 1);
    } else {
      MarkTells(c, states, steps, store, a, i - 1, id, idx);
      MarkMoves(c, s, step, id, Uploaded(states, steps, id, a, i - 1), UploadFailed(states, steps, id, a, i - 1));
    }
  }

  /** A MarkComplete that has returned answers success if and only if its upload went through,
      and an error if and only if its upload failed. */
  lemma MarkAnswers(c: Config, states: seq<State>, steps: seq<Step>, store: Pieces, a: nat, i: nat, id: nat, idx: nat)
    requires Execution(c, states, steps, store) && a < i < |states| && steps[a] == Begin(id, idx, MarkStart)
    requires id in states[i].calls && states[i].calls[id].pc.Returned?
    ensures var r := states[i].calls[id].pc.result;
            && (r == Marked <==> Uploaded(states, steps, id, a, i))
            && (r == UploadError <==> UploadFailed(states, steps, id, a, i))
            && (r == Marked || r == UploadError)
  {
    MarkTells(c, states, steps, store, a, i, id, idx);
  }
}
