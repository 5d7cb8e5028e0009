/**
 The objects behind the facades (fetch.go): `pieceState`, whose mutex sections are the
 methods here, and the table `stateFor` fills. Each section is proved against a function on
 what a piece looks like, and `SectionsAgree` says that the steps of module Buffers, where
 the interleavings are studied, do the same.
 */
module PieceStates {
  import opened Streams
  import opened Stores
  import opened Recency
  import opened Buffers

  /** What a piece looks like under its mutex: the buffer is its bytes. */
  datatype View = View(hash: string, length: nat, buf: Option<Bytes>, complete: bool)

  function Content(v: View): Bytes {
    if v.buf.Some? then v.buf.value else Zeros(v.length)
  }

  /** A WriteAt that gets to its end, allocating if need be. */
  function AfterWrite(v: View, off: nat, data: Bytes): View {
    v.(buf := Some(Written(Content(v), off, data)))
  }

  class PieceState {
    const hash: string
    const length: nat
    var buf: array?<byte>
    var complete: bool

    constructor (hash: string, length: nat)
      ensures Abs() == View(hash, length, None, false) && buf == null
      ensures this.hash == hash && this.length == length
    {
      this.hash, this.length := hash, length;
      buf, complete := null, false;
    }

    ghost function Abs(): View
      reads this, buf
    {
      View(hash, length, if buf == null then None else Some(buf[..]), complete)
    }

    /** Lines 120-128, and 141-152 when the buffer exists already. */
    method WriteFirst(data: Bytes, off: nat) returns (wait: bool, r: Result)
      modifies buf
      ensures wait <==> buf == null
      ensures wait ==> Abs() == old(Abs())
      ensures !wait ==> Abs() == AfterWrite(old(Abs()), off, data) && r == WriteResult(Content(old(Abs())), off, data)
      ensures !wait ==> r == if off + |data| <= buf.Length then Wrote(|data|) else ShortWrite
      ensures forall k {:trigger buf[k]} | !wait && 0 <= k < buf.Length ::
                buf[k] == if off + |data| <= buf.Length && off <= k < off + |data| then data[k - off] else old(buf[k])
    {
      if buf == null {
        return true, ShortWrite;
      }
      r := Splash(data, off);
      return false, r;
    }

    /** Lines 130-152: allocate unless someone else did, then write. */
    method WriteHeld(data: Bytes, off: nat) returns (spare: bool, r: Result)
      modifies this`buf, buf
      ensures spare <==> old(buf) != null
      ensures buf != null && (buf == old(buf) || fresh(buf))
      ensures Abs() == AfterWrite(old(Abs()), off, data)
      ensures r == WriteResult(Content(old(Abs())), off, data)
      ensures old(buf) == null ==> buf.Length == length
      ensures r == if off + |data| <= buf.Length then Wrote(|data|) else ShortWrite
      ensures forall k {:trigger buf[k]} | 0 <= k < buf.Length ::
                buf[k] == if off + |data| <= buf.Length && off <= k < off + |data| then data[k - off]
                          else if old(buf) == null then 0 else old(buf[k])
    {
      spare := buf != null;
      if buf == null {
        buf := new byte[length](_ => 0);
        assert buf[..] == Zeros(length);
      }
      r := Splash(data, off);
    }

    /** Lines 141-152: the bytes go into the slice itself, whoever else holds it. */
    method Splash(data: Bytes, off: nat) returns (r: Result)
      requires buf != null
      modifies buf
      ensures buf[..] == Written(old(buf[..]), off, data) && r == WriteResult(old(buf[..]), off, data)
      ensures r == if off + |data| <= buf.Length then Wrote(|data|) else ShortWrite
      ensures forall k {:trigger buf[k]} | 0 <= k < buf.Length ::
                buf[k] == if off + |data| <= buf.Length && off <= k < off + |data| then data[k - off] else old(buf[k])
    {
      var end := off + |data|;
      if end > buf.Length {
        return ShortWrite;
      }
      for k := 0 to |data|
        invariant buf[..] == old(buf[..off]) + data[..k] + old(buf[off + k..])
      {
        buf[off + k] := data[k];
      }
      assert data[..|data|] == data;
      return Wrote(|data|);
    }

    /** Lines 156-159: all ReadAt does under the mutex is take the slice, not its bytes. */
    method Look() returns (slice: array?<byte>, done: bool)
      ensures slice == buf && done == complete
    {
      return buf, complete;
    }

    /** Lines 155-187, uninterrupted, up to the store read; `fromStore` when it is due. */
    method Read(off: nat, b: array<byte>) returns (fromStore: bool, n: nat, eof: bool)
      requires buf != b
      modifies b
      ensures fromStore <==> Abs().buf.None? && complete
      ensures n <= b.Length && b[n..] == old(b[n..])
      ensures !fromStore ==>
                (if eof then ReadEOF else ReadBytes(b[..n]))
                == if Abs().buf.Some? then ReadResult(Content(Abs()), off, b.Length) else ReadEOF
    {
      var slice, done := Look();
      if slice != null {
        n, eof := CopyOut(slice, off, b);
        return false, n, eof;
      }
      return done, 0, true;
    }

    /** Lines 200-204. */
    method FinishMark() returns (freed: bool)
      modifies this
      ensures freed <==> old(Abs()).buf.Some?
      ensures complete && buf == null
    {
      complete := true;
      freed := buf != null;
      buf := null;
    }

    /** Lines 213-217. */
    method Unmark() returns (freed: bool)
      modifies this
      ensures freed <==> old(Abs()).buf.Some?
      ensures !complete && buf == null
    {
      complete := false;
      freed := buf != null;
      buf := null;
    }

    /** Lines 226-247, uninterrupted. */
    method Completion(known: set<string>) returns (r: Result)
      modifies this`complete
      ensures r == IsComplete(old(complete) || hash in known)
      ensures Abs() == old(Abs()).(complete := old(complete) || hash in known)
    {
      if complete {
        return IsComplete(true);
      }
      if hash in known {
        complete := true;
        return IsComplete(true);
      }
      return IsComplete(false);
    }
  }

  /** Lines 161-168: the copy, which the mutex does not cover. Undisturbed it gives the
      slice's bytes from `off` on, as far as they and the request go. */
  method CopyOut(slice: array<byte>, off: nat, b: array<byte>) returns (n: nat, eof: bool)
    requires slice != b
    modifies b
    ensures eof <==> off >= slice.Length
    ensures n <= b.Length && b[n..] == old(b[n..])
    ensures ReadResult(slice[..], off, b.Length) == if eof then ReadEOF else ReadBytes(b[..n])
  {
    if off >= slice.Length {
      return 0, true;
    }
    n, eof := Min(b.Length, slice.Length - off), false;
    for k := 0 to n
      invariant forall j :: 0 <= j < k ==> b[j] == slice[off + j]
      invariant forall j :: k <= j < b.Length ==> b[j] == old(b[j])
    {
      b[k] := slice[off + k];
    }
    assert b[..n] == slice[off .. off + n];
  }

  class StateTable {
    var states: map<int, PieceState>

    constructor ()
      ensures states == map[]
    {
      states := map[];
    }

    /** `stateFor`: every facade of a piece shares one state, created on first use. */
    method StateFor(idx: int, hash: string, length: nat) returns (ps: PieceState)
      modifies this
      ensures idx in states && states[idx] == ps
      ensures idx in old(states) ==> states == old(states)
      ensures idx !in old(states) ==>
                fresh(ps) && states == old(states)[idx := ps] && ps.Abs() == View(hash, length, None, false)
    {
      if idx in states {
        return states[idx];
      }
      ps := new PieceState(hash, length);
      states := states[idx := ps];
    }
  }

  // ---------- The steps do the same

  ghost function ViewOf(s: State, idx: nat): View
    requires idx in s.pieces
  {
    var p := s.pieces[idx];
    View(p.hash, p.length, if p.buf.Some? then Some(At(s.heap, p.buf.value)) else None, p.complete)
  }

  /** What a step of call `id` makes of its piece, and where the call goes, as the methods say. */
  ghost predicate Agrees(known: set<string>, s: State, t: State, id: nat)
    requires id in s.calls && s.calls[id].idx in s.pieces && id in t.calls && s.calls[id].idx in t.pieces
  {
    var idx, pc := s.calls[id].idx, t.calls[id].pc;
    var was, now := ViewOf(s, idx), ViewOf(t, idx);
    match s.calls[id].pc
    case WriteStart(off, data) =>
      if was.buf.None? then now == was && pc == WriteWait(off, data)
      else now == AfterWrite(was, off, data) && pc == Returned(WriteResult(Content(was), off, data))
    case WriteWait(off, data) => now == was && pc == WriteHeld(off, data)
    case WriteHeld(off, data) =>
      && now == AfterWrite(was, off, data) && pc == Returned(WriteResult(Content(was), off, data))
      && t.slots == if was.buf.Some? then s.slots - 1 else s.slots
    case Marking =>
      && now == View(was.hash, was.length, None, true)
      && pc == if was.buf.Some? then MarkRelease else MarkLeave(true)
    case MarkRelease => now == was && pc == MarkLeave(true)
    case MarkLeave(ok) => now == was && pc == Returned(if ok then Marked else UploadError)
    case UnmarkStart =>
      && now == View(was.hash, was.length, None, false)
      && pc == if was.buf.Some? then UnmarkRelease else Returned(Unmarked)
    case UnmarkRelease => now == was && pc == Returned(Unmarked)
    case CompStart =>
      && now == was
      && (was.complete ==> pc == Returned(IsComplete(true)))
      && (!was.complete ==> pc == if was.hash in known then CompSet else Returned(IsComplete(false)))
    case CompSet => now == View(was.hash, was.length, was.buf, true) && pc == Returned(IsComplete(true))
    case ReadStart(off, len) =>
      && now == was
      && (was.buf.Some? ==> if off >= |was.buf.value| then pc == Returned(ReadEOF) else pc.ReadCopy?)
      && (was.buf.None? ==> pc == if was.complete then ReadStore(off, len) else Returned(ReadEOF))
    case _ => now == was
  }

  lemma WriterAgrees(c: Config, s: State, id: nat)
    requires id in s.calls && CanAct(c, s, s.calls[id]) && Writing(s.calls[id].pc)
    requires BufOk(s, s.calls[id].idx, s.pieces[s.calls[id].idx].buf)
    ensures var t := ActNext(c, s, id); id in t.calls && s.calls[id].idx in t.pieces && Agrees(c.known, s, t, id)
  {}

  lemma OtherAgrees(c: Config, s: State, id: nat)
    requires id in s.calls && CanAct(c, s, s.calls[id]) && !Writing(s.calls[id].pc)
    ensures var t := ActNext(c, s, id); id in t.calls && s.calls[id].idx in t.pieces && Agrees(c.known, s, t, id)
  {}

  /** In every run, each step does to its piece what the section's method does to the object,
      and leaves what the other pieces look like alone. */
  lemma SectionsAgree(c: Config, states: seq<State>, steps: seq<Step>, store: Pieces, i: nat, id: nat)
    requires Buffers.Execution(c, states, steps, store) && i < |steps| && steps[i] == Act(id)
    ensures var s, t := states[i], states[i + 1];
            && id in s.calls && s.calls[id].idx in s.pieces && id in t.calls && s.calls[id].idx in t.pieces
            && Agrees(c.known, s, t, id)
            && forall j | j in s.pieces && j != s.calls[id].idx :: j in t.pieces && ViewOf(t, j) == ViewOf(s, j)
  {
    var s := states[i];
    AlwaysHeap(c, states, steps, store, i);
    assert Enabled(c, s, steps[i]) && states[i + 1] == Next(c, s, steps[i]);
    assert BufOk(s, s.calls[id].idx, s.pieces[s.calls[id].idx].buf);
    if Writing(s.calls[id].pc) {
      WriterAgrees(c, s, id);
    } else {
      OtherAgrees(c, s, id);
    }
    forall j | j in s.pieces && j != s.calls[id].idx
      ensures j in states[i + 1].pieces && ViewOf(states[i + 1], j) == ViewOf(s, j)
    {
      FarView(c, s, id, j);
    }
  }

  lemma FarView(c: Config, s: State, id: nat, j: nat)
    requires HeapOk(s) && id in s.calls && CanAct(c, s, s.calls[id]) && j in s.pieces && j != s.calls[id].idx
    ensures var t := ActNext(c, s, id); j in t.pieces && ViewOf(t, j) == ViewOf(s, j)
  {
    assert BufOk(s, j, s.pieces[j].buf);
    ActShape(c, s, id);
    if s.pieces[j].buf.Some? {
      ActWrites(c, s, id, s.pieces[j].buf.value);
    }
  }
}
