/**
 Reading a file of a torrent: `virtualFile.ReadAt` (sftp.go) over pieces that may be
 missing, short, or throw, and the copy loop of `get`.
 */
module VirtualFiles {
  import opened Streams
  import opened PieceWalks

  /** The `getPiece` a read calls. It numbers its calls and logs the piece each is for. */
  class Getter {
    const get: Source
    var log: seq<nat>

    constructor (get: Source)
      ensures this.get == get && log == []
    {
      this.get, log := get, [];
    }

    method GetPiece(idx: nat) returns (a: Answer)
      modifies this
      ensures log == old(log) + [idx] && a == Ask(get, |old(log)|, idx)
    {
      a := Ask(get, |log|, idx);
      log := log + [idx];
    }
  }

  datatype ReadError = Ok | EOF | NegativeOffset

  datatype Outcome = Returned(n: nat, err: ReadError) | Thrown(n: nat)

  /** A file inside a torrent: its place in the stream, the piece length and the
      number of piece hashes. */
  datatype VirtualFile = VirtualFile(offset: nat, fileSize: nat, pieceLen: nat, pieceCount: nat)
  {
    /** The part of a request for `want` bytes at `off` that lies inside the file. */
    function Clip(off: int, want: nat): nat {
      if off < 0 || off >= fileSize then 0 else Min(want, fileSize - off)
    }

    /** The file lies in `content`, which is what the piece hashes stand for. */
    ghost predicate Describes(content: Bytes) {
      pieceLen > 0 && offset + fileSize <= |content|
    }

    /** The piece walk of a request, whose first call is the k-th. */
    ghost function WalkFor(off: int, want: nat, get: Source, k: nat): Walk
      requires pieceLen > 0
    {
      if Clip(off, want) == 0 then Walk(0, [], false)
      else WalkOf(get, pieceCount, pieceLen, offset + off, Clip(off, want), k)
    }

    /** The pieces under a request are served, one call each. */
    ghost predicate Serves(off: int, want: nat, get: Source, k: nat, content: Bytes)
      requires pieceLen > 0
    {
      Clip(off, want) > 0 ==>
        Served(get, Cut(content, pieceLen), pieceCount, (offset + off) / pieceLen,
               (offset + off + Clip(off, want) - 1) / pieceLen, k)
    }

    /** `ReadAt(p[..want], off)`. Whatever goes missing, it fills a prefix of the
        caller's buffer with the file's bytes, leaves the rest alone, and says so if it
        falls short. It calls getPiece as its piece walk does and comes as far; and if it
        falls short or throws, it was the piece it stopped at that is missing. */
    method ReadAt(p: array<byte>, want: nat, off: int, getter: Getter, ghost content: Bytes) returns (out: Outcome)
      requires want <= p.Length && Describes(content) && Truthful(getter.get, Cut(content, pieceLen))
      modifies p, getter
      ensures out.n <= Clip(off, want)
      ensures forall i {:trigger p[i]} | 0 <= i < out.n :: p[i] == content[offset + off + i]
      ensures forall i | out.n <= i < p.Length :: p[i] == old(p[i])
      ensures out.Returned? ==>
                out.err == if off < 0 then NegativeOffset
                           else if out.n < want || off + out.n >= fileSize then EOF else Ok
      ensures var w := WalkFor(off, want, getter.get, |old(getter.log)|);
              out.n == w.n && out.Thrown? == w.threw && getter.log == old(getter.log) + w.log
      ensures out.Thrown? || out.n < Clip(off, want) ==>
                && out.n < Clip(off, want)
                && StoppedBy(getter.get, content, pieceLen, pieceCount, offset + off + out.n,
                             |old(getter.log)|, getter.log, out.Thrown?)
    {
      if off < 0 {
        return Returned(0, NegativeOffset);
      }
      if off >= fileSize {
        return Returned(0, EOF);
      }
      ghost var before := getter.log;
      out := ReadInside(p, want, off, getter, content);
      Blame(off, want, getter.get, content, before);
    }

    /** ReadAt of a position inside the file (sftp.go lines 250-294). */
    method ReadInside(p: array<byte>, want: nat, off: nat, getter: Getter, ghost content: Bytes) returns (out: Outcome)
      requires want <= p.Length && Describes(content) && Truthful(getter.get, Cut(content, pieceLen)) && off < fileSize
      modifies p, getter
      ensures out.n <= Clip(off, want)
      ensures forall i {:trigger p[i]} | 0 <= i < out.n :: p[i] == content[offset + off + i]
      ensures forall i | out.n <= i < p.Length :: p[i] == old(p[i])
      ensures out.Returned? ==> out.err == if out.n < want || off + out.n >= fileSize then EOF else Ok
      ensures var w := WalkFor(off, want, getter.get, |old(getter.log)|);
              out.n == w.n && out.Thrown? == w.threw && getter.log == old(getter.log) + w.log
    {
      var remaining := fileSize - off;
      var len := if want > remaining then remaining else want;
      var total, threw := WalkInto(p, len, offset + off, getter, content, Cut(content, pieceLen));
      if threw {
        return Thrown(total);
      }
      if total < remaining && total < len {
        return Returned(total, EOF);
      }
      if off + total >= fileSize {
        return Returned(total, EOF);
      }
      return Returned(total, Ok);
    }

    lemma Blame(off: nat, want: nat, get: Source, content: Bytes, before: seq<nat>)
      requires Describes(content) && off < fileSize
      ensures var w := WalkFor(off, want, get, |before|);
              w.threw || w.n < Clip(off, want) ==>
                && w.n < Clip(off, want)
                && StoppedBy(get, content, pieceLen, pieceCount, offset + off + w.n, |before|, before + w.log, w.threw)
    {
      if want > 0 {
        var w := WalkFor(off, want, get, |before|);
        StopsWhere(get, pieceCount, pieceLen, offset + off, Clip(off, want), |before|);
        if w.threw || w.n < Clip(off, want) {
          WhyStopped(get, content, pieceCount, pieceLen, offset + off, Clip(off, want), before, w);
        }
      }
    }

    /** What is left of a walk over `len` bytes from `start` when `total` are copied. */
    ghost predicate Ahead(get: Source, start: nat, len: nat, total: nat, k: nat, rest: Walk) {
      pieceLen > 0 && total <= len && rest == WalkOf(get, pieceCount, pieceLen, start + total, len - total, k)
    }

    lemma AheadMoves(get: Source, start: nat, len: nat, total: nat, k: nat, rest: Walk)
      returns (idx: nat, n: nat, next: Walk)
      requires Ahead(get, start, len, total, k, rest) && Moves(get, pieceCount, pieceLen, start + total, len - total, k)
      ensures n == Gain(get, pieceLen, start + total, len - total, k) && idx == (start + total) / pieceLen
      ensures 0 < n && rest == Then(n, idx, next) && Ahead(get, start, len, total + n, k + 1, next)
    {
      WalkMoves(get, pieceCount, pieceLen, start + total, len - total, k);
      idx, n := (start + total) / pieceLen, Gain(get, pieceLen, start + total, len - total, k);
      next := WalkOf(get, pieceCount, pieceLen, start + (total + n), len - (total + n), k + 1);
    }

    /** The loop of ReadAt (sftp.go lines 262-284). */
    method WalkInto(p: array<byte>, len: nat, start: nat, getter: Getter, ghost content: Bytes,
                    ghost pieces: seq<Bytes>)
      returns (total: nat, threw: bool)
      requires len <= p.Length && start + len <= |content| && pieceLen > 0
      requires pieces == Cut(content, pieceLen) && Truthful(getter.get, pieces)
      modifies p, getter
      ensures total <= len
      ensures forall i {:trigger p[i]} | 0 <= i < total :: p[i] == content[start + i]
      ensures forall i | total <= i < p.Length :: p[i] == old(p[i])
      ensures var w := WalkOf(getter.get, pieceCount, pieceLen, start, len, |old(getter.log)|);
              total == w.n && threw == w.threw && getter.log == old(getter.log) + w.log
    {
      total, threw := 0, false;
      ghost var all := WalkOf(getter.get, pieceCount, pieceLen, start, len, |getter.log|);
      ghost var rest := all;
      while total < len
        invariant !threw && total <= len
        invariant forall i {:trigger p[i]} | 0 <= i < total :: p[i] == content[start + i]
        invariant forall i | total <= i < p.Length :: p[i] == old(p[i])
        invariant Ahead(getter.get, start, len, total, |getter.log|, rest)
        invariant OnCourse(old(getter.log), all, getter.log, total, rest)
        decreases len - total
      {
        ghost var before, next, idx := getter.log, rest, 0;
        var n, stop;
        n, stop, threw, idx, next := Turn(p, total, len, start, getter, content, pieces, rest);
        if stop {
          return;
        }
        StaysOnCourse(old(getter.log), all, before, total, rest, n, getter.log, next);
        total, rest := total + n, next;
      }
    }

    /** One turn of that loop: a getPiece for the piece of the next position, and the copy
        of what it gives. `rest` and `next` are what is left of the walk. */
    method Turn(p: array<byte>, total: nat, len: nat, start: nat, getter: Getter, ghost content: Bytes,
                ghost pieces: seq<Bytes>, ghost rest: Walk)
      returns (n: nat, stop: bool, threw: bool, ghost idx: nat, ghost next: Walk)
      requires total < len <= p.Length && start + len <= |content| && pieceLen > 0
      requires pieces == Cut(content, pieceLen) && Truthful(getter.get, pieces)
      requires forall i {:trigger p[i]} | 0 <= i < total :: p[i] == content[start + i]
      requires Ahead(getter.get, start, len, total, |getter.log|, rest)
      modifies p, getter
      ensures total + n <= len && (threw ==> stop) && (stop ==> n == 0) && (!stop ==> n > 0)
      ensures forall i {:trigger p[i]} | 0 <= i < total + n :: p[i] == content[start + i]
      ensures forall i | total + n <= i < p.Length :: p[i] == old(p[i])
      ensures stop ==> rest.n == 0 && rest.threw == threw && getter.log == old(getter.log) + rest.log
      ensures !stop ==> rest == Then(n, idx, next) && getter.log == old(getter.log) + [idx]
                        && Ahead(getter.get, start, len, total + n, |getter.log|, next)
    {
      var piece, at;
      stop, threw, piece, at, idx, next := NextPiece(total, len, start, getter, content, pieces, rest);
      n := 0;
      if !stop {
        n := Extend(p, total, len, piece, at, start, content);
      }
    }

    /** The next getPiece of the walk, and where it leaves it. */
    method NextPiece(total: nat, len: nat, start: nat, getter: Getter, ghost content: Bytes, ghost pieces: seq<Bytes>,
                     ghost rest: Walk)
      returns (stop: bool, threw: bool, piece: Bytes, at: nat, ghost idx: nat, ghost next: Walk)
      requires total < len && start + len <= |content| && pieceLen > 0
      requires pieces == Cut(content, pieceLen) && Truthful(getter.get, pieces)
      requires Ahead(getter.get, start, len, total, |getter.log|, rest)
      modifies getter
      ensures threw ==> stop
      ensures stop ==> rest.n == 0 && rest.threw == threw && getter.log == old(getter.log) + rest.log
      ensures !stop ==>
                && at < |piece| && Matches(piece[at..], content, start + total)
                && getter.log == old(getter.log) + [idx] && rest == Then(Min(len - total, |piece| - at), idx, next)
                && Ahead(getter.get, start, len, total + Min(len - total, |piece| - at), |getter.log|, next)
    {
      ghost var k, gain := |getter.log|, 0;
      idx, next := 0, rest;
      stop, threw, piece, at := Fetch(start + total, len - total, getter, content, pieces);
      if !stop {
        idx, gain, next := AheadMoves(getter.get, start, len, total, k, rest);
      }
    }

    /** The getPiece for the piece of position `pos`, if there is one, and what it gives
        from there on. */
    method Fetch(pos: nat, left: nat, getter: Getter, ghost content: Bytes, ghost pieces: seq<Bytes>)
      returns (stop: bool, threw: bool, piece: Bytes, at: nat)
      requires left > 0 && pos < |content| && pieceLen > 0
      requires pieces == Cut(content, pieceLen) && Truthful(getter.get, pieces)
      modifies getter
      ensures threw ==> stop
      ensures stop ==> var w := WalkOf(getter.get, pieceCount, pieceLen, pos, left, |old(getter.log)|);
                       w.n == 0 && w.threw == threw && getter.log == old(getter.log) + w.log
      ensures !stop ==>
                && getter.log == old(getter.log) + [pos / pieceLen]
                && Moves(getter.get, pieceCount, pieceLen, pos, left, |old(getter.log)|)
                && at < |piece| && Gain(getter.get, pieceLen, pos, left, |old(getter.log)|) == Min(left, |piece| - at)
                && Matches(piece[at..], content, pos)
    {
      var idx := pos / pieceLen;
      at := pos % pieceLen;
      if idx >= pieceCount {
        return true, false, [], at;
      }
      var answer := getter.GetPiece(idx);
      if answer.Throws? {
        return true, true, [], at;
      }
      piece := Held(answer);
      if at >= |piece| {
        return true, false, piece, at;
      }
      CutLocatesAt(content, pieceLen, pos, idx, at);
      assert Matches(piece, pieces[idx], 0);
      ChunkMatches(content, pieces, idx, at, pos, piece);
      stop, threw := false, false;
    }
  }

  /** After logging `log` and copying `total` bytes, `rest` is what is left of the walk `all`. */
  ghost predicate OnCourse(before: seq<nat>, all: Walk, log: seq<nat>, total: nat, rest: Walk) {
    total + rest.n == all.n && rest.threw == all.threw && log + rest.log == before + all.log
  }

  lemma StaysOnCourse(before: seq<nat>, all: Walk, log: seq<nat>, total: nat, rest: Walk, n: nat, log': seq<nat>,
                      next: Walk)
    requires OnCourse(before, all, log, total, rest) && |log'| == |log| + 1 && log' == log + [log'[|log|]]
    requires rest == Then(n, log'[|log|], next)
    ensures OnCourse(before, all, log', total + n, next)
  {
    Assoc(log, [log'[|log|]], next.log);
  }

  /** A request whose pieces are served gets through, asking for each of them once and in
      order; nothing is assumed of any other piece. */
  lemma ServedGetsThrough(v: VirtualFile, off: int, want: nat, get: Source, k: nat, content: Bytes)
    requires v.Describes(content) && v.Clip(off, want) > 0 && Truthful(get, Cut(content, v.pieceLen))
    requires v.Serves(off, want, get, k, content)
    ensures var start, left := v.offset + off, v.Clip(off, want);
            Through(v.WalkFor(off, want, get, k), left, start / v.pieceLen, (start + left - 1) / v.pieceLen)
  {
    var pos, left := v.offset + off, v.Clip(off, want);
    assert pos + left - pos == left;
    WholeWalk(get, content, v.pieceCount, v.pieceLen, pos, pos + left, (pos + left - 1) / v.pieceLen, k);
  }

  /** What was fetched of a piece is what the stream holds from `pos` on. */
  lemma ChunkMatches(content: Bytes, pieces: seq<Bytes>, idx: nat, at: nat, pos: nat, held: Bytes)
    requires LocatesAt(idx, at, content, pieces, pos) && Matches(held, pieces[idx], 0) && at <= |held|
    ensures Matches(held[at..], content, pos)
  {
    var piece, tail := pieces[idx], held[at..];
    forall i {:trigger tail[i]} | 0 <= i < |tail|
      ensures tail[i] == content[pos + i]
    {
      assert tail[i] == held[at + i] == piece[at + i];
    }
  }

  /** Copies the next chunk, so that the filled prefix grows. */
  method Extend(p: array<byte>, lo: nat, hi: nat, src: Bytes, at: nat, ghost start: nat, ghost content: Bytes)
    returns (n: nat)
    requires lo < hi <= p.Length && at < |src| && start + hi <= |content|
    requires forall i {:trigger p[i]} | 0 <= i < lo :: p[i] == content[start + i]
    requires Matches(src[at..], content, start + lo)
    modifies p
    ensures 0 < n == Min(hi - lo, |src| - at)
    ensures forall i {:trigger p[i]} | 0 <= i < lo + n :: p[i] == content[start + i]
    ensures forall i | lo + n <= i < p.Length :: p[i] == old(p[i])
  {
    ghost var tail := src[at..];
    n := Copy(p, lo, hi, src, at);
    forall i {:trigger p[i]} | lo <= i < lo + n
      ensures p[i] == content[start + i]
    {
      assert p[i] == tail[i - lo];
    }
  }

  datatype CopyResult = Done | ShortRead | Threw

  /** The copy loop of `get` (get.go lines 147-176): reads the file chunk by chunk and
      appends what each read gives to the output. It ends, has written a prefix of the
      file, and all of it exactly if it reports success; otherwise a read stopped at `stop`
      for want of the piece there. */
  method CopyFile(v: VirtualFile, chunk: nat, getter: Getter, ghost content: Bytes)
    returns (res: CopyResult, written: Bytes, ghost stop: nat)
    requires chunk > 0 && v.Describes(content) && Truthful(getter.get, Cut(content, v.pieceLen))
    modifies getter
    ensures Matches(written, content, v.offset) && |written| <= v.fileSize
    ensures res.Done? <==> |written| == v.fileSize
    ensures !res.Done? ==>
              && |written| <= stop < v.fileSize && stop - |written| < chunk && (res.ShortRead? ==> stop == |written|)
              && StoppedBy(getter.get, content, v.pieceLen, v.pieceCount, v.offset + stop,
                           |old(getter.log)|, getter.log, res.Threw?)
  {
    var buf := new byte[chunk](_ => 0);
    written := [];
    var off := 0;
    while off < v.fileSize
      invariant off == |written| <= v.fileSize && |old(getter.log)| <= |getter.log|
      invariant Matches(written, content, v.offset)
      decreases v.fileSize - off
    {
      var want := if chunk > v.fileSize - off then v.fileSize - off else chunk;
      var out := v.ReadAt(buf, want, off, getter, content);
      stop := off + out.n;
      if out.Thrown? {
        return Threw, written, stop;
      }
      if out.n > 0 {
        written := Append(written, buf, out.n, v.offset, content);
        off := off + out.n;
      }
      if out.err.EOF? {
        if off < v.fileSize {
          return ShortRead, written, stop;
        }
        break;
      }
    }
    return Done, written, 0;
  }

  /** Writes the first `n` bytes of the buffer behind what is already written. */
  method Append(written: Bytes, buf: array<byte>, n: nat, ghost start: nat, ghost content: Bytes) returns (out: Bytes)
    requires n <= buf.Length && Matches(written, content, start) && start + |written| + n <= |content|
    requires forall i {:trigger buf[i]} | 0 <= i < n :: buf[i] == content[start + |written| + i]
    ensures Matches(out, content, start) && |out| == |written| + n
  {
    out := written + buf[..n];
    MatchesAppend(written, buf[..n], content, start);
  }

  /** Go's `copy(p[lo:hi], src[at:])`. */
  method Copy(p: array<byte>, lo: nat, hi: nat, src: Bytes, at: nat) returns (n: nat)
    requires lo <= hi <= p.Length && at <= |src|
    modifies p
    ensures n == Min(hi - lo, |src| - at)
    ensures forall i {:trigger p[i]} | 0 <= i < p.Length ::
              p[i] == if lo <= i < lo + n then src[at + i - lo] else old(p[i])
  {
    n := if hi - lo <= |src| - at then hi - lo else |src| - at;
    for k := 0 to n
      invariant forall i {:trigger p[i]} | 0 <= i < p.Length ::
                  p[i] == if lo <= i < lo + k then src[at + i - lo] else old(p[i])
    {
      p[lo + k] := src[at + k];
    }
  }
}
