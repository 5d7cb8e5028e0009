/**
 Reading a stored file through the cache: the answers ReadAt gets from getPiece come from
 foreground calls of the fetch protocol, in whatever states and however interleaved.
 */
module Serving {
  import opened Streams
  import opened PieceWalks
  import opened VirtualFiles
  import opened TorrentMetas
  import opened Stores
  import opened Repacks
  import opened Recency
  import P = FetchProtocol

  /** `a` is what a returned foreground call for `hash` gave. */
  ghost predicate Gives(s: P.State, id: nat, hash: string, a: Answer) {
    && id in s.calls && s.calls[id].kind.Foreground? && s.calls[id].hash == hash
    && match s.calls[id].pc
       case Done(result, _) => a == if result.Some? then Answer.Piece(result.value) else Missing
       case Threw => a == Throws
       case _ => false
  }

  /** Every answer comes from a call for the hash of its piece, in some state of the run. */
  ghost predicate Answered(get: Source, hashes: seq<string>, states: seq<P.State>) {
    forall k: nat, i: nat {:trigger Ask(get, k, i)} | (k, i) in get && i < |hashes| ::
      exists n, id {:trigger Gives(states[n], id, hashes[i], Ask(get, k, i))} ::
        0 <= n < |states| && Gives(states[n], id, hashes[i], Ask(get, k, i))
  }

  /** Why a call gives no piece: it threw, and a foreground GET for the hash had failed; or
      its leader was a prefetch whose GET failed; or the piece was evicted before it could
      be read back. */
  ghost predicate Explained(s: P.State, id: nat, hash: string, cap: int) {
    id in s.calls && s.calls[id].hash == hash &&
    match s.calls[id].pc
    case Threw => P.SomeFailed(s, P.Key(s.calls[id]))
    case Done(_, leader) =>
      leader in s.calls && s.calls[leader].hash == hash && P.Excused(s.touches, s.calls[leader], cap)
    case _ => false
  }

  /** The answer `a` for `hash` came from some call of the run, and that call has a reason
      for giving no piece. */
  ghost predicate ExplainedBy(states: seq<P.State>, hash: string, a: Answer, cap: int) {
    exists n, id {:trigger Explained(states[n], id, hash, cap)} ::
      0 <= n < |states| && Gives(states[n], id, hash, a) && Explained(states[n], id, hash, cap)
  }

  /** One answer: the exact piece, or nothing for a reason. */
  lemma AnswerExact(states: seq<P.State>, steps: seq<P.Step>, cap: int, h: Hasher, pieces: Pieces,
                    n: nat, id: nat, hash: string, a: Answer)
    requires P.Execution(states, steps, cap, h) && CollisionFree(h) && Hashed(pieces, h)
    requires n < |states| && hash in pieces && Gives(states[n], id, hash, a)
    ensures if a.Piece? then a.data == pieces[hash] else Explained(states[n], id, hash, cap)
  {
    if states[n].calls[id].pc.Done? {
      P.ForegroundResult(states, steps, cap, h, n, id, pieces);
    } else {
      P.ThrowsOnlyOnFailure(states, steps, cap, h, n, id);
    }
  }

  /** An answered call gives the exact piece, or has a reason. */
  lemma CallExact(states: seq<P.State>, steps: seq<P.Step>, cap: int, h: Hasher, pieces: Pieces,
                  hashes: seq<string>, get: Source, k: nat, i: nat)
    requires P.Execution(states, steps, cap, h) && CollisionFree(h) && Hashed(pieces, h) && Covers(pieces, hashes)
    requires Answered(get, hashes, states) && (k, i) in get && i < |hashes|
    ensures if Ask(get, k, i).Piece? then Ask(get, k, i).data == pieces[hashes[i]]
            else ExplainedBy(states, hashes[i], Ask(get, k, i), cap)
  {
    var n, id :| 0 <= n < |states| && Gives(states[n], id, hashes[i], Ask(get, k, i));
    AnswerExact(states, steps, cap, h, pieces, n, id, hashes[i], Ask(get, k, i));
  }

  /** So ReadAt's answers are truthful, and an answered call that falls short has a reason. */
  lemma AnswersTruthful(states: seq<P.State>, steps: seq<P.Step>, cap: int, h: Hasher, pieces: Pieces,
                        hashes: seq<string>, get: Source)
    requires P.Execution(states, steps, cap, h) && CollisionFree(h) && Hashed(pieces, h) && Covers(pieces, hashes)
    requires Answered(get, hashes, states)
    ensures Truthful(get, Data(pieces, hashes))
    ensures forall k: nat, i: nat {:trigger Lacks(get, Data(pieces, hashes), k, i)} |
              (k, i) in get && Lacks(get, Data(pieces, hashes), k, i) ::
                ExplainedBy(states, hashes[i], Ask(get, k, i), cap)
  {
    forall k: nat, i: nat {:trigger Ask(get, k, i)} | i < |hashes|
      ensures Matches(Held(Ask(get, k, i)), Data(pieces, hashes)[i], 0)
    {
      if (k, i) in get {
        CallExact(states, steps, cap, h, pieces, hashes, get, k, i);
      }
    }
    forall k: nat, i: nat {:trigger Lacks(get, Data(pieces, hashes), k, i)} |
        (k, i) in get && Lacks(get, Data(pieces, hashes), k, i)
      ensures ExplainedBy(states, hashes[i], Ask(get, k, i), cap)
    {
      CallExact(states, steps, cap, h, pieces, hashes, get, k, i);
    }
  }

  /** The calls in `log`, of which the first is the k-th, are answered. */
  ghost predicate AllAnswered(get: Source, k: nat, log: seq<nat>) {
    forall j {:trigger log[j]} | 0 <= j < |log| :: (k + j, log[j]) in get
  }

  /** A read stopped at stream position `pos` because the last getPiece, which was for the
      piece of this position, gave no piece, for a reason; by an exception if the read
      threw. */
  ghost predicate StoppedForAReason(states: seq<P.State>, info: Info, get: Source, log: seq<nat>, pos: int,
                                    threw: bool, cap: int)
    requires info.pieceLength > 0
  {
    var hashes, i := info.pieces, pos / info.pieceLength;
    && log != [] && log[|log| - 1] == i && 0 <= i < |hashes| && (|log| - 1, i) in get
    && var a := Ask(get, |log| - 1, i);
       !a.Piece? && a.Throws? == threw && ExplainedBy(states, hashes[i], a, cap)
  }

  /** A read of `want` bytes at `off` of the file that fell short or threw did so for a reason. */
  ghost predicate ShortForAReason(states: seq<P.State>, info: Info, get: Source, log: seq<nat>, file: VirtualFile,
                                  off: int, want: nat, out: Outcome, cap: int)
    requires info.pieceLength > 0
  {
    out.Thrown? || out.n < file.Clip(off, want) ==>
      StoppedForAReason(states, info, get, log, file.offset + off + out.n, out.Thrown?, cap)
  }

  lemma Reason(states: seq<P.State>, steps: seq<P.Step>, cap: int, h: Hasher, pieces: Pieces, info: Info, get: Source,
               pos: nat, before: seq<nat>, made: seq<nat>, threw: bool)
    requires P.Execution(states, steps, cap, h) && CollisionFree(h) && Hashed(pieces, h)
    requires WellFormed(pieces, info) && Answered(get, info.pieces, states) && AllAnswered(get, |before|, made)
    requires pos < |Content(pieces, info)|
    requires StoppedBy(get, Content(pieces, info), info.pieceLength, |info.pieces|, pos, |before|, before + made, threw)
    ensures StoppedForAReason(states, info, get, before + made, pos, threw, cap)
  {
    var content := Content(pieces, info);
    CutFlatten(Data(pieces, info.pieces), info.pieceLength);
    CutInside(content, info.pieceLength, pos);
    var log, i := before + made, pos / info.pieceLength;
    var last := |log| - 1;
    assert made[last - |before|] == log[last];
    CallExact(states, steps, cap, h, pieces, info.pieces, get, last, i);
  }

  /** A stored file, read through the cache: whatever prefetches, failures and evictions
      happen meanwhile, the buffer holds a prefix of the file's own bytes; and a read whose
      calls are answered by the run stops short only at a piece that the run has a reason
      not to give. */
  method ReadStored(ghost states: seq<P.State>, ghost steps: seq<P.Step>, ghost cap: int, ghost h: Hasher,
                    ghost pieces: Pieces, ghost info: Info, ghost i: nat, file: VirtualFile, p: array<byte>, want: nat,
                    off: int, getter: Getter)
    returns (out: Outcome)
    requires P.Execution(states, steps, cap, h) && CollisionFree(h) && Hashed(pieces, h)
    requires WellFormed(pieces, info) && i < |Layout(info)| && file == File(info, i)
    requires Answered(getter.get, info.pieces, states)
    requires AllAnswered(getter.get, |getter.log|, file.WalkFor(off, want, getter.get, |getter.log|).log)
    requires want <= p.Length
    modifies p, getter
    ensures out.n <= file.Clip(off, want) && file.Describes(Content(pieces, info))
    ensures forall j {:trigger p[j]} | 0 <= j < out.n :: p[j] == Content(pieces, info)[file.offset + off + j]
    ensures forall j | out.n <= j < p.Length :: p[j] == old(p[j])
    ensures ShortForAReason(states, info, getter.get, getter.log, file, off, want, out, cap)
  {
    ghost var before := getter.log;
    ghost var made := file.WalkFor(off, want, getter.get, |before|).log;
    Ready(states, steps, cap, h, pieces, info, i, getter.get);
    out := file.ReadAt(p, want, off, getter, Content(pieces, info));
    WhyShort(states, steps, cap, h, pieces, info, file, getter.get, off, want, before, made, getter.log, out);
  }

  lemma WhyShort(states: seq<P.State>, steps: seq<P.Step>, cap: int, h: Hasher, pieces: Pieces, info: Info,
                 file: VirtualFile, get: Source, off: int, want: nat, before: seq<nat>, made: seq<nat>, log: seq<nat>,
                 out: Outcome)
    requires P.Execution(states, steps, cap, h) && CollisionFree(h) && Hashed(pieces, h)
    requires WellFormed(pieces, info) && Answered(get, info.pieces, states)
    requires AllAnswered(get, |before|, made) && log == before + made && file.Describes(Content(pieces, info))
    requires file.pieceLen == info.pieceLength
    requires out.Thrown? || out.n < file.Clip(off, want) ==>
               && out.n < file.Clip(off, want)
               && StoppedBy(get, Content(pieces, info), file.pieceLen, |info.pieces|, file.offset + off + out.n,
                            |before|, log, out.Thrown?)
    ensures ShortForAReason(states, info, get, log, file, off, want, out, cap)
  {
    if out.Thrown? || out.n < file.Clip(off, want) {
      Reason(states, steps, cap, h, pieces, info, get, file.offset + off + out.n, before, made, out.Thrown?);
    }
  }

  lemma Ready(states: seq<P.State>, steps: seq<P.Step>, cap: int, h: Hasher, pieces: Pieces, info: Info, i: nat,
              get: Source)
    requires P.Execution(states, steps, cap, h) && CollisionFree(h) && Hashed(pieces, h)
    requires WellFormed(pieces, info) && i < |Layout(info)| && Answered(get, info.pieces, states)
    ensures File(info, i).Describes(Content(pieces, info))
            && Truthful(get, Cut(Content(pieces, info), info.pieceLength))
  {
    AnswersTruthful(states, steps, cap, h, pieces, info.pieces, get);
    FileDescribes(pieces, info, i);
  }
}
