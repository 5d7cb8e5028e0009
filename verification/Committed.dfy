/**
 From end to end: a torrent that fetch or repack has stored (fetch.go lines 355-369), after
 any runs over the store, read through the cache (sftp.go lines 241-344).
 */
module Committed {
  import opened Streams
  import opened PieceWalks
  import opened VirtualFiles
  import opened TorrentMetas
  import opened Stores
  import opened Repacks
  import opened Serving
  import P = FetchProtocol
  import R = StoreRuns

  /** What BEP 3 asks of the info dictionary of a content: its piece hashes are those of the
      content cut at its piece length, and its files add up to the content's length. */
  ghost predicate InfoOf(info: Info, content: Bytes, h: Hasher) {
    && info.pieceLength > 0 && |content| == TotalLength(info)
    && info.pieces == HashAll(h, Cut(content, info.pieceLength))
  }

  /** Where its pieces are stored under their hashes, such a torrent has that content. */
  lemma StoredContent(pieces: Pieces, info: Info, content: Bytes, h: Hasher)
    requires CollisionFree(h) && Hashed(pieces, h) && Covers(pieces, info.pieces) && InfoOf(info, content, h)
    ensures WellFormed(pieces, info) && Content(pieces, info) == content
  {
    var chunks := Cut(content, info.pieceLength);
    DataOfHash(pieces, chunks, h);
    FlattenCut(content, info.pieceLength);
    CutWellCut(content, info.pieceLength);
  }

  /** A torrent of some content, stored in some state of a run that starts on a good store. */
  ghost predicate StoredAs(states: seq<R.State>, steps: seq<R.Step>, h: Hasher, ih: InfoHasher, n: nat, key: string,
                           info: Info, content: Bytes)
  {
    && R.Execution(states, steps, h, ih) && Good(states[0].store, h) && n < |states| && CollisionFree(h)
    && (forall j {:trigger steps[j]} | 0 <= j < |steps| :: R.SkipsCovered(states[j], steps[j]))
    && key in states[n].store.torrents && states[n].store.torrents[key] == Torrent(info) && InfoOf(info, content, h)
  }

  /** In a run over the store that starts on a good one, whatever dies: a stored torrent whose
      info dictionary is one of some content has that very content. */
  lemma CommittedContent(states: seq<R.State>, steps: seq<R.Step>, h: Hasher, ih: InfoHasher, n: nat, key: string,
                         info: Info, content: Bytes)
    requires StoredAs(states, steps, h, ih, n, key, info, content)
    ensures var pieces := states[n].store.pieces;
            Hashed(pieces, h) && WellFormed(pieces, info) && Content(pieces, info) == content
  {
    R.AlwaysGood(states, steps, h, ih, n);
    StoredContent(states[n].store.pieces, info, content, h);
  }

  /** The bytes of file `i`: the part of the content behind all files before it. */
  ghost function FileBytes(info: Info, content: Bytes, i: nat): Bytes
    requires i < |Layout(info)| && |content| == TotalLength(info)
  {
    FileFits(info, i);
    content[FileStart(info, i) .. FileStart(info, i) + FileLength(info, i)]
  }

  lemma FileFits(info: Info, i: nat)
    requires i < |Layout(info)|
    ensures i < FileCount(info) && FileStart(info, i) + FileLength(info, i) <= TotalLength(info)
  {
    LayoutIs(info, 0);
    LayoutIs(info, i);
    LayoutPartitions(info);
    FilesFrom(Layout(info), 0, TotalLength(info));
  }

  /** The file as it is opened. */
  lemma FilePlace(info: Info, content: Bytes, i: nat, off: int, want: nat)
    requires i < |Layout(info)| && |content| == TotalLength(info)
    ensures File(info, i).fileSize == |FileBytes(info, content, i)| && File(info, i).offset == FileStart(info, i)
    ensures File(info, i).Clip(off, want) == Within(FileBytes(info, content, i), off, want)
    ensures Matches(FileBytes(info, content, i), content, File(info, i).offset)
  {
    FileFits(info, i);
    LayoutIs(info, i);
  }

  /** How many of `want` bytes from `off` on there are. */
  ghost function Within(b: Bytes, off: int, want: nat): nat {
    if off < 0 || off >= |b| then 0 else Min(want, |b| - off)
  }

  /** So whoever reads file `i` of it through the cache gets a prefix of that file's bytes
      from the offset on, and all that was asked for and is there unless the run has a reason
      for a piece to be missing. */
  method ReadCommitted(ghost states: seq<R.State>, ghost steps: seq<R.Step>, ghost n: nat, ghost key: string,
                       ghost content: Bytes, ghost fetches: seq<P.State>, ghost fetchSteps: seq<P.Step>, ghost cap: int,
                       ghost h: Hasher, ghost ih: InfoHasher, info: Info, i: nat, p: array<byte>, want: nat, off: int,
                       getter: Getter)
    returns (out: Outcome)
    requires StoredAs(states, steps, h, ih, n, key, info, content) && i < |Layout(info)|
    requires P.Execution(fetches, fetchSteps, cap, h) && want <= p.Length && Answered(getter.get, info.pieces, fetches)
    requires AllAnswered(getter.get, |getter.log|, File(info, i).WalkFor(off, want, getter.get, |getter.log|).log)
    modifies p, getter
    ensures out.n <= Within(FileBytes(info, content, i), off, want)
    ensures forall j {:trigger p[j]} | 0 <= j < out.n :: p[j] == FileBytes(info, content, i)[off + j]
    ensures forall j | out.n <= j < p.Length :: p[j] == old(p[j])
    ensures ShortForAReason(fetches, info, getter.get, getter.log, File(info, i), off, want, out, cap)
  {
    ghost var pieces := states[n].store.pieces;
    CommittedContent(states, steps, h, ih, n, key, info, content);
    FilePlace(info, content, i, off, want);
    out := ReadStored(fetches, fetchSteps, cap, h, pieces, info, i, File(info, i), p, want, off, getter);
  }

  /** And whoever copies the whole file out, chunk by chunk, has written a prefix of its bytes,
      and all of them exactly if the copy reports success. */
  method GetCommitted(ghost states: seq<R.State>, ghost steps: seq<R.Step>, ghost n: nat, ghost key: string,
                      ghost content: Bytes, ghost fetches: seq<P.State>, ghost fetchSteps: seq<P.Step>, ghost cap: int,
                      ghost h: Hasher, ghost ih: InfoHasher, info: Info, i: nat, chunk: nat, getter: Getter)
    returns (res: CopyResult, written: Bytes)
    requires StoredAs(states, steps, h, ih, n, key, info, content) && i < |Layout(info)|
    requires P.Execution(fetches, fetchSteps, cap, h) && chunk > 0 && Answered(getter.get, info.pieces, fetches)
    modifies getter
    ensures written <= FileBytes(info, content, i)
    ensures res.Done? <==> written == FileBytes(info, content, i)
  {
    ghost var pieces := states[n].store.pieces;
    CommittedContent(states, steps, h, ih, n, key, info, content);
    FilePlace(info, content, i, 0, 0);
    Ready(fetches, fetchSteps, cap, h, pieces, info, i, getter.get);
    ghost var stop;
    res, written, stop := CopyFile(File(info, i), chunk, getter, content);
    Prefix(written, FileBytes(info, content, i), content, File(info, i).offset);
  }

  lemma Prefix(a: Bytes, b: Bytes, content: Bytes, start: nat)
    requires Matches(a, content, start) && Matches(b, content, start) && |a| <= |b|
    ensures a <= b && (|a| == |b| <==> a == b)
  {
    forall k | 0 <= k < |a|
      ensures a[k] == b[k]
    {
      assert a[k] == content[start + k] == b[k];
    }
  }
}
