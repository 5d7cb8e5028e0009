/**
 What `repack` means: the torrent it writes, and that every read of every file gives
 the same answer before and after.
 */
module Repacks {
  import opened Streams
  import opened PieceWalks
  import opened VirtualFiles
  import opened TorrentMetas
  import opened PieceStreams
  import opened Stores

  /** The stream of a stored torrent. */
  function Content(pieces: Pieces, info: Info): Bytes
    requires Covers(pieces, info.pieces)
  {
    Flatten(Data(pieces, info.pieces))
  }

  /** A stored torrent whose pieces are laid out as BEP 3 asks: full pieces of its piece
      length, then a last one, adding up to the length of its files. */
  ghost predicate WellFormed(pieces: Pieces, info: Info) {
    && Covers(pieces, info.pieces)
    && WellCut(Data(pieces, info.pieces), info.pieceLength)
    && |Content(pieces, info)| == TotalLength(info)
  }

  /** The info dictionary repack builds: only the piece length and the hashes change. */
  function Repacked(info: Info, size: nat, content: Bytes, h: Hasher): Info
    requires size > 0
  {
    info.(pieceLength := size, pieces := HashAll(h, Cut(content, size)))
  }

  /** `after` is `before` plus every chunk under its hash. */
  ghost predicate Uploaded(before: Pieces, after: Pieces, chunks: seq<Bytes>, h: Hasher) {
    && after.Keys == before.Keys + (set i | 0 <= i < |chunks| :: h(chunks[i]))
    && (forall k | k in before :: after[k] == before[k])
    && Hashed(after, h)
  }

  lemma UploadedCovers(before: Pieces, after: Pieces, chunks: seq<Bytes>, h: Hasher)
    requires Uploaded(before, after, chunks, h)
    ensures Covers(after, HashAll(h, chunks))
    ensures Covers(before, HashAll(h, chunks)) ==> after == before
  {
    var hashes := HashAll(h, chunks);
    forall i | 0 <= i < |hashes|
      ensures hashes[i] in after
    {
      assert hashes[i] == h(chunks[i]);
    }
    if Covers(before, hashes) {
      forall i | 0 <= i < |chunks|
        ensures h(chunks[i]) in before
      {
        assert hashes[i] == h(chunks[i]);
      }
      assert after.Keys == before.Keys;
    }
  }

  /** The rebuilt torrent has the same stream, cut at the new size, and the same files
      at the same places. */
  lemma SameStream(before: Pieces, after: Pieces, info: Info, size: nat, h: Hasher)
    requires CollisionFree(h) && size > 0 && WellFormed(before, info)
    requires Uploaded(before, after, Cut(Content(before, info), size), h)
    ensures var info' := Repacked(info, size, Content(before, info), h);
            && WellFormed(after, info')
            && Content(after, info') == Content(before, info)
            && Data(after, info'.pieces) == Cut(Content(before, info), size)
            && Layout(info') == Layout(info) && TotalLength(info') == TotalLength(info)
  {
    var content := Content(before, info);
    UploadedCovers(before, after, Cut(content, size), h);
    DataOfHash(after, Cut(content, size), h);
    FlattenCut(content, size);
    CutWellCut(content, size);
  }

  /** The file with index `i` of a torrent, as openFile hands it out. */
  function File(info: Info, i: nat): VirtualFile
    requires i < |Layout(info)|
  {
    VirtualFile(Layout(info)[i].offset, Layout(info)[i].size, info.pieceLength, |info.pieces|)
  }

  /** In a well-formed torrent the file describes its stream. */
  lemma FileDescribes(pieces: Pieces, info: Info, i: nat)
    requires WellFormed(pieces, info) && i < |Layout(info)|
    ensures File(info, i).Describes(Content(pieces, info))
    ensures Cut(Content(pieces, info), info.pieceLength) == Data(pieces, info.pieces)
    ensures File(info, i).pieceCount == |Cut(Content(pieces, info), info.pieceLength)|
  {
    LayoutPartitions(info);
    FilesFrom(Layout(info), 0, TotalLength(info));
    CutFlatten(Data(pieces, info.pieces), info.pieceLength);
  }

  /** Two torrents with the same files over the same stream answer every read alike, if the
      pieces under it are served: same bytes, same count, same end-of-file, and the rest of
      the buffer alone. */
  method ReadBoth(a: VirtualFile, b: VirtualFile, ghost content: Bytes, p: array<byte>, q: array<byte>, want: nat,
                  off: int, getA: Getter, getB: Getter)
    returns (x: Outcome, y: Outcome)
    requires a.offset == b.offset && a.fileSize == b.fileSize && a.Describes(content) && b.Describes(content)
    requires Truthful(getA.get, Cut(content, a.pieceLen)) && a.Serves(off, want, getA.get, |getA.log|, content)
    requires Truthful(getB.get, Cut(content, b.pieceLen)) && b.Serves(off, want, getB.get, |getB.log|, content)
    requires getA != getB && p != q && p.Length == q.Length && want <= p.Length && p[..] == q[..]
    modifies p, q, getA, getB
    ensures x == y && x.Returned? && x.n == a.Clip(off, want)
    ensures p[..] == q[..]
  {
    assert forall i | 0 <= i < p.Length :: p[..][i] == q[..][i];
    x := ReadServed(a, p, want, off, getA, content);
    y := ReadServed(b, q, want, off, getB, content);
    assert forall i | 0 <= i < p.Length :: p[i] == q[i];
  }

  /** A read whose pieces are served gives all its bytes. */
  method ReadServed(v: VirtualFile, p: array<byte>, want: nat, off: int, getter: Getter, ghost content: Bytes)
    returns (x: Outcome)
    requires v.Describes(content) && Truthful(getter.get, Cut(content, v.pieceLen)) && want <= p.Length
    requires v.Serves(off, want, getter.get, |getter.log|, content)
    modifies p, getter
    ensures x == Returned(v.Clip(off, want),
                          if off < 0 then NegativeOffset
                          else if v.Clip(off, want) < want || off + want >= v.fileSize then EOF else Ok)
    ensures forall i {:trigger p[i]} | 0 <= i < x.n :: p[i] == content[v.offset + off + i]
    ensures forall i | x.n <= i < p.Length :: p[i] == old(p[i])
  {
    if v.Clip(off, want) > 0 {
      ServedGetsThrough(v, off, want, getter.get, |getter.log|, content);
    }
    x := v.ReadAt(p, want, off, getter, content);
  }

  /** The same file of a torrent and of its repack, over the same stream. */
  lemma SameFile(before: Pieces, after: Pieces, info: Info, size: nat, h: Hasher, i: nat)
    requires CollisionFree(h) && size > 0 && WellFormed(before, info) && i < |Layout(info)|
    requires Uploaded(before, after, Cut(Content(before, info), size), h)
    ensures var content := Content(before, info);
            var info' := Repacked(info, size, content, h);
            && Layout(info') == Layout(info) && Covers(after, info'.pieces)
            && var a, b := File(info, i), File(info', i);
            && a.offset == b.offset && a.fileSize == b.fileSize && a.Describes(content) && b.Describes(content)
            && Cut(content, a.pieceLen) == Data(before, info.pieces)
            && Cut(content, b.pieceLen) == Data(after, info'.pieces)
  {
    SameStream(before, after, info, size, h);
    FileDescribes(before, info, i);
    FileDescribes(after, Repacked(info, size, Content(before, info), h), i);
  }

  /** Repack preserves meaning: with the pieces under it fetched, a read of any file, at any
      offset and of any length, is the same on the source torrent and on the rebuilt one. */
  method ReadRepacked(ghost before: Pieces, ghost after: Pieces, info: Info, info': Info, ghost h: Hasher, i: nat,
                      p: array<byte>, q: array<byte>, want: nat, off: int, getA: Getter, getB: Getter)
    returns (x: Outcome, y: Outcome)
    requires CollisionFree(h) && info'.pieceLength > 0 && WellFormed(before, info) && i < |Layout(info)|
    requires Uploaded(before, after, Cut(Content(before, info), info'.pieceLength), h)
    requires info' == Repacked(info, info'.pieceLength, Content(before, info), h) && Covers(after, info'.pieces)
    requires Truthful(getA.get, Data(before, info.pieces)) && Truthful(getB.get, Data(after, info'.pieces))
    requires File(info, i).Serves(off, want, getA.get, |getA.log|, Content(before, info))
    requires File(info', i).Serves(off, want, getB.get, |getB.log|, Content(before, info))
    requires getA != getB && p != q && p.Length == q.Length && want <= p.Length && p[..] == q[..]
    modifies p, q, getA, getB
    ensures x == y && x.Returned? && x.n == File(info, i).Clip(off, want)
    ensures p[..] == q[..]
  {
    SameFile(before, after, info, info'.pieceLength, h, i);
    x, y := ReadBoth(File(info, i), File(info', i), Content(before, info), p, q, want, off, getA, getB);
  }

  /** A repack that ran to the end on the torrent stored under `key`. */
  ghost predicate Completed(before: Store, after: Store, key: string, size: nat, h: Hasher, ih: InfoHasher) {
    && size > 0 && key in before.torrents && before.torrents[key].Torrent?
    && var info := before.torrents[key].info;
    && ih(info) == key && WellFormed(before.pieces, info)
    && var content := Content(before.pieces, info);
    && var info' := Repacked(info, size, content, h);
    && Uploaded(before.pieces, after.pieces, Cut(content, size), h)
    && after.torrents == if ih(info') == key then before.torrents else before.torrents[ih(info') := Torrent(info')]
  }

  lemma Kept(before: Pieces, after: Pieces, info: Info, chunks: seq<Bytes>, h: Hasher)
    requires WellFormed(before, info) && Uploaded(before, after, chunks, h)
    ensures WellFormed(after, info) && Content(after, info) == Content(before, info)
  {
    assert Data(after, info.pieces) == Data(before, info.pieces);
  }

  /** Repeating a completed repack changes nothing. */
  lemma RepackIdempotent(s0: Store, s1: Store, s2: Store, key: string, size: nat, h: Hasher, ih: InfoHasher)
    requires CollisionFree(h) && InfoCollisionFree(ih)
    requires Completed(s0, s1, key, size, h, ih) && Completed(s1, s2, key, size, h, ih)
    ensures s2 == s1
  {
    var info := s0.torrents[key].info;
    var content := Content(s0.pieces, info);
    assert s1.torrents[key] == Torrent(info);
    Kept(s0.pieces, s1.pieces, info, Cut(content, size), h);
    UploadedCovers(s0.pieces, s1.pieces, Cut(content, size), h);
    UploadedCovers(s1.pieces, s2.pieces, Cut(content, size), h);
  }

  /** Going through another piece length loses nothing: A then B is B. */
  lemma RepackVia(before: Pieces, mid: Pieces, info: Info, a: nat, b: nat, h: Hasher)
    requires CollisionFree(h) && a > 0 && b > 0 && WellFormed(before, info)
    requires Uploaded(before, mid, Cut(Content(before, info), a), h)
    ensures var content := Content(before, info);
            var info' := Repacked(info, a, content, h);
            && Covers(mid, info'.pieces)
            && Repacked(info', b, Content(mid, info'), h) == Repacked(info, b, content, h)
  {
    SameStream(before, mid, info, a, h);
  }

  /** Cutting at the original piece length gives back the original info dictionary. */
  lemma RepackSelf(pieces: Pieces, info: Info, h: Hasher)
    requires WellFormed(pieces, info) && Hashed(pieces, h)
    ensures Repacked(info, info.pieceLength, Content(pieces, info), h) == info
  {
    CutFlatten(Data(pieces, info.pieces), info.pieceLength);
    HashOfData(pieces, info.pieces, h);
  }

  /** Repacking to `size` and then back gives the info dictionary it started from. */
  lemma RepackBack(before: Pieces, mid: Pieces, info: Info, size: nat, h: Hasher)
    requires CollisionFree(h) && size > 0 && WellFormed(before, info) && Hashed(before, h)
    requires Uploaded(before, mid, Cut(Content(before, info), size), h)
    ensures var info' := Repacked(info, size, Content(before, info), h);
            && Covers(mid, info'.pieces)
            && Content(mid, info') == Content(before, info)
            && Repacked(info', info.pieceLength, Content(before, info), h) == info
    ensures HashAll(h, Cut(Content(before, info), info.pieceLength)) == info.pieces
  {
    SameStream(before, mid, info, size, h);
    RepackSelf(before, info, h);
  }

  /** Round trip: repacking to `size` and then back to the original piece length
      restores exactly the original hashes, and the way back leaves the store as it
      is. */
  lemma RepackRoundTrip(s0: Store, s1: Store, s2: Store, key: string, size: nat, h: Hasher, ih: InfoHasher)
    requires CollisionFree(h) && InfoCollisionFree(ih) && Good(s0, h)
    requires Completed(s0, s1, key, size, h, ih)
    requires var info := s0.torrents[key].info;
             var info' := Repacked(info, size, Content(s0.pieces, info), h);
             Completed(s1, s2, ih(info'), info.pieceLength, h, ih)
    ensures s2 == s1 && s2.torrents[key] == s0.torrents[key]
  {
    var info := s0.torrents[key].info;
    var content := Content(s0.pieces, info);
    var info' := Repacked(info, size, content, h);
    RepackBack(s0.pieces, s1.pieces, info, size, h);
    if ih(info') == key {
      assert info' == info;
    } else {
      assert s1.torrents[ih(info')] == Torrent(info') && s1.torrents[key] == Torrent(info);
    }
    Restored(s1, s2, ih(info'), key, info', info, content, h, ih);
  }

  /** A completed repack whose result is already stored changes nothing. */
  lemma Restored(s1: Store, s2: Store, from: string, to: string, info: Info, info': Info, content: Bytes,
                 h: Hasher, ih: InfoHasher)
    requires Completed(s1, s2, from, info'.pieceLength, h, ih) && s1.torrents[from] == Torrent(info)
    requires content == Content(s1.pieces, info) && info' == Repacked(info, info'.pieceLength, content, h)
    requires ih(info') == to && to in s1.torrents && s1.torrents[to] == Torrent(info')
    requires Covers(s1.pieces, info'.pieces)
    ensures s2 == s1
  {
    UploadedCovers(s1.pieces, s2.pieces, Cut(content, info'.pieceLength), h);
  }
}
