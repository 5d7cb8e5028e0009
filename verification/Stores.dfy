/**
 The object store all commands share: torrent blobs under their infohash, pieces under
 the hash of their bytes. The two key families never collide (config.go lines 169-175),
 so they are two maps.
 */
module Stores {
  import opened Streams
  import opened TorrentMetas

  /** Content hash of a piece, and infohash of an info dictionary. */
  type Hasher = Bytes -> string
  type InfoHasher = Info -> string

  ghost predicate CollisionFree(h: Hasher) {
    forall a, b {:trigger h(a), h(b)} :: h(a) == h(b) ==> a == b
  }

  ghost predicate InfoCollisionFree(ih: InfoHasher) {
    forall a, b {:trigger ih(a), ih(b)} :: ih(a) == ih(b) ==> a == b
  }

  datatype Blob = Torrent(info: Info) | Malformed

  type Pieces = map<string, Bytes>

  datatype Store = Store(torrents: map<string, Blob>, pieces: Pieces)

  /** Every piece key holds bytes with that hash. */
  ghost predicate Hashed(pieces: Pieces, h: Hasher) {
    forall k | k in pieces :: h(pieces[k]) == k
  }

  /** Every listed piece is stored. */
  ghost predicate Covers(pieces: Pieces, hashes: seq<string>) {
    forall i | 0 <= i < |hashes| :: hashes[i] in pieces
  }

  /** Every stored torrent has all its pieces: the commit marker means complete. */
  ghost predicate Committed(st: Store) {
    forall k | k in st.torrents && st.torrents[k].Torrent? :: Covers(st.pieces, st.torrents[k].info.pieces)
  }

  ghost predicate Good(st: Store, h: Hasher) {
    Hashed(st.pieces, h) && Committed(st)
  }

  function HashAll(h: Hasher, chunks: seq<Bytes>): seq<string> {
    seq(|chunks|, i requires 0 <= i < |chunks| => h(chunks[i]))
  }

  /** The stored bytes of a list of pieces. */
  function Data(pieces: Pieces, hashes: seq<string>): seq<Bytes>
    requires Covers(pieces, hashes)
  {
    seq(|hashes|, i requires 0 <= i < |hashes| => pieces[hashes[i]])
  }

  /** Content addressing makes hashing and looking up inverse to each other. */
  lemma HashOfData(pieces: Pieces, hashes: seq<string>, h: Hasher)
    requires Hashed(pieces, h) && Covers(pieces, hashes)
    ensures HashAll(h, Data(pieces, hashes)) == hashes
  {
    var data := Data(pieces, hashes);
    forall i | 0 <= i < |hashes|
      ensures HashAll(h, data)[i] == hashes[i]
    {
      assert data[i] == pieces[hashes[i]];
    }
  }

  lemma DataOfHash(pieces: Pieces, chunks: seq<Bytes>, h: Hasher)
    requires CollisionFree(h) && Hashed(pieces, h) && Covers(pieces, HashAll(h, chunks))
    ensures Data(pieces, HashAll(h, chunks)) == chunks
  {
    var hashes := HashAll(h, chunks);
    forall i | 0 <= i < |chunks|
      ensures Data(pieces, hashes)[i] == chunks[i]
    {
      assert hashes[i] == h(chunks[i]);
      assert h(pieces[hashes[i]]) == hashes[i];
    }
  }
}
