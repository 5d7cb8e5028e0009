/**
 One `repack` process (repack.go lines 131-241) as a step system: the main goroutine
 streams the source and emits chunks, every chunk has an uploader, prefetches come and
 go, and all store operations share one semaphore of `upSem` tokens. Any step of any
 goroutine may come next, and the process may die.
 */
module RepackMachine {
  import opened Streams
  import opened TorrentMetas
  import opened Stores
  import opened PieceStreams
  import opened Repacks
  import opened Recency
  import P = FetchProtocol

  datatype Upload = Waiting | Statting | Putting | Stored | Skipped

  datatype Main = Streaming | FetchingPiece(call: nat) | Draining | Finished | Aborted

  /** The torrent to repack, its key, the new piece length, and what is stored before. */
  datatype Config = Config(info: Info, key: string, size: nat, ih: InfoHasher, upSem: nat, cap: int, before: Store)

  /** `idx` source pieces are loaded. `stream` is what of them is not emitted yet; `chunks`
      are emitted, each with its uploader. */
  datatype State = State(proto: P.State, main: Main, idx: nat, stream: Bytes, chunks: seq<Bytes>, uploads: seq<Upload>,
                         store: Store)

  datatype Step =
    | Fetch(id: nat)                 // main calls fetch(idx)
    | Loaded | Lost                  // fetch returned the piece, or threw
    | Emit                           // a full chunk, or the last one: spawn its uploader
    | Drain                          // end of stream: wait for the uploaders
    | Mismatch                       // the stream is not as long as the info dictionary says
    | Publish | PublishFail
    | Acquire(j: nat) | StatYes(j: nat) | StatNo(j: nat) | Upload(j: nat) | UploadFail(j: nat)
    | Inner(step: P.Step)            // a step of a fetch or prefetch

  predicate Busy(u: Upload) {
    u.Statting? || u.Putting?
  }

  ghost function Holders(s: State): set<nat> {
    set id | id in s.proto.calls && P.HoldsToken(s.proto.calls[id].pc)
  }

  ghost function BusyUploads(s: State): set<nat> {
    set j | 0 <= j < |s.uploads| && Busy(s.uploads[j])
  }

  /** Tokens of the shared semaphore in use. */
  ghost function Tokens(s: State): nat {
    |Holders(s)| + |BusyUploads(s)|
  }

  /** Enough source bytes are loaded for the next chunk, or there are no more to load. */
  ghost predicate ChunkReady(c: Config, s: State) {
    |s.stream| >= c.size || (s.idx == |c.info.pieces| && s.stream != [])
  }

  ghost predicate Enabled(c: Config, s: State, step: Step, h: Hasher) {
    && s.idx <= |c.info.pieces| && |s.uploads| == |s.chunks| && !s.main.Finished? && !s.main.Aborted?
    && match step
       case Fetch(id) => s.main.Streaming? && !ChunkReady(c, s) && s.idx < |c.info.pieces| && id !in s.proto.calls
       case Loaded => s.main.FetchingPiece? && s.idx < |c.info.pieces| && FetchDone(s, s.main.call, true)
       case Lost => s.main.FetchingPiece? && FetchDone(s, s.main.call, false)
       case Emit => s.main.Streaming? && ChunkReady(c, s)
       case Drain => s.main.Streaming? && !ChunkReady(c, s) && s.idx == |c.info.pieces|
       case Mismatch => s.main.Draining? && AllSettled(s) && !LengthOk(c, s)
       case Publish => s.main.Draining? && AllSettled(s) && LengthOk(c, s) && c.size > 0
       case PublishFail => s.main.Draining?
       case Acquire(j) => j < |s.uploads| && s.uploads[j].Waiting? && Tokens(s) < c.upSem
       case StatYes(j) => j < |s.uploads| && s.uploads[j].Statting? && h(s.chunks[j]) in s.store.pieces
       case StatNo(j) => j < |s.uploads| && s.uploads[j].Statting?
       case Upload(j) => j < |s.uploads| && s.uploads[j].Putting?
       case UploadFail(j) => j < |s.uploads| && s.uploads[j].Putting?
       case Inner(p) =>
         && (p.Start? ==> p.kind.Prefetch? && p.hash in c.info.pieces)
         && P.Enabled(s.proto, p, h, Tokens(s) < c.upSem)
  }

  ghost predicate AllSettled(s: State) {
    forall j {:trigger s.uploads[j]} | 0 <= j < |s.uploads| :: s.uploads[j].Stored? || s.uploads[j].Skipped?
  }

  /** The emitted chunks add up to the length of the torrent. */
  ghost predicate LengthOk(c: Config, s: State) {
    |Flatten(s.chunks)| == TotalLength(c.info)
  }

  ghost predicate FetchDone(s: State, call: nat, found: bool) {
    && call in s.proto.calls
    && var pc := s.proto.calls[call].pc;
    if found then pc.Done? && pc.result.Some? else pc.Threw? || (pc.Done? && pc.result.None?)
  }

  /** The info dictionary to publish: only the piece length and the hashes change. */
  ghost function NewInfo(c: Config, chunks: seq<Bytes>, h: Hasher): Info {
    c.info.(pieceLength := c.size, pieces := HashAll(h, chunks))
  }

  /** The torrent objects after publishing; an unchanged key is not written again. */
  ghost function Published(c: Config, chunks: seq<Bytes>, h: Hasher): map<string, Blob> {
    var info' := NewInfo(c, chunks, h);
    if c.ih(info') == c.key then c.before.torrents else c.before.torrents[c.ih(info') := Torrent(info')]
  }

  ghost function Next(c: Config, s: State, step: Step, h: Hasher): State
    requires Enabled(c, s, step, h)
  {
    match step
    case Fetch(id) =>
      s.(main := FetchingPiece(id),
         proto := P.Next(s.proto, P.Start(id, P.Foreground, 0, c.info.pieces[s.idx]), c.cap))
    case Loaded =>
      s.(main := Streaming, idx := s.idx + 1, stream := s.stream + s.proto.calls[s.main.call].pc.result.value)
    case Lost => s.(main := Aborted)
    case Emit =>
      var n := Min(c.size, |s.stream|);
      s.(stream := s.stream[n..], chunks := s.chunks + [s.stream[..n]], uploads := s.uploads + [Waiting])
    case Drain => s.(main := Draining)
    case Publish => s.(main := Finished, store := s.store.(torrents := Published(c, s.chunks, h)))
    case PublishFail => s.(main := Aborted)
    case Mismatch => s.(main := Aborted)
    case Acquire(j) => s.(uploads := s.uploads[j := Statting])
    case StatYes(j) => s.(uploads := s.uploads[j := Skipped])
    case StatNo(j) => s.(uploads := s.uploads[j := Putting])
    case Upload(j) =>
      s.(uploads := s.uploads[j := Stored],
         store := s.store.(pieces := s.store.pieces[h(s.chunks[j]) := s.chunks[j]]))
    case UploadFail(j) => s.(main := Aborted)
    case Inner(p) => s.(proto := P.Next(s.proto, p, c.cap))
  }

  ghost function Init(c: Config): State {
    State(P.Init, Streaming, 0, [], [], [], c.before)
  }

  /** The source is stored, and store contents match their keys. */
  ghost predicate ValidConfig(c: Config, h: Hasher) {
    CollisionFree(h) && Hashed(c.before.pieces, h) && Covers(c.before.pieces, c.info.pieces) && c.size > 0
  }

  /** The source pieces. */
  ghost function Source(c: Config): seq<Bytes>
    requires Covers(c.before.pieces, c.info.pieces)
  {
    Data(c.before.pieces, c.info.pieces)
  }

  /** Hashes of the chunks uploaded so far. */
  ghost function StoredKeys(uploads: seq<Upload>, chunks: seq<Bytes>, h: Hasher): set<string>
    requires |uploads| <= |chunks|
  {
    set j | 0 <= j < |uploads| && uploads[j].Stored? :: h(chunks[j])
  }

  /** The pieces so far: what was there, plus the uploaded chunks; a skipped chunk is
      there already. */
  ghost predicate PiecesOk(before: Pieces, pieces: Pieces, uploads: seq<Upload>, chunks: seq<Bytes>, h: Hasher) {
    && |uploads| <= |chunks|
    && pieces.Keys == before.Keys + StoredKeys(uploads, chunks, h)
    && (forall k | k in before :: pieces[k] == before[k])
    && Hashed(pieces, h)
    && (forall j {:trigger uploads[j]} | 0 <= j < |uploads| && uploads[j].Skipped? :: h(chunks[j]) in pieces)
  }

  ghost predicate StoreOk(c: Config, s: State, h: Hasher) {
    && PiecesOk(c.before.pieces, s.store.pieces, s.uploads, s.chunks, h)
    && s.store.torrents == if s.main.Finished? then Published(c, s.chunks, h) else c.before.torrents
  }

  ghost predicate MainOk(c: Config, s: State) {
    && |s.uploads| == |s.chunks| && s.idx <= |c.info.pieces|
    && (s.main.FetchingPiece? ==>
          && s.idx < |c.info.pieces| && s.main.call in s.proto.calls
          && s.proto.calls[s.main.call].hash == c.info.pieces[s.idx])
    && (s.main.Draining? || s.main.Finished? ==> s.idx == |c.info.pieces| && s.stream == [])
    && (forall id {:trigger s.proto.calls[id]} | id in s.proto.calls :: s.proto.calls[id].hash in c.info.pieces)
    && (s.main.Finished? ==> AllSettled(s) && LengthOk(c, s))
  }

  /** The emitted chunks and the rest of the stream are what was loaded, and the chunks are
      cut as BEP 3 asks: full ones, then at the very end perhaps a shorter one. */
  ghost predicate StreamOk(c: Config, s: State) {
    && Covers(c.before.pieces, c.info.pieces) && s.idx <= |c.info.pieces|
    && Flatten(s.chunks) + s.stream == Flatten(Source(c)[..s.idx])
    && WellCut(s.chunks, c.size)
    && (s.stream != [] || s.idx < |c.info.pieces| ==> AllFull(s.chunks, c.size))
  }

  ghost predicate AllFull(chunks: seq<Bytes>, size: nat) {
    forall j {:trigger chunks[j]} | 0 <= j < |chunks| :: |chunks[j]| == size
  }

  ghost predicate Inv(c: Config, s: State, h: Hasher) {
    MainOk(c, s) && StoreOk(c, s, h) && StreamOk(c, s) && Tokens(s) <= c.upSem
  }

  /** If the fetch the main goroutine waits for has the piece, it is the source piece. */
  ghost predicate Exact(c: Config, s: State)
    requires Covers(c.before.pieces, c.info.pieces)
  {
    s.main.FetchingPiece? && s.idx < |c.info.pieces| && FetchDone(s, s.main.call, true) ==>
      s.proto.calls[s.main.call].pc.result == Some(Source(c)[s.idx])
  }

  lemma InitOk(c: Config, s: State, h: Hasher)
    requires ValidConfig(c, h) && s == Init(c)
    ensures Inv(c, s, h)
  {
    assert Holders(s) == {} && BusyUploads(s) == {};
  }

  // ---------- The semaphore

  lemma InnerHolders(s: State, p: P.Step, cap: int, h: Hasher, room: bool)
    requires P.Enabled(s.proto, p, h, room)
    ensures Holders(s.(proto := P.Next(s.proto, p, cap))) <= Holders(s) + (if p.Acquire? then {p.id} else {})
  {
    var t := P.Next(s.proto, p, cap);
    forall id | id in t.calls && P.HoldsToken(t.calls[id].pc)
      ensures id in Holders(s) || (p.Acquire? && id == p.id)
    {
      InnerCalls(s.proto, p, cap, h, room, id);
    }
  }

  /** An inner step changes one call, and only Acquire makes it hold a token. */
  lemma InnerCalls(s: P.State, p: P.Step, cap: int, h: Hasher, room: bool, id: nat)
    requires P.Enabled(s, p, h, room) && id in P.Next(s, p, cap).calls
    ensures id != p.id ==> id in s.calls && P.Next(s, p, cap).calls[id] == s.calls[id]
    ensures id == p.id && P.HoldsToken(P.Next(s, p, cap).calls[id].pc) && !p.Acquire? ==>
              id in s.calls && P.HoldsToken(s.calls[id].pc)
    ensures P.Next(s, p, cap).calls[id].hash == if p.Start? && id == p.id then p.hash
                                                else if id in s.calls then s.calls[id].hash else ""
  {}

  lemma SmallerPlus<T>(a: set<T>, b: set<T>, x: T)
    requires a <= b + {x}
    ensures |a| <= |b| + 1
  {
    P.Bigger(a, b + {x});
  }

  lemma UploadTokens(s: State, t: State, j: nat, u: Upload)
    requires j < |s.uploads| && t.uploads == s.uploads[j := u] && t.proto == s.proto
    ensures Tokens(t) <= Tokens(s) + 1
    ensures Busy(s.uploads[j]) || !Busy(u) ==> Tokens(t) <= Tokens(s)
  {
    assert Holders(t) == Holders(s);
    assert BusyUploads(t) <= BusyUploads(s) + {j};
    SmallerPlus(BusyUploads(t), BusyUploads(s), j);
    if Busy(s.uploads[j]) || !Busy(u) {
      P.Bigger(BusyUploads(t), BusyUploads(s));
    }
  }

  // ---------- One step keeps the invariant

  lemma InnerKeeps(c: Config, s: State, p: P.Step, h: Hasher)
    requires Inv(c, s, h) && P.Enabled(s.proto, p, h, Tokens(s) < c.upSem)
    requires p.Start? ==> p.hash in c.info.pieces
    ensures Inv(c, s.(proto := P.Next(s.proto, p, c.cap)), h)
  {
    InnerTokens(c, s, p, h);
    InnerMain(c, s, p, h);
  }

  lemma InnerTokens(c: Config, s: State, p: P.Step, h: Hasher)
    requires Tokens(s) <= c.upSem && P.Enabled(s.proto, p, h, Tokens(s) < c.upSem)
    ensures Tokens(s.(proto := P.Next(s.proto, p, c.cap))) <= c.upSem
  {
    var t := s.(proto := P.Next(s.proto, p, c.cap));
    InnerHolders(s, p, c.cap, h, Tokens(s) < c.upSem);
    assert BusyUploads(t) == BusyUploads(s);
    if p.Acquire? {
      SmallerPlus(Holders(t), Holders(s), p.id);
    } else {
      P.Bigger(Holders(t), Holders(s));
    }
  }

  lemma InnerMain(c: Config, s: State, p: P.Step, h: Hasher)
    requires MainOk(c, s) && P.Enabled(s.proto, p, h, Tokens(s) < c.upSem) && (p.Start? ==> p.hash in c.info.pieces)
    ensures MainOk(c, s.(proto := P.Next(s.proto, p, c.cap)))
  {
    var room, t := Tokens(s) < c.upSem, s.(proto := P.Next(s.proto, p, c.cap));
    forall id {:trigger t.proto.calls[id]} | id in t.proto.calls
      ensures t.proto.calls[id].hash in c.info.pieces
    {
      InnerCalls(s.proto, p, c.cap, h, room, id);
    }
    if s.main.FetchingPiece? {
      InnerMonotone(s.proto, p, c.cap, h, room, s.main.call);
      InnerCalls(s.proto, p, c.cap, h, room, s.main.call);
    }
  }

  lemma InnerMonotone(s: P.State, p: P.Step, cap: int, h: Hasher, room: bool, id: nat)
    requires P.Enabled(s, p, h, room) && id in s.calls
    ensures id in P.Next(s, p, cap).calls
  {}

  lemma StoredKeysAdd(uploads: seq<Upload>, chunks: seq<Bytes>, j: nat, h: Hasher)
    requires j < |uploads| <= |chunks| && !uploads[j].Stored?
    ensures StoredKeys(uploads[j := Stored], chunks, h) == StoredKeys(uploads, chunks, h) + {h(chunks[j])}
  {
    var now := uploads[j := Stored];
    forall x | x in StoredKeys(uploads, chunks, h) + {h(chunks[j])}
      ensures x in StoredKeys(now, chunks, h)
    {
      if x == h(chunks[j]) {
        assert now[j].Stored?;
      } else {
        var i :| 0 <= i < |uploads| && uploads[i].Stored? && x == h(chunks[i]);
        assert now[i].Stored?;
      }
    }
  }

  lemma StoredKeysSame(uploads: seq<Upload>, now: seq<Upload>, chunks: seq<Bytes>, chunks': seq<Bytes>, h: Hasher)
    requires |uploads| <= |now| <= |chunks'| && |uploads| <= |chunks| && chunks <= chunks'
    requires forall i {:trigger now[i]} | 0 <= i < |now| :: now[i].Stored? <==> i < |uploads| && uploads[i].Stored?
    ensures StoredKeys(now, chunks', h) == StoredKeys(uploads, chunks, h)
  {
    forall x | x in StoredKeys(uploads, chunks, h)
      ensures x in StoredKeys(now, chunks', h)
    {
      var i :| 0 <= i < |uploads| && uploads[i].Stored? && x == h(chunks[i]);
      assert now[i].Stored?;
    }
  }

  /** Storing a chunk under its hash keeps the store content-addressed. */
  lemma UploadPieces(before: Pieces, pieces: Pieces, uploads: seq<Upload>, chunks: seq<Bytes>, j: nat, h: Hasher)
    requires CollisionFree(h) && Hashed(before, h) && PiecesOk(before, pieces, uploads, chunks, h)
    requires j < |uploads| && uploads[j].Putting?
    ensures PiecesOk(before, pieces[h(chunks[j]) := chunks[j]], uploads[j := Stored], chunks, h)
  {
    StoredKeysAdd(uploads, chunks, j, h);
    StoreChunk(before, pieces, chunks[j], h);
    var now := uploads[j := Stored];
    assert forall i {:trigger now[i]} | 0 <= i < |now| && now[i].Skipped? :: uploads[i].Skipped?;
  }

  lemma StoreChunk(before: Pieces, pieces: Pieces, chunk: Bytes, h: Hasher)
    requires CollisionFree(h) && Hashed(before, h) && Hashed(pieces, h)
    requires before.Keys <= pieces.Keys && forall k | k in before :: pieces[k] == before[k]
    ensures var after := pieces[h(chunk) := chunk];
            && Hashed(after, h) && after.Keys == pieces.Keys + {h(chunk)}
            && forall k | k in before :: after[k] == before[k]
  {
    if h(chunk) in before {
      assert h(before[h(chunk)]) == h(chunk);
    }
  }

  /** Any other change of one uploader leaves the pieces as they are. */
  lemma OtherPieces(before: Pieces, pieces: Pieces, uploads: seq<Upload>, chunks: seq<Bytes>, j: nat, u: Upload,
                    h: Hasher)
    requires PiecesOk(before, pieces, uploads, chunks, h) && j < |uploads| && !uploads[j].Stored? && !u.Stored?
    requires u.Skipped? ==> h(chunks[j]) in pieces
    ensures PiecesOk(before, pieces, uploads[j := u], chunks, h)
  {
    StoredKeysSame(uploads, uploads[j := u], chunks, chunks, h);
  }

  /** Every step keeps the invariant. */
  lemma StepKeeps(c: Config, s: State, step: Step, h: Hasher)
    requires ValidConfig(c, h) && Inv(c, s, h) && Exact(c, s) && Enabled(c, s, step, h)
    ensures Inv(c, Next(c, s, step, h), h)
  {
    match step
    case Fetch(id) => FetchKeeps(c, s, id, h);
    case Inner(p) => InnerKeeps(c, s, p, h);
    case Emit => EmitKeeps(c, s, h);
    case Loaded => LoadedKeeps(c, s, h);
    case Acquire(j) => UploaderKeeps(c, s, step, j, Statting, h);
    case StatYes(j) => UploaderKeeps(c, s, step, j, Skipped, h);
    case StatNo(j) => UploaderKeeps(c, s, step, j, Putting, h);
    case Upload(j) => UploadKeeps(c, s, j, h);
    case _ => MainKeeps(c, s, step, h);
  }

  lemma FetchKeeps(c: Config, s: State, id: nat, h: Hasher)
    requires Inv(c, s, h) && Enabled(c, s, Fetch(id), h)
    ensures Inv(c, Next(c, s, Fetch(id), h), h)
  {
    var p := P.Start(id, P.Foreground, 0, c.info.pieces[s.idx]);
    InnerKeeps(c, s, p, h);
    var t, u := Next(c, s, Fetch(id), h), s.(proto := P.Next(s.proto, p, c.cap));
    SameTokens(t, u);
  }

  lemma SameTokens(s: State, t: State)
    requires s.proto == t.proto && s.uploads == t.uploads
    ensures Tokens(s) == Tokens(t)
  {
    assert Holders(s) == Holders(t) && BusyUploads(s) == BusyUploads(t);
  }

  lemma MainKeeps(c: Config, s: State, step: Step, h: Hasher)
    requires Inv(c, s, h) && Enabled(c, s, step, h)
    requires || step.Lost? || step.Drain? || step.Mismatch?
             || step.Publish? || step.PublishFail? || step.UploadFail?
    ensures Inv(c, Next(c, s, step, h), h)
  {
    SameTokens(s, Next(c, s, step, h));
  }

  /** A new chunk has been neither stored nor skipped. */
  lemma EmitPieces(before: Pieces, pieces: Pieces, uploads: seq<Upload>, chunks: seq<Bytes>, chunk: Bytes, h: Hasher)
    requires PiecesOk(before, pieces, uploads, chunks, h) && |uploads| == |chunks|
    ensures PiecesOk(before, pieces, uploads + [Waiting], chunks + [chunk], h)
  {
    StoredKeysSame(uploads, uploads + [Waiting], chunks, chunks + [chunk], h);
  }

  lemma EmitKeeps(c: Config, s: State, h: Hasher)
    requires ValidConfig(c, h) && Inv(c, s, h) && Enabled(c, s, Emit, h)
    ensures Inv(c, Next(c, s, Emit, h), h)
  {
    EmitOk(c, s, h);
    EmitStream(c, s, Min(c.size, |s.stream|));
  }

  lemma EmitOk(c: Config, s: State, h: Hasher)
    requires MainOk(c, s) && StoreOk(c, s, h) && Enabled(c, s, Emit, h)
    ensures var t := Next(c, s, Emit, h);
            MainOk(c, t) && StoreOk(c, t, h) && Tokens(t) == Tokens(s)
  {
    var t, n := Next(c, s, Emit, h), Min(c.size, |s.stream|);
    EmitPieces(c.before.pieces, s.store.pieces, s.uploads, s.chunks, s.stream[..n], h);
    assert Holders(t) == Holders(s) && BusyUploads(t) == BusyUploads(s);
  }

  lemma EmitStream(c: Config, s: State, n: nat)
    requires StreamOk(c, s) && ChunkReady(c, s) && n == Min(c.size, |s.stream|)
    ensures StreamOk(c, s.(stream := s.stream[n..], chunks := s.chunks + [s.stream[..n]],
                              uploads := s.uploads + [Waiting]))
  {
    SameBytes(s.chunks, s.stream, n);
  }

  lemma SameBytes(chunks: seq<Bytes>, stream: Bytes, n: nat)
    requires n <= |stream|
    ensures Flatten(chunks + [stream[..n]]) + stream[n..] == Flatten(chunks) + stream
  {
    var chunk, rest := stream[..n], stream[n..];
    FlattenAppend(chunks, [chunk]);
    FlattenOne(chunk);
    assert stream == chunk + rest;
    Assoc(Flatten(chunks), chunk, rest);
  }

  /** The loaded piece goes to the end of the stream. */
  lemma LoadedKeeps(c: Config, s: State, h: Hasher)
    requires ValidConfig(c, h) && Inv(c, s, h) && Exact(c, s) && Enabled(c, s, Step.Loaded, h)
    ensures Inv(c, Next(c, s, Step.Loaded, h), h)
  {
    LoadedStream(c, s, Source(c)[s.idx]);
    SameTokens(s, Next(c, s, Step.Loaded, h));
  }

  lemma LoadedStream(c: Config, s: State, piece: Bytes)
    requires StreamOk(c, s) && s.idx < |c.info.pieces| && piece == Source(c)[s.idx]
    ensures StreamOk(c, s.(main := Streaming, idx := s.idx + 1, stream := s.stream + piece))
  {
    var source := Source(c);
    assert source[..s.idx + 1] == source[..s.idx] + [piece];
    FlattenAppend(source[..s.idx], [piece]);
    FlattenOne(piece);
    Assoc(Flatten(s.chunks), s.stream, piece);
  }

  /** The fetch protocol gives it the source piece. */
  lemma ProtoExact(c: Config, s: State, h: Hasher)
    requires ValidConfig(c, h) && MainOk(c, s) && P.Inv(s.proto, c.cap, h)
    ensures Exact(c, s)
  {
    if s.main.FetchingPiece? && FetchDone(s, s.main.call, true) {
      var call := s.proto.calls[s.main.call];
      assert P.CallOk(s.proto, s.main.call, call, c.cap, h);
      StoredHash(c, call.hash, h);
      assert h(call.pc.result.value) == h(c.before.pieces[call.hash]);
    }
  }

  lemma UploaderKeeps(c: Config, s: State, step: Step, j: nat, u: Upload, h: Hasher)
    requires Inv(c, s, h) && Enabled(c, s, step, h)
    requires || (step == Acquire(j) && u == Statting)
             || (step == StatYes(j) && u == Skipped)
             || (step == StatNo(j) && u == Putting)
    ensures Inv(c, Next(c, s, step, h), h)
  {
    OtherPieces(c.before.pieces, s.store.pieces, s.uploads, s.chunks, j, u, h);
    UploadTokens(s, Next(c, s, step, h), j, u);
  }

  lemma UploadKeeps(c: Config, s: State, j: nat, h: Hasher)
    requires ValidConfig(c, h) && Inv(c, s, h) && Enabled(c, s, Upload(j), h)
    ensures Inv(c, Next(c, s, Upload(j), h), h)
  {
    UploadPieces(c.before.pieces, s.store.pieces, s.uploads, s.chunks, j, h);
    UploadTokens(s, Next(c, s, Upload(j), h), j, Stored);
  }

  // ---------- Whole runs

  ghost predicate Execution(c: Config, states: seq<State>, steps: seq<Step>, h: Hasher) {
    && |states| == |steps| + 1 && states[0] == Init(c)
    && forall i {:trigger steps[i]} | 0 <= i < |steps| ::
         Enabled(c, states[i], steps[i], h) && states[i + 1] == Next(c, states[i], steps[i], h)
  }

  /** The fetch protocol keeps its own invariant. */
  lemma ProtoKeeps(c: Config, s: State, step: Step, h: Hasher)
    requires Enabled(c, s, step, h) && P.Inv(s.proto, c.cap, h)
    ensures P.Inv(Next(c, s, step, h).proto, c.cap, h)
  {
    if step.Inner? {
      P.StepKeeps(s.proto, step.step, c.cap, h, Tokens(s) < c.upSem);
    } else if step.Fetch? {
      P.StepKeeps(s.proto, P.Start(step.id, P.Foreground, 0, c.info.pieces[s.idx]), c.cap, h, true);
    }
  }

  lemma {:induction false} AlwaysProto(c: Config, states: seq<State>, steps: seq<Step>, h: Hasher, i: nat)
    requires Execution(c, states, steps, h) && i < |states|
    ensures P.Inv(states[i].proto, c.cap, h)
  {
    if i == 0 {
      P.InitOk(c.cap, h);
    } else {
      AlwaysProto(c, states, steps, h, i - 1);
      assert Enabled(c, states[i - 1], steps[i - 1], h);
      ProtoKeeps(c, states[i - 1], steps[i - 1], h);
    }
  }

  ghost predicate InvAt(c: Config, states: seq<State>, h: Hasher, i: int)
    requires Covers(c.before.pieces, c.info.pieces)
  {
    0 <= i < |states| && Inv(c, states[i], h) && Exact(c, states[i])
  }

  /** The invariant holds at any moment of any run; so at most `upSem` store operations hold
      the semaphore. */
  lemma {:induction false} AlwaysInv(c: Config, states: seq<State>, steps: seq<Step>, h: Hasher, i: nat)
    requires ValidConfig(c, h) && Execution(c, states, steps, h) && i < |states|
    ensures InvAt(c, states, h, i)
  {
    if i == 0 {
      InitOk(c, states[0], h);
    } else {
      AlwaysInv(c, states, steps, h, i - 1);
      AlwaysProto(c, states, steps, h, i);
      OneStep(c, states, steps, h, i);
    }
  }

  lemma OneStep(c: Config, states: seq<State>, steps: seq<Step>, h: Hasher, i: nat)
    requires ValidConfig(c, h) && Execution(c, states, steps, h) && 0 < i < |states|
    requires InvAt(c, states, h, i - 1) && P.Inv(states[i].proto, c.cap, h)
    ensures InvAt(c, states, h, i)
  {
    assert Enabled(c, states[i - 1], steps[i - 1], h);
    StepKeeps(c, states[i - 1], steps[i - 1], h);
    ProtoExact(c, states[i], h);
  }

  ghost function NewPuts(s: State): set<nat> {
    set j | 0 <= j < |s.uploads| && s.uploads[j].Stored?
  }

  ghost function SkipPuts(s: State): set<nat> {
    set j | 0 <= j < |s.uploads| && s.uploads[j].Skipped?
  }

  ghost function Below(n: nat): (r: set<nat>)
    ensures |r| == n
    ensures forall j: nat :: j in r <==> j < n
  {
    if n == 0 then {} else Below(n - 1) + {n - 1}
  }

  lemma SettledCount(s: State)
    requires AllSettled(s)
    ensures |NewPuts(s)| + |SkipPuts(s)| == |s.uploads|
  {
    assert NewPuts(s) !! SkipPuts(s);
    assert NewPuts(s) + SkipPuts(s) == Below(|s.uploads|);
  }

  /** When the torrent key is written, every new piece is stored under its hash, nothing
      else changed, and every chunk was either put or skipped. */
  lemma FinishedIsComplete(c: Config, states: seq<State>, steps: seq<Step>, h: Hasher, i: nat)
    requires ValidConfig(c, h) && Execution(c, states, steps, h) && i < |states| && states[i].main.Finished?
    ensures var s := states[i];
            && Uploaded(c.before.pieces, s.store.pieces, s.chunks, h)
            && s.store.torrents == Published(c, s.chunks, h)
            && |NewPuts(s)| + |SkipPuts(s)| == |s.chunks|
            && |Flatten(s.chunks)| == TotalLength(c.info)
  {
    AlwaysInv(c, states, steps, h, i);
    var s := states[i];
    SettledCount(s);
    var all := set j | 0 <= j < |s.chunks| :: h(s.chunks[j]);
    forall x | x in all
      ensures x in s.store.pieces
    {
      var j :| 0 <= j < |s.chunks| && x == h(s.chunks[j]);
      assert s.uploads[j].Stored? || s.uploads[j].Skipped?;
    }
    assert s.store.pieces.Keys == c.before.pieces.Keys + all;
  }

  /** In every reachable state the chunks emitted and the stream behind them are the bytes
      of the source pieces loaded; at the end of the stream the chunks are the source's
      whole stream, cut at the new piece length. */
  lemma ChunksAreSource(c: Config, states: seq<State>, steps: seq<Step>, h: Hasher, i: nat)
    requires ValidConfig(c, h) && Execution(c, states, steps, h) && i < |states|
    ensures states[i].idx <= |c.info.pieces|
    ensures Flatten(states[i].chunks) + states[i].stream == Flatten(Source(c)[..states[i].idx])
    ensures states[i].main.Draining? || states[i].main.Finished? ==> states[i].chunks == Cut(Flatten(Source(c)), c.size)
  {
    AlwaysInv(c, states, steps, h, i);
    var s := states[i];
    if s.main.Draining? || s.main.Finished? {
      assert Flatten(s.chunks) + [] == Flatten(s.chunks) && Source(c)[..s.idx] == Source(c);
      CutFlatten(s.chunks, c.size);
    }
  }

  /** The configuration runRepack works with. */
  ghost function ConfigFor(before: Store, key: string, size: nat, upSem: nat, cap: int, ih: InfoHasher): Config
    requires key in before.torrents && before.torrents[key].Torrent?
  {
    Config(before.torrents[key].info, key, size, ih, upSem, cap, before)
  }

  /** A process that finishes has done exactly the repack of module Repacks, with the bytes
      it fetched, whatever the interleaving, the spurious Stat answers and the evictions on
      the way. */
  lemma FinishedIsRepacked(before: Store, key: string, size: nat, upSem: nat, cap: int, h: Hasher, ih: InfoHasher,
                           states: seq<State>, steps: seq<Step>, i: nat)
    requires CollisionFree(h) && Hashed(before.pieces, h)
    requires size > 0 && key in before.torrents && before.torrents[key].Torrent?
    requires ih(before.torrents[key].info) == key && WellFormed(before.pieces, before.torrents[key].info)
    requires Execution(ConfigFor(before, key, size, upSem, cap, ih), states, steps, h)
    requires i < |states| && states[i].main.Finished?
    ensures Completed(before, states[i].store, key, size, h, ih)
  {
    var c := ConfigFor(before, key, size, upSem, cap, ih);
    FinishedIsComplete(c, states, steps, h, i);
    ChunksAreSource(c, states, steps, h, i);
  }

  /** What fetch returns to the stream is the source piece it asked for. */
  lemma LoadedIsSource(c: Config, states: seq<State>, steps: seq<Step>, h: Hasher, i: nat)
    requires ValidConfig(c, h) && Execution(c, states, steps, h) && i < |states|
    requires Enabled(c, states[i], Step.Loaded, h)
    ensures states[i].proto.calls[states[i].main.call].pc.result == Some(Source(c)[states[i].idx])
  {
    AlwaysInv(c, states, steps, h, i);
  }

  /** On a well-formed torrent the stream always has the right length. */
  lemma NeverMismatch(c: Config, states: seq<State>, steps: seq<Step>, h: Hasher, i: nat)
    requires ValidConfig(c, h) && WellFormed(c.before.pieces, c.info)
    requires Execution(c, states, steps, h) && i < |states|
    ensures !Enabled(c, states[i], Mismatch, h)
  {
    ChunksAreSource(c, states, steps, h, i);
    FlattenCut(Content(c.before.pieces, c.info), c.size);
  }

  // ---------- No reachable state is stuck

  /** A step that is no failure, no crash and no new prefetch. */
  predicate Benign(step: Step) {
    && !step.PublishFail? && !step.UploadFail? && !step.Lost? && !step.Mismatch?
    && !(step.Inner? && (step.step.GetFail? || step.step.Start?))
  }

  /** The main goroutine is about to give up: its fetch came back without the piece, or the
      stream was not as long as it should be. */
  ghost predicate Doomed(c: Config, s: State) {
    || (s.main.FetchingPiece? && FetchDone(s, s.main.call, false))
    || (s.main.Draining? && AllSettled(s) && !LengthOk(c, s))
  }

  lemma StoredHash(c: Config, hash: string, h: Hasher)
    requires ValidConfig(c, h) && hash in c.info.pieces
    ensures hash in c.before.pieces && h(c.before.pieces[hash]) == hash
  {}

  lemma UploaderMoves(c: Config, s: State, h: Hasher, j: nat) returns (step: Step)
    requires MainOk(c, s) && !s.main.Finished? && !s.main.Aborted? && j in BusyUploads(s)
    ensures Benign(step) && Enabled(c, s, step, h)
  {
    if s.uploads[j].Statting? {
      step := StatNo(j);
    } else {
      step := Upload(j);
    }
  }

  lemma GetterMoves(c: Config, s: State, h: Hasher, id: nat) returns (step: Step)
    requires ValidConfig(c, h) && MainOk(c, s) && !s.main.Finished? && !s.main.Aborted? && id in Holders(s)
    ensures Benign(step) && Enabled(c, s, step, h)
  {
    var call := s.proto.calls[id];
    if call.pc.Storing? {
      step := Inner(P.PutBack(id));
    } else {
      StoredHash(c, call.hash, h);
      var p := P.GetOk(id, c.before.pieces[call.hash]);
      assert P.Enabled(s.proto, p, h, Tokens(s) < c.upSem);
      step := Inner(p);
    }
  }

  /** A token holder can always go on. */
  lemma HolderMoves(c: Config, s: State, h: Hasher) returns (step: Step)
    requires ValidConfig(c, h) && MainOk(c, s) && Tokens(s) > 0 && !s.main.Finished? && !s.main.Aborted?
    ensures Benign(step) && Enabled(c, s, step, h)
  {
    if BusyUploads(s) != {} {
      var j :| j in BusyUploads(s);
      step := UploaderMoves(c, s, h, j);
    } else {
      var id :| id in Holders(s);
      step := GetterMoves(c, s, h, id);
    }
  }

  lemma NoHolder(s: State, id: nat)
    requires Tokens(s) == 0 && id in s.proto.calls
    ensures !P.HoldsToken(s.proto.calls[id].pc)
  {
    assert Holders(s) == {};
    assert id !in Holders(s);
  }

  /** With a free token, a leader inside group.Do can always go on. */
  lemma LeaderMoves(c: Config, s: State, h: Hasher, id: nat) returns (step: Step)
    requires MainOk(c, s) && Tokens(s) == 0 && c.upSem > 0 && !s.main.Finished? && !s.main.Aborted?
    requires id in s.proto.calls && P.InFlight(s.proto.calls[id].pc)
    ensures Benign(step) && Enabled(c, s, step, h)
  {
    NoHolder(s, id);
    var pc := s.proto.calls[id].pc;
    var p := if pc.Leading? then P.Check(id) else if pc.Queued? then P.Acquire(id) else P.Leave(id);
    assert P.Enabled(s.proto, p, h, true);
    step := Inner(p);
  }

  lemma CallerMoves(c: Config, s: State, h: Hasher, p: P.Step) returns (step: Step)
    requires MainOk(c, s) && Tokens(s) == 0 && c.upSem > 0 && !s.main.Finished? && !s.main.Aborted?
    requires (p.First? || p.Enter? || p.Wake? || p.Read?) && P.Enabled(s.proto, p, h, true)
    ensures Benign(step) && Enabled(c, s, step, h)
  {
    step := Inner(p);
  }

  lemma FetchMoves(c: Config, s: State, h: Hasher) returns (step: Step)
    requires MainOk(c, s) && P.Inv(s.proto, c.cap, h) && Tokens(s) == 0 && c.upSem > 0 && s.main.FetchingPiece?
    ensures Enabled(c, s, step, h) && (Benign(step) || (Doomed(c, s) && step.Lost?))
  {
    var id := s.main.call;
    var call := s.proto.calls[id];
    assert P.CallOk(s.proto, id, call, c.cap, h);
    if P.InFlight(call.pc) {
      step := LeaderMoves(c, s, h, id);
    } else {
      match call.pc
      case Waiting(leader) =>
        if P.InFlight(s.proto.calls[leader].pc) {
          step := LeaderMoves(c, s, h, leader);
        } else {
          step := CallerMoves(c, s, h, P.Wake(id));
        }
      case Done(result, _) => step := if result.Some? then Step.Loaded else Lost;
      case Threw => step := Lost;
      case _ =>
        var p := if call.pc.Begin? then P.First(id) else if call.pc.Join? then P.Enter(id) else P.Read(id);
        step := CallerMoves(c, s, h, p);
    }
  }

  /** With at least one token, no reachable unfinished state is stuck: some goroutine can
      make a step that is not a failure, unless the main goroutine is about to give up, and
      then it can do that. */
  lemma NeverStuck(c: Config, states: seq<State>, steps: seq<Step>, h: Hasher, i: nat) returns (step: Step)
    requires ValidConfig(c, h) && Execution(c, states, steps, h) && i < |states| && c.upSem > 0
    requires !states[i].main.Finished? && !states[i].main.Aborted?
    ensures Enabled(c, states[i], step, h)
    ensures Benign(step) || (Doomed(c, states[i]) && (step.Lost? || step.Mismatch?))
  {
    AlwaysInv(c, states, steps, h, i);
    var s := states[i];
    if Tokens(s) > 0 {
      step := HolderMoves(c, s, h);
    } else if s.main.FetchingPiece? {
      AlwaysProto(c, states, steps, h, i);
      step := FetchMoves(c, s, h);
    } else if s.main.Draining? {
      if AllSettled(s) {
        step := if LengthOk(c, s) then Publish else Mismatch;
      } else {
        var j :| 0 <= j < |s.uploads| && !s.uploads[j].Stored? && !s.uploads[j].Skipped?;
        assert j !in BusyUploads(s);
        step := Acquire(j);
      }
    } else if ChunkReady(c, s) {
      step := Emit;
    } else if s.idx == |c.info.pieces| {
      step := Drain;
    } else {
      var id := FreshId(s.proto.calls.Keys);
      step := Fetch(id);
    }
  }

  lemma {:induction false} FreshId(used: set<nat>) returns (id: nat)
    ensures id !in used
    ensures forall x | x in used :: x < id
  {
    if used == {} {
      id := 0;
    } else {
      var x :| x in used;
      var rest := FreshId(used - {x});
      id := if rest > x then rest else x + 1;
      assert forall y | y in used :: y == x || y in used - {x};
    }
  }
}
