/**
 The reader `repack` slices (repack.go): `pieceStream.Read`, `io.ReadFull` over it,
 and the loop that cuts the stream into new pieces.
 */
module PieceStreams {
  import opened Streams
  import opened VirtualFiles

  datatype Buffer = Empty | Loaded(data: Bytes)

  datatype Progress = Got(n: nat, eof: bool) | Failed

  /** The reader over the source pieces, of any lengths. Fetching the pieces in `bad`
      throws; `consumed` counts the bytes handed out so far. */
  class PieceStream {
    ghost const content: Bytes
    const pieces: seq<Bytes>
    const bad: set<nat>
    var cur: nat
    var pos: nat
    var buf: Buffer
    ghost var consumed: nat

    ghost predicate Valid()
      reads this
    {
      && content == Flatten(pieces)
      && cur <= |pieces|
      && (buf.Loaded? ==> cur < |pieces| && buf.data == pieces[cur] && pos <= |buf.data|)
      && consumed == PrefixLen(pieces, cur) + (if buf.Loaded? then pos else 0)
      && consumed <= |content|
      && (forall i | i in bad :: i >= cur && (buf.Loaded? ==> i != cur))
    }

    constructor (pieces: seq<Bytes>, bad: set<nat>)
      ensures Valid() && this.pieces == pieces && this.bad == bad
      ensures consumed == 0
    {
      this.content := Flatten(pieces);
      this.pieces := pieces;
      this.bad := bad;
      cur, pos, buf, consumed := 0, 0, Empty, 0;
    }

    /** `Read(p[lo:])`: fills the slice with the next bytes of the stream, as far as
        they go. It throws exactly when it comes to a piece that cannot be fetched. */
    method Read(p: array<byte>, lo: nat) returns (r: Progress)
      requires Valid() && lo <= p.Length
      modifies this, p
      ensures r.Failed? ==> cur < |pieces| && cur in bad
      ensures r.Got? ==>
                && Valid()
                && r.n == Min(p.Length - lo, |content| - old(consumed))
                && (r.eof <==> lo < p.Length && r.n == 0) && (r.eof ==> cur == |pieces|)
                && consumed == old(consumed) + r.n
                && Filled(p, lo, lo + r.n, content, old(consumed))
                && forall i | 0 <= i < lo || lo + r.n <= i < p.Length :: p[i] == old(p[i])
    {
      var n := 0;
      while lo + n < p.Length
        invariant Valid() && lo + n <= p.Length && consumed == old(consumed) + n
        invariant Filled(p, lo, lo + n, content, old(consumed))
        invariant forall i | 0 <= i < lo || lo + n <= i < p.Length :: p[i] == old(p[i])
        decreases |pieces| - cur, p.Length - n
      {
        if cur >= |pieces| {
          PrefixTotal(pieces);
          return Got(n, n == 0);
        }
        if buf.Empty? {
          if cur in bad {
            return Failed;
          }
          buf := Loaded(pieces[cur]);
          pos := 0;
        }
        n := Step(p, lo, n, old(consumed));
      }
      PieceEnds(pieces, cur);
      return Got(n, false);
    }

    /** One turn of Read's loop with a loaded piece: copy, and move on at its end. */
    method Step(p: array<byte>, lo: nat, n: nat, ghost base: nat) returns (m: nat)
      requires Valid() && buf.Loaded? && lo + n < p.Length && consumed == base + n
      requires Filled(p, lo, lo + n, content, base)
      modifies this, p
      ensures Valid() && n <= m && lo + m <= p.Length && consumed == base + m
      ensures Filled(p, lo, lo + m, content, base)
      ensures forall i | 0 <= i < lo || lo + m <= i < p.Length :: p[i] == old(p[i])
      ensures cur == old(cur) + 1 || (cur == old(cur) && m > n)
    {
      PieceMatches(pieces, cur);
      var c := Copy(p, lo + n, p.Length, buf.data, pos);
      m := n + c;
      FillMore(p, lo, n, m, buf.data, pos, content, base);
      Advance(c);
    }

    /** Moves on by `c` bytes, to the next piece at the end of this one. */
    method Advance(c: nat)
      requires Valid() && buf.Loaded? && pos + c <= |buf.data|
      modifies this
      ensures Valid() && consumed == old(consumed) + c
      ensures cur == if old(pos) + c >= |old(buf).data| then old(cur) + 1 else old(cur)
    {
      PieceEnds(pieces, cur);
      pos := pos + c;
      consumed := consumed + c;
      if pos >= |buf.data| {
        cur := cur + 1;
        buf := Empty;
      }
    }
  }

  datatype FullRead = Full | AtEnd | Short | Broken

  /** `io.ReadFull`: reads until the buffer is full or the stream ends. */
  method ReadFull(s: PieceStream, p: array<byte>) returns (n: nat, r: FullRead)
    requires s.Valid()
    modifies s, p
    ensures r.Broken? ==> s.cur < |s.pieces| && s.cur in s.bad
    ensures r.AtEnd? || r.Short? ==> s.cur == |s.pieces|
    ensures !r.Broken? ==>
              && s.Valid() && n == Min(p.Length, |s.content| - old(s.consumed))
              && s.consumed == old(s.consumed) + n
              && Filled(p, 0, n, s.content, old(s.consumed))
              && r == if n == p.Length then Full else if n == 0 then AtEnd else Short
  {
    n := 0;
    var eof := false;
    while n < p.Length && !eof
      invariant s.Valid() && n <= p.Length && s.consumed == old(s.consumed) + n
      invariant Filled(p, 0, n, s.content, old(s.consumed))
      invariant eof ==> s.consumed == |s.content| && s.cur == |s.pieces|
      decreases p.Length - n, !eof
    {
      ghost var before, base := n, s.consumed;
      var got := s.Read(p, n);
      if got.Failed? {
        return n, Broken;
      }
      FilledJoin(p, before, before + got.n, s.content, old(s.consumed));
      n, eof := n + got.n, got.eof;
    }
    return n, if n == p.Length then Full else if n == 0 then AtEnd else Short;
  }

  lemma FilledJoin(p: array<byte>, mid: nat, hi: nat, content: Bytes, base: nat)
    requires mid <= hi <= p.Length
    requires Filled(p, 0, mid, content, base) && Filled(p, mid, hi, content, base + mid)
    ensures Filled(p, 0, hi, content, base)
  {}

  datatype Resliced = Chunks(chunks: seq<Bytes>) | WrongLength | FetchFailed

  /** The loop of runRepack (repack.go lines 158-207): the chunks it hashes and
      uploads, in order, are the stream cut at the new piece size. It terminates, gives
      up exactly when some source piece cannot be fetched, and otherwise complains exactly
      when the stream is not as long as the info dictionary says. */
  method Reslice(s: PieceStream, size: nat, total: nat) returns (r: Resliced)
    requires s.Valid() && s.consumed == 0 && size > 0
    modifies s
    ensures r.FetchFailed? <==> exists i :: i < |s.pieces| && i in s.bad
    ensures !r.FetchFailed? ==> r == if |s.content| == total then Chunks(Cut(s.content, size)) else WrongLength
  {
    var buf := new byte[size](_ => 0);
    var chunks: seq<Bytes>, bytesRead := [], 0;
    ghost var goal := Cut(s.content, size);
    ghost var tail := goal;
    assert s.content[0..] == s.content;
    while true
      invariant s.Valid() && bytesRead == s.consumed
      invariant tail == Cut(s.content[bytesRead..], size) && goal == chunks + tail
      decreases |s.content| - s.consumed
    {
      ghost var base := bytesRead;
      var n, read := ReadFull(s, buf);
      if read.Broken? {
        return FetchFailed;
      }
      if n > 0 {
        tail := TakeChunk(buf, n, s.content, base, chunks, size, tail);
        chunks, bytesRead := chunks + [buf[..n]], bytesRead + n;
      }
      if read.AtEnd? || read.Short? {
        break;
      }
    }
    if bytesRead != total {
      return WrongLength;
    }
    assert tail == [];
    return Chunks(chunks);
  }

  /** The chunk in the buffer is the next of the cut. */
  lemma TakeChunk(p: array<byte>, n: nat, content: Bytes, base: nat, chunks: seq<Bytes>, size: nat, tail: seq<Bytes>)
    returns (next: seq<Bytes>)
    requires 0 < n <= p.Length && Filled(p, 0, n, content, base) && size > 0 && n == Min(size, |content| - base)
    requires tail == Cut(content[base..], size)
    ensures next == Cut(content[base + n..], size) && chunks + tail == chunks + [p[..n]] + next
  {
    FilledChunk(p, n, content, base);
    next := CutStep(chunks, content[base..], size, n, p[..n], tail);
  }

  lemma FilledChunk(p: array<byte>, n: nat, content: Bytes, base: nat)
    requires n <= p.Length && Filled(p, 0, n, content, base)
    ensures p[..n] == content[base..][..n]
    ensures content[base + n..] == content[base..][n..]
  {
    var got, goal := p[..n], content[base..][..n];
    forall i | 0 <= i < n
      ensures got[i] == goal[i]
    {
      assert got[i] == p[i] == content[base + i - 0];
    }
  }

  lemma CutStep(chunks: seq<Bytes>, rest: Bytes, size: nat, n: nat, chunk: Bytes, tail: seq<Bytes>)
    returns (next: seq<Bytes>)
    requires size > 0 && rest != [] && n == Min(size, |rest|) && chunk == rest[..n] && tail == Cut(rest, size)
    ensures next == Cut(rest[n..], size) && chunks + tail == chunks + [chunk] + next
  {
    next := Cut(rest[n..], size);
    if |rest| <= size {
      assert rest[..n] == rest && rest[n..] == [];
    }
    assert tail == [chunk] + next;
    Assoc(chunks, [chunk], next);
  }

  /** p[lo..hi] holds what `content` does from position `base` on. */
  ghost predicate Filled(p: array<byte>, lo: nat, hi: nat, content: Bytes, base: nat)
    requires lo <= hi <= p.Length
    reads p
  {
    && base + hi - lo <= |content|
    && forall i {:trigger p[i]} | lo <= i < hi :: p[i] == content[base + i - lo]
  }

  lemma FillMore(p: array<byte>, lo: nat, n: nat, m: nat, src: Bytes, at: nat, content: Bytes, base: nat)
    requires n <= m && lo + m <= p.Length && at + m - n <= |src| && at <= base + n
    requires Filled(p, lo, lo + n, content, base)
    requires Matches(src, content, base + n - at)
    requires forall i {:trigger p[i]} | lo + n <= i < lo + m :: p[i] == src[at + i - (lo + n)]
    ensures Filled(p, lo, lo + m, content, base)
  {}

  lemma {:induction false} PrefixFlatten(pieces: seq<Bytes>, i: nat)
    requires i <= |pieces|
    ensures PrefixLen(pieces, i) == |Flatten(pieces[..i])|
  {
    if i > 0 {
      PrefixFlatten(pieces, i - 1);
      assert pieces[..i] == pieces[..i - 1] + [pieces[i - 1]];
      FlattenAppend(pieces[..i - 1], [pieces[i - 1]]);
      FlattenOne(pieces[i - 1]);
    }
  }

  lemma FlattenOne(piece: Bytes)
    ensures Flatten([piece]) == piece
  {
    assert [piece][1..] == [];
  }

  lemma PrefixTotal(pieces: seq<Bytes>)
    ensures PrefixLen(pieces, |pieces|) == |Flatten(pieces)|
  {
    PrefixFlatten(pieces, |pieces|);
    assert pieces[..|pieces|] == pieces;
  }

  /** Piece `i` of the stream starts after the first `i` pieces. */
  lemma PieceMatches(pieces: seq<Bytes>, i: nat)
    requires i < |pieces|
    ensures Matches(pieces[i], Flatten(pieces), PrefixLen(pieces, i))
  {
    var a, b := pieces[..i], pieces[i + 1..];
    assert pieces == a + ([pieces[i]] + b);
    FlattenAppend(a, [pieces[i]] + b);
    FlattenAppend([pieces[i]], b);
    FlattenOne(pieces[i]);
    PrefixFlatten(pieces, i);
  }

  lemma PieceEnds(pieces: seq<Bytes>, i: nat)
    requires i <= |pieces|
    ensures PrefixLen(pieces, i) <= |Flatten(pieces)|
    ensures i < |pieces| ==> PrefixLen(pieces, i) + |pieces[i]| <= |Flatten(pieces)|
  {
    if i < |pieces| {
      PieceMatches(pieces, i);
    } else {
      PrefixTotal(pieces);
    }
  }
}
