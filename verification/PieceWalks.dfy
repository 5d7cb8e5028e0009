/**
 The piece walk of `virtualFile.ReadAt` (sftp.go lines 257-284) as a function of the
 answers getPiece gives: how far it comes, which pieces it asks for, and why it stops.
 */
module PieceWalks {
  import opened Streams

  /** What one `getPiece` call gives: the bytes in the cache, nil, or an exception. */
  datatype Answer = Piece(data: Bytes) | Missing | Throws

  /** The answers to `getPiece` calls: what the k-th call gives if it is made for piece i.
      Depending on `k` leaves other goroutines free to change the cache in between. */
  type Source = map<(nat, nat), Answer>

  function Ask(get: Source, k: nat, i: nat): Answer {
    if (k, i) in get then get[(k, i)] else Missing
  }

  function Held(a: Answer): Bytes {
    if a.Piece? then a.data else []
  }

  /** Every `getPiece` gives a prefix of the true piece: all of it, a short object,
      or nothing. */
  ghost predicate Truthful(get: Source, pieces: seq<Bytes>) {
    forall k: nat, i: nat {:trigger Ask(get, k, i)} :: i < |pieces| ==> Matches(Held(Ask(get, k, i)), pieces[i], 0)
  }

  /** The k-th call, made for piece `i`, falls short: nil, a short object or an
      exception. */
  ghost predicate Lacks(get: Source, pieces: seq<Bytes>, k: nat, i: nat) {
    i < |pieces| && |Held(Ask(get, k, i))| < |pieces[i]|
  }

  /** `n` bytes were copied; the j-th call of the walk was for piece `log[j]`. */
  datatype Walk = Walk(n: nat, log: seq<nat>, threw: bool)

  /** The first call of a walk that moves, and the walk from there. */
  function Then(n: nat, idx: nat, rest: Walk): Walk {
    Walk(n + rest.n, [idx] + rest.log, rest.threw)
  }

  /** The walk from stream position `pos` over `left` bytes, with `count` piece hashes,
      whose first call is the k-th of all. */
  function WalkOf(get: Source, count: nat, size: nat, pos: nat, left: nat, k: nat): (w: Walk)
    requires size > 0
    ensures w.n <= left
    decreases left
  {
    if left == 0 || pos / size >= count then Walk(0, [], false)
    else
      var idx, at := pos / size, pos % size;
      var a := Ask(get, k, idx);
      if a.Throws? || at >= |Held(a)| then Walk(0, [idx], a.Throws?)
      else
        var n := Min(left, |Held(a)| - at);
        Then(n, idx, WalkOf(get, count, size, pos + n, left - n, k + 1))
  }

  /** The walk gets something from its first call. */
  predicate Moves(get: Source, count: nat, size: nat, pos: nat, left: nat, k: nat)
    requires size > 0
  {
    left > 0 && pos / size < count && !Ask(get, k, pos / size).Throws? && pos % size < |Held(Ask(get, k, pos / size))|
  }

  /** How much. */
  function Gain(get: Source, size: nat, pos: nat, left: nat, k: nat): int
    requires size > 0
  {
    Min(left, |Held(Ask(get, k, pos / size))| - pos % size)
  }

  lemma WalkMoves(get: Source, count: nat, size: nat, pos: nat, left: nat, k: nat)
    requires size > 0 && Moves(get, count, size, pos, left, k)
    ensures var n := Gain(get, size, pos, left, k);
            0 < n <= left
            && var rest := WalkOf(get, count, size, pos + n, left - n, k + 1);
               WalkOf(get, count, size, pos, left, k) == Then(n, pos / size, rest)
  {}

  // ---------- The log is what the walk asked for

  /** `other` answers the first `m` calls of the walk, from the k-th on, as `get` does. */
  ghost predicate Agree(get: Source, other: Source, k: nat, w: Walk, m: nat) {
    m <= |w.log| && forall j {:trigger w.log[j]} | 0 <= j < m ::
      Ask(other, k + j, w.log[j]) == Ask(get, k + j, w.log[j])
  }

  lemma AgreeRest(get: Source, other: Source, k: nat, n: nat, idx: nat, rest: Walk, m: nat)
    requires Agree(get, other, k, Then(n, idx, rest), m + 1)
    ensures Ask(other, k, idx) == Ask(get, k, idx) && Agree(get, other, k + 1, rest, m)
  {
    var log := Then(n, idx, rest).log;
    assert log[0] == idx;
    forall j {:trigger rest.log[j]} | 0 <= j < m
      ensures Ask(other, k + 1 + j, rest.log[j]) == Ask(get, k + 1 + j, rest.log[j])
    {
      assert log[j + 1] == rest.log[j];
    }
  }

  lemma SameMove(get: Source, other: Source, count: nat, size: nat, pos: nat, left: nat, k: nat, rest: Walk, m: nat)
    requires size > 0 && Moves(get, count, size, pos, left, k)
    requires Agree(get, other, k, Then(Gain(get, size, pos, left, k), pos / size, rest), m + 1)
    ensures var n := Gain(get, size, pos, left, k);
            && 0 < n <= left && Agree(get, other, k + 1, rest, m)
            && WalkOf(other, count, size, pos, left, k)
               == Then(n, pos / size, WalkOf(other, count, size, pos + n, left - n, k + 1))
  {
    WalkMoves(get, count, size, pos, left, k);
    AgreeRest(get, other, k, Gain(get, size, pos, left, k), pos / size, rest, m);
    WalkMoves(other, count, size, pos, left, k);
  }

  /** The outcome depends on the logged calls only. */
  lemma {:induction false} DependsOnLog(get: Source, other: Source, count: nat, size: nat, pos: nat, left: nat, k: nat)
    requires size > 0
    requires var w := WalkOf(get, count, size, pos, left, k); Agree(get, other, k, w, |w.log|)
    ensures WalkOf(other, count, size, pos, left, k) == WalkOf(get, count, size, pos, left, k)
    decreases left
  {
    if Moves(get, count, size, pos, left, k) {
      WalkMoves(get, count, size, pos, left, k);
      var n := Gain(get, size, pos, left, k);
      var rest := WalkOf(get, count, size, pos + n, left - n, k + 1);
      SameMove(get, other, count, size, pos, left, k, rest, |rest.log|);
      DependsOnLog(get, other, count, size, pos + n, left - n, k + 1);
    } else {
      SameStop(get, other, count, size, pos, left, k);
    }
  }

  lemma SameStop(get: Source, other: Source, count: nat, size: nat, pos: nat, left: nat, k: nat)
    requires size > 0 && !Moves(get, count, size, pos, left, k)
    requires var w := WalkOf(get, count, size, pos, left, k); Agree(get, other, k, w, |w.log|)
    ensures WalkOf(other, count, size, pos, left, k) == WalkOf(get, count, size, pos, left, k)
  {
    if left > 0 && pos / size < count {
      assert WalkOf(get, count, size, pos, left, k).log[0] == pos / size;
    }
  }

  // ---------- Why it stops

  /** The walk ended at position `pos` because there is no such piece hash, or because its
      last call, made for the piece `pos` lies in, threw or gave nothing from there on. */
  ghost predicate StopsAt(get: Source, count: nat, size: nat, pos: nat, k: nat, w: Walk)
    requires size > 0
  {
    var i, last := pos / size, |w.log| - 1;
    || (!w.threw && i >= count)
    || (last >= 0 && w.log[last] == i && Ask(get, k + last, i).Throws? == w.threw
        && |Held(Ask(get, k + last, i))| <= pos % size)
  }

  /** A walk over `left` bytes from `pos` that did not get through stopped for a reason. */
  ghost predicate Ended(get: Source, count: nat, size: nat, pos: nat, left: nat, k: nat, w: Walk)
    requires size > 0
  {
    w.n < left || w.threw ==> w.n < left && StopsAt(get, count, size, pos + w.n, k, w)
  }

  lemma {:induction false} StopsWhere(get: Source, count: nat, size: nat, pos: nat, left: nat, k: nat)
    requires size > 0
    ensures Ended(get, count, size, pos, left, k, WalkOf(get, count, size, pos, left, k))
    decreases left
  {
    if Moves(get, count, size, pos, left, k) {
      WalkMoves(get, count, size, pos, left, k);
      var n := Gain(get, size, pos, left, k);
      StopsWhere(get, count, size, pos + n, left - n, k + 1);
      EndedRest(get, count, size, pos, left, k, n, WalkOf(get, count, size, pos + n, left - n, k + 1));
    } else {
      EndedAtOnce(get, count, size, pos, left, k);
    }
  }

  lemma EndedAtOnce(get: Source, count: nat, size: nat, pos: nat, left: nat, k: nat)
    requires size > 0 && !Moves(get, count, size, pos, left, k)
    ensures Ended(get, count, size, pos, left, k, WalkOf(get, count, size, pos, left, k))
  {}

  lemma EndedRest(get: Source, count: nat, size: nat, pos: nat, left: nat, k: nat, n: nat, rest: Walk)
    requires size > 0 && n <= left && Ended(get, count, size, pos + n, left - n, k + 1, rest)
    ensures Ended(get, count, size, pos, left, k, Then(n, pos / size, rest))
  {
    if rest.n < left - n || rest.threw {
      StopsAtRest(get, count, size, pos / size, pos + n + rest.n, k, n, rest);
    }
  }

  lemma StopsAtRest(get: Source, count: nat, size: nat, idx: nat, end: nat, k: nat, n: nat, rest: Walk)
    requires size > 0 && StopsAt(get, count, size, end, k + 1, rest)
    ensures StopsAt(get, count, size, end, k, Then(n, idx, rest))
  {
    var log := [idx] + rest.log;
    assert rest.log != [] ==> log[|log| - 1] == rest.log[|rest.log| - 1];
  }

  /** In terms of the pieces of a stream: a read that stopped at position `pos` did so because
      there is no such piece hash, or because the last getPiece, its first being the k-th,
      was for the piece `pos` lies in and fell short; by an exception if the read threw. */
  ghost predicate StoppedBy(get: Source, content: Bytes, size: nat, count: nat, pos: nat, k: nat, log: seq<nat>,
                            threw: bool)
    requires size > 0
  {
    var i, last := pos / size, |log| - 1;
    || (!threw && i >= count)
    || (last >= k && log[last] == i && Lacks(get, Cut(content, size), last, i) && Ask(get, last, i).Throws? == threw)
  }

  lemma WhyStopped(get: Source, content: Bytes, count: nat, size: nat, pos: nat, left: nat, before: seq<nat>, w: Walk)
    requires size > 0 && pos + left <= |content| && Ended(get, count, size, pos, left, |before|, w)
    requires w.n < left || w.threw
    ensures w.n < left && StoppedBy(get, content, size, count, pos + w.n, |before|, before + w.log, w.threw)
  {
    var log, end := before + w.log, pos + w.n;
    CutInside(content, size, end);
    assert w.log != [] ==> log[|log| - 1] == w.log[|w.log| - 1];
  }

  // ---------- When it gets through

  /** The j-th call of a walk from piece `first` on, one call a piece, gives a whole piece. */
  ghost predicate Whole(get: Source, pieces: seq<Bytes>, k: nat, first: nat, j: nat) {
    !Lacks(get, pieces, k + j, first + j)
  }

  /** So do all calls for the pieces `first` to `last`. */
  ghost predicate Served(get: Source, pieces: seq<Bytes>, count: nat, first: nat, last: nat, k: nat) {
    last < count && forall j: nat {:trigger Whole(get, pieces, k, first, j)} | first + j <= last ::
      Whole(get, pieces, k, first, j)
  }

  /** The log is `first` to `last`, in order. */
  ghost predicate Consecutive(log: seq<nat>, first: nat, last: nat) {
    |log| == last - first + 1 && forall j {:trigger log[j]} | 0 <= j < |log| :: log[j] == first + j
  }

  ghost predicate Through(w: Walk, left: nat, first: nat, last: nat) {
    w.n == left && !w.threw && Consecutive(w.log, first, last)
  }

  /** The walk from `pos` to `stop` gets through. */
  ghost predicate GetsThrough(get: Source, count: nat, size: nat, pos: nat, stop: nat, k: nat, last: nat)
    requires size > 0 && pos <= stop
  {
    Through(WalkOf(get, count, size, pos, stop - pos, k), stop - pos, pos / size, last)
  }

  /** A walk whose pieces are served gets through, asking for the pieces from that of its
      first byte to that of its last, each once and in order. */
  lemma {:induction false} WholeWalk(get: Source, content: Bytes, count: nat, size: nat, pos: nat, stop: nat,
                                     last: nat, k: nat)
    requires size > 0 && pos < stop <= |content| && Truthful(get, Cut(content, size))
    requires last == (stop - 1) / size && Served(get, Cut(content, size), count, pos / size, last, k)
    ensures GetsThrough(get, count, size, pos, stop, k, last)
    decreases stop - pos
  {
    var n := WholeStep(get, content, count, size, pos, stop, last, k);
    if n < stop - pos {
      WholeWalk(get, content, count, size, pos + n, stop, last, k + 1);
      ThroughRest(get, count, size, pos, stop, k, last, n);
    } else {
      ThroughNow(get, count, size, pos, stop, k, last);
    }
  }

  /** What the first call of a served walk gives. */
  lemma WholeStep(get: Source, content: Bytes, count: nat, size: nat, pos: nat, stop: nat, last: nat, k: nat)
    returns (n: nat)
    requires size > 0 && pos < stop <= |content| && Truthful(get, Cut(content, size))
    requires last == (stop - 1) / size && Served(get, Cut(content, size), count, pos / size, last, k)
    ensures Moves(get, count, size, pos, stop - pos, k) && n == Gain(get, size, pos, stop - pos, k)
            && 0 < n <= stop - pos
    ensures n < stop - pos ==>
              (pos + n) / size == pos / size + 1 && Served(get, Cut(content, size), count, pos / size + 1, last, k + 1)
    ensures n == stop - pos ==> last == pos / size
  {
    var more := PieceRest(content, size, pos, stop - pos);
    FirstMoves(get, content, count, size, pos, stop - pos, k, last, more);
    n := Min(stop - pos, more);
  }

  lemma ThroughRest(get: Source, count: nat, size: nat, pos: nat, stop: nat, k: nat, last: nat, n: nat)
    requires size > 0 && pos + n < stop && Moves(get, count, size, pos, stop - pos, k)
             && n == Gain(get, size, pos, stop - pos, k)
    requires (pos + n) / size == pos / size + 1 && GetsThrough(get, count, size, pos + n, stop, k + 1, last)
    ensures GetsThrough(get, count, size, pos, stop, k, last)
  {
    WalkMoves(get, count, size, pos, stop - pos, k);
    assert stop - (pos + n) == stop - pos - n;
    ThroughThen(WalkOf(get, count, size, pos + n, stop - (pos + n), k + 1), n, stop - (pos + n), pos / size, last);
  }

  lemma ThroughThen(rest: Walk, n: nat, left: nat, idx: nat, last: nat)
    requires Through(rest, left, idx + 1, last)
    ensures Through(Then(n, idx, rest), n + left, idx, last)
  {}

  lemma ThroughNow(get: Source, count: nat, size: nat, pos: nat, stop: nat, k: nat, last: nat)
    requires size > 0 && pos < stop && Moves(get, count, size, pos, stop - pos, k) && last == pos / size
    requires Gain(get, size, pos, stop - pos, k) == stop - pos
    ensures GetsThrough(get, count, size, pos, stop, k, last)
  {
    WalkMoves(get, count, size, pos, stop - pos, k);
  }

  /** The first call of a served walk takes it to the end of its piece, or to its own end. */
  lemma FirstMoves(get: Source, content: Bytes, count: nat, size: nat, pos: nat, left: nat, k: nat, last: nat,
                   rest: nat)
    requires size > 0 && left > 0 && Truthful(get, Cut(content, size)) && pos / size <= last
    requires pos / size < |Cut(content, size)| && rest == |Cut(content, size)[pos / size]| - pos % size && rest > 0
    requires Served(get, Cut(content, size), count, pos / size, last, k)
    ensures Moves(get, count, size, pos, left, k) && Gain(get, size, pos, left, k) == Min(left, rest)
    ensures Served(get, Cut(content, size), count, pos / size + 1, last, k + 1)
  {
    FirstHeld(get, Cut(content, size), count, pos / size, last, k);
    HeldMoves(get, count, size, pos, left, k, rest);
    ServedRest(get, Cut(content, size), count, pos / size, last, k);
  }

  lemma HeldMoves(get: Source, count: nat, size: nat, pos: nat, left: nat, k: nat, rest: nat)
    requires size > 0 && left > 0 && rest > 0 && pos / size < count
    requires !Ask(get, k, pos / size).Throws? && |Held(Ask(get, k, pos / size))| == pos % size + rest
    ensures Moves(get, count, size, pos, left, k) && Gain(get, size, pos, left, k) == Min(left, rest)
  {}

  lemma FirstHeld(get: Source, pieces: seq<Bytes>, count: nat, first: nat, last: nat, k: nat)
    requires Truthful(get, pieces) && first <= last && Served(get, pieces, count, first, last, k)
    requires first < |pieces| && pieces[first] != []
    ensures first < count && !Ask(get, k, first).Throws? && |Held(Ask(get, k, first))| == |pieces[first]|
  {
    assert Whole(get, pieces, k, first, 0);
    assert Matches(Held(Ask(get, k, first)), pieces[first], 0);
  }

  lemma ServedRest(get: Source, pieces: seq<Bytes>, count: nat, first: nat, last: nat, k: nat)
    requires Served(get, pieces, count, first, last, k)
    ensures Served(get, pieces, count, first + 1, last, k + 1)
  {
    forall j: nat {:trigger Whole(get, pieces, k + 1, first + 1, j)} | first + 1 + j <= last
      ensures Whole(get, pieces, k + 1, first + 1, j)
    {
      assert Whole(get, pieces, k, first, j + 1);
    }
  }

  /** What is left of a piece behind `pos`, and where `left` bytes from there on lie. */
  lemma PieceRest(content: Bytes, size: nat, pos: nat, left: nat) returns (rest: nat)
    requires size > 0 && left > 0 && pos + left <= |content|
    ensures pos / size < |Cut(content, size)| && rest == |Cut(content, size)[pos / size]| - pos % size && rest > 0
    ensures pos / size <= (pos + left - 1) / size
    ensures left <= rest ==> (pos + left - 1) / size == pos / size
    ensures rest < left ==> (pos + rest) / size == pos / size + 1
  {
    CutInside(content, size, pos);
    rest := |Cut(content, size)[pos / size]| - pos % size;
    RestLength(content, size, pos);
    DivGrows(pos, pos + left - 1, size);
    SamePiece(pos, left, size);
    NextPiece(pos, size);
  }

  lemma RestLength(content: Bytes, size: nat, pos: nat)
    requires size > 0 && pos < |content| && pos / size < |Cut(content, size)|
    ensures |Cut(content, size)[pos / size]| - pos % size == Min(size - pos % size, |content| - pos)
  {
    CutAt(content, size, pos / size);
    Multiples(pos, size);
  }

  lemma Multiples(pos: nat, size: nat)
    requires size > 0
    ensures pos / size * size == pos - pos % size && (pos / size + 1) * size == pos - pos % size + size
  {
    assert (pos / size + 1) * size == pos / size * size + size;
  }

  lemma SamePiece(pos: nat, left: nat, size: nat)
    requires size > 0 && left > 0
    ensures left <= size - pos % size ==> (pos + left - 1) / size == pos / size
  {
    if left <= size - pos % size {
      DivUnique(pos + left - 1, size, pos / size, pos % size + left - 1);
    }
  }

  lemma NextPiece(pos: nat, size: nat)
    requires size > 0
    ensures (pos + (size - pos % size)) / size == pos / size + 1
  {
    Multiples(pos, size);
    DivUnique(pos + (size - pos % size), size, pos / size + 1, 0);
  }
}
