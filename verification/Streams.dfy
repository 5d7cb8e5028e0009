/**
 A torrent is one virtual byte stream: the concatenation of its files, cut into
 equal pieces with a possibly shorter last one (BEP 3, "info dictionary").
 This module is the reference meaning of that stream; the loops of the readers
 and of `repack` are proved against it.
 */
module Streams {

  newtype byte = x: int | 0 <= x < 0x100

  type Bytes = seq<byte>

  function Min(a: int, b: int): int {
    if a <= b then a else b
  }

  /** The bytes of `pieces`, in order. */
  function Flatten<T>(pieces: seq<seq<T>>): seq<T> {
    if pieces == [] then [] else pieces[0] + Flatten(pieces[1..])
  }

  /** `s` cut into pieces of `size` elements; only the last one may be shorter. */
  function Cut<T>(s: seq<T>, size: nat): (pieces: seq<seq<T>>)
    requires size > 0
    decreases |s|
  {
    if s == [] then []
    else if |s| <= size then [s]
    else [s[..size]] + Cut(s[size..], size)
  }

  /** The layout BEP 3 prescribes: full pieces, then a non-empty last one. */
  ghost predicate WellCut<T>(pieces: seq<seq<T>>, size: nat) {
    && size > 0
    && (forall i :: 0 <= i < |pieces| - 1 ==> |pieces[i]| == size)
    && (pieces != [] ==> 0 < |pieces[|pieces| - 1]| <= size)
  }

  lemma Assoc<T>(a: seq<T>, b: seq<T>, c: seq<T>)
    ensures a + b + c == a + (b + c)
  {}

  lemma {:induction false} FlattenAppend<T>(a: seq<seq<T>>, b: seq<seq<T>>)
    ensures Flatten(a + b) == Flatten(a) + Flatten(b)
  {
    if a == [] {
      assert a + b == b;
    } else {
      FlattenAppend(a[1..], b);
      assert (a + b)[1..] == a[1..] + b;
      Assoc(a[0], Flatten(a[1..]), Flatten(b));
    }
  }

  /** Cutting loses, repeats and reorders nothing. */
  lemma {:induction false} FlattenCut<T>(s: seq<T>, size: nat)
    requires size > 0
    ensures Flatten(Cut(s, size)) == s
    decreases |s|
  {
    if s == [] {
    } else if |s| <= size {
      assert Flatten([s]) == s + Flatten<T>([]);
    } else {
      FlattenCut(s[size..], size);
      assert Cut(s, size)[1..] == Cut(s[size..], size);
    }
  }

  /** Every cut has the layout of BEP 3. */
  lemma {:induction false} CutWellCut<T>(s: seq<T>, size: nat)
    requires size > 0
    ensures WellCut(Cut(s, size), size)
    ensures s != [] ==> Cut(s, size) != []
    decreases |s|
  {
    if s != [] && |s| > size {
      CutWellCut(s[size..], size);
      var rest := Cut(s[size..], size);
      assert Cut(s, size) == [s[..size]] + rest;
    }
  }

  /** That layout determines the cut: together with FlattenCut and CutWellCut,
      `Cut(., size)` and `Flatten` are inverse bijections between streams and
      well-cut piece lists. */
  lemma {:induction false} CutFlatten<T>(pieces: seq<seq<T>>, size: nat)
    requires WellCut(pieces, size)
    ensures Cut(Flatten(pieces), size) == pieces
  {
    if pieces == [] {
    } else if |pieces| == 1 {
      assert Flatten(pieces) == pieces[0];
      assert pieces == [pieces[0]];
    } else {
      var rest := pieces[1..];
      assert rest[|rest| - 1] == pieces[|pieces| - 1];
      assert WellCut(rest, size);
      CutFlatten(rest, size);
      FlattenNonEmpty(rest, size);
      var s := Flatten(pieces);
      assert s[..size] == pieces[0];
      assert s[size..] == Flatten(rest);
    }
  }

  lemma FlattenNonEmpty<T>(pieces: seq<seq<T>>, size: nat)
    requires WellCut(pieces, size) && pieces != []
    ensures Flatten(pieces) != []
  {
    assert pieces[0] != [];
  }

  /** Piece `i` holds exactly the stream positions [i*size, (i+1)*size). */
  lemma {:induction false} CutAt<T>(s: seq<T>, size: nat, i: nat)
    requires size > 0
    requires i < |Cut(s, size)|
    ensures 0 <= i * size < |s|
    ensures Cut(s, size)[i] == s[i * size .. Min((i + 1) * size, |s|)]
    decreases i
  {
    if s == [] {
    } else if |s| <= size {
      assert i == 0;
    } else if i == 0 {
    } else {
      CutAt(s[size..], size, i - 1);
      assert (i - 1) * size + size == i * size && (i + 1) * size == i * size + size;
      DropSlice(s, size, (i - 1) * size, Min(i * size, |s| - size));
    }
  }

  lemma DropSlice<T>(s: seq<T>, n: nat, lo: nat, hi: nat)
    requires lo <= hi && n + hi <= |s|
    ensures s[n..][lo..hi] == s[n + lo .. n + hi]
  {}

  /** The number of pieces, bracketed: n pieces of `size` reach the end of the
      stream and n - 1 do not. */
  lemma {:induction false} CutReach<T>(s: seq<T>, size: nat)
    requires size > 0
    ensures |s| <= |Cut(s, size)| * size
    ensures s != [] ==> (|Cut(s, size)| - 1) * size < |s|
    decreases |s|
  {
    if s != [] && |s| > size {
      CutReach(s[size..], size);
      var n := |Cut(s[size..], size)|;
      assert |Cut(s, size)| == n + 1;
      assert (n + 1) * size == n * size + size;
      assert (n - 1) * size == n * size - size;
    }
  }

  /** Exactly ceil(|s| / size) pieces, in the form the sources compute it
      (repack.go line 143). */
  lemma CutCount<T>(s: seq<T>, size: nat)
    requires size > 0
    ensures |Cut(s, size)| == (|s| + size - 1) / size
  {
    CutReach(s, size);
    var n := |Cut(s, size)|;
    if s == [] {
      DivUnique(size - 1, size, 0, size - 1);
    } else {
      assert (n - 1) * size == n * size - size;
      DivUnique(|s| + size - 1, size, n, |s| + size - 1 - n * size);
    }
  }

  /** `data` is what `s` holds from position `pos` on. */
  ghost predicate Matches<T>(data: seq<T>, s: seq<T>, pos: nat) {
    && pos + |data| <= |s|
    && forall i {:trigger data[i]} | 0 <= i < |data| :: data[i] == s[pos + i]
  }

  lemma MatchesAppend<T>(a: seq<T>, b: seq<T>, s: seq<T>, pos: nat)
    requires Matches(a, s, pos) && Matches(b, s, pos + |a|)
    ensures Matches(a + b, s, pos)
  {}

  /** Position `pos` of `s` lies in `pieces[idx]` at offset `at`, and that piece is a
      range of `s` around it. */
  ghost predicate LocatesAt<T>(idx: nat, at: nat, s: seq<T>, pieces: seq<seq<T>>, pos: nat) {
    && idx < |pieces| && at < |pieces[idx]| && at <= pos
    && Matches(pieces[idx], s, pos - at)
  }

  /** Div and mod find every position of a stream in its cut. */
  lemma {:induction false} CutLocatesAt<T>(s: seq<T>, size: nat, pos: nat, idx: nat, at: nat)
    requires size > 0 && pos < |s| && idx == pos / size && at == pos % size
    ensures LocatesAt(idx, at, s, Cut(s, size), pos)
    decreases pos
  {
    if pos < size {
      DivUnique(pos, size, 0, pos);
      assert |Cut(s, size)| > 0 && Matches(Cut(s, size)[0], s, 0);
    } else {
      DivStep(pos, size);
      CutLocatesAt(s[size..], size, pos - size, idx - 1, at);
      LocatesShift(s, size, Cut(s[size..], size), idx - 1, at, pos - size);
    }
  }

  /** Putting a piece in front shifts a located position. */
  lemma LocatesShift<T>(s: seq<T>, n: nat, rest: seq<seq<T>>, idx: nat, at: nat, pos: nat)
    requires n <= |s| && LocatesAt(idx, at, s[n..], rest, pos)
    ensures LocatesAt(idx + 1, at, s, [s[..n]] + rest, pos + n)
  {
    var lo, piece := pos - at, rest[idx];
    forall i | 0 <= i < |piece|
      ensures piece[i] == s[pos + n - at + i]
    {
      assert piece[i] == s[n..][lo + i];
    }
  }

  /** Elements of the first `i` pieces. */
  function PrefixLen<T>(pieces: seq<seq<T>>, i: nat): nat
    requires i <= |pieces|
  {
    if i == 0 then 0 else PrefixLen(pieces, i - 1) + |pieces[i - 1]|
  }

  /** The stream position `pos` is offset `at` of piece `idx`. */
  ghost predicate Inside<T>(pieces: seq<seq<T>>, idx: nat, at: nat, pos: nat) {
    idx < |pieces| && at < |pieces[idx]| && PrefixLen(pieces, idx) + at == pos
  }

  lemma {:induction false} CutPrefix<T>(s: seq<T>, size: nat, i: nat)
    requires size > 0 && i <= |Cut(s, size)|
    ensures PrefixLen(Cut(s, size), i) == Min(i * size, |s|)
  {
    if i > 0 {
      CutPrefix(s, size, i - 1);
      CutAt(s, size, i - 1);
      assert (i - 1) * size + size == i * size;
    }
  }

  /** Div and mod find the piece and the offset. */
  lemma CutInside<T>(s: seq<T>, size: nat, pos: nat)
    requires size > 0 && pos < |s|
    ensures Inside(Cut(s, size), pos / size, pos % size, pos)
  {
    CutLocatesAt(s, size, pos, pos / size, pos % size);
    CutPrefix(s, size, pos / size);
    assert pos == pos / size * size + pos % size;
  }

  lemma MulMono(a: int, b: int, k: nat)
    requires a <= b
    ensures a * k <= b * k
  {
    assert (b - a) * k >= 0;
  }

  lemma MulGrows(d: int, b: nat)
    ensures d >= 1 ==> d * b >= b
    ensures d <= -1 ==> d * b + b <= 0
  {
    if d >= 1 {
      MulMono(1, d, b);
    } else if d <= -1 {
      MulMono(d, -1, b);
    }
  }

  /** Quotient and remainder are determined by their defining equation. */
  lemma DivUnique(a: nat, b: nat, q: int, r: int)
    requires b > 0 && a == q * b + r && 0 <= r < b
    ensures q == a / b && r == a % b
  {
    var d := a / b - q;
    assert a == (a / b) * b + a % b;
    assert d * b == r - a % b;
    MulGrows(d, b);
  }

  lemma DivGrows(a: nat, b: nat, size: nat)
    requires size > 0 && a <= b
    ensures a / size <= b / size
  {
    var d := a / size - b / size;
    assert d * size == a - a % size - (b - b % size);
    MulGrows(d, size);
  }

  lemma DivStep(a: nat, b: nat)
    requires 0 < b <= a
    ensures a / b == (a - b) / b + 1 && a % b == (a - b) % b
  {
    var q, r := (a - b) / b, (a - b) % b;
    assert (q + 1) * b == q * b + b;
    DivUnique(a, b, q + 1, r);
  }
}
