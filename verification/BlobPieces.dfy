/** A blob as a list of pieces: piece i holds the bytes from its own start to the start of the next one. */
module BlobPieces {
  import opened Units
  import opened SkipOrder

  type SegmentPtr = nat
  type Segments = map<SegmentPtr, seq<bv8>>

  ghost function Segment(segs: Segments, p: SegmentPtr): seq<bv8> {
    if p in segs then segs[p] else []
  }

  /** The bytes of all pieces in front of the last entry. */
  ghost function Bytes(e: seq<Entry>, segs: Segments): seq<bv8> {
    if |e| <= 1 then [] else Segment(segs, e[0].value) + Bytes(e[1..], segs)
  }

  ghost predicate PieceOk(e: seq<Entry>, segs: Segments, i: nat)
    requires i + 1 < |e|
  {
    && e[i].value != 0 && e[i].value in segs && e[i].hash % UNIT == 0
    && e[i].hash < e[i + 1].hash && e[i + 1].hash == e[i].hash + |segs[e[i].value]|
    && |segs[e[i].value]| <= SEGMENT_SIZE_MAX
  }

  /** Pieces are contiguous from 0, each in its own segment, and the entry behind the last piece has
      no segment: it marks the end, at or after the size and within the same unit. */
  ghost predicate PiecesOk(e: seq<Entry>, segs: Segments, size: nat) {
    && (e == [] <==> size == 0)
    && (e != [] ==>
          && |e| >= 2 && e[0].hash == 0 && e[|e| - 1].value == 0 && e[|e| - 1].hash % UNIT == 0
          && size <= e[|e| - 1].hash < size + UNIT)
    && (forall i :: 0 <= i < |e| - 1 ==> PieceOk(e, segs, i))
    && (forall i, j :: 0 <= i < j < |e| - 1 ==> e[i].value != e[j].value)
    && (forall p :: p in segs ==> Holds(e, p))
  }

  ghost predicate Holds(e: seq<Entry>, p: SegmentPtr) {
    exists i :: 0 <= i < |e| - 1 && e[i].value == p
  }

  /** The byte string that the blob is. */
  ghost function Content(e: seq<Entry>, segs: Segments, size: nat): seq<bv8> {
    if size <= |Bytes(e, segs)| then Bytes(e, segs)[..size] else []
  }

  // ----- where pieces start -----

  /** Where the pieces start, and where the last one ends. */
  ghost function StartsOf(e: seq<Entry>): (s: seq<nat>)
    ensures s != []
  {
    if e == [] then [0] else seq(|e|, i requires 0 <= i < |e| => e[i].hash)
  }

  /** The pieces that hold everything up to `end`: behind those that are there, whole segments, and then one for the
      rest. */
  ghost function Laid(starts: seq<nat>, end: nat): seq<nat>
    requires starts != []
    decreases end - starts[|starts| - 1]
  {
    var last := starts[|starts| - 1];
    if end <= last then starts
    else Laid(starts + [last + AlignSize(if end - last < SEGMENT_SIZE_MAX then end - last else SEGMENT_SIZE_MAX)], end)
  }

  // ----- bytes and pieces -----

  lemma {:induction false} BytesSplit(e: seq<Entry>, segs: Segments, i: nat)
    requires i < |e|
    ensures Bytes(e, segs) == Bytes(e[..i + 1], segs) + Bytes(e[i..], segs)
  {
    if i == 0 {
      assert e[0..] == e;
    } else {
      BytesSplit(e[1..], segs, i - 1);
      TailSplits(e, i);
    }
  }

  lemma TailSplits(e: seq<Entry>, i: nat)
    requires 1 <= i < |e|
    ensures e[1..][..i] == e[..i + 1][1..] && e[1..][i - 1..] == e[i..]
  {
  }

  /** The bytes up to the start of entry i, with all pieces before it, are as many as its start says. */
  lemma {:induction false} BytesLength(e: seq<Entry>, segs: Segments, i: nat)
    requires i < |e| && e[0].hash == 0 && forall j :: 0 <= j < |e| - 1 ==> PieceOk(e, segs, j)
    ensures |Bytes(e[..i + 1], segs)| == e[i].hash
  {
    if i > 0 {
      BytesLength(e, segs, i - 1);
      assert PieceOk(e, segs, i - 1);
      var d := e[..i + 1];
      BytesSplit(d, segs, i - 1);
      assert d[..i] == e[..i] && d[i - 1..] == [e[i - 1], e[i]];
      assert Bytes([e[i - 1], e[i]], segs) == Segment(segs, e[i - 1].value) + Bytes([e[i]], segs);
    }
  }

  /** Around piece i. */
  lemma BytesAround(e: seq<Entry>, segs: Segments, i: nat)
    requires i + 1 < |e| && e[0].hash == 0 && forall j :: 0 <= j < |e| - 1 ==> PieceOk(e, segs, j)
    ensures e[i].value in segs
    ensures Bytes(e, segs) == Bytes(e[..i + 1], segs) + segs[e[i].value] + Bytes(e[i + 1..], segs)
    ensures |Bytes(e[..i + 1], segs)| == e[i].hash
  {
    assert PieceOk(e, segs, i);
    BytesSplit(e, segs, i);
    BytesLength(e, segs, i);
    assert e[i..][1..] == e[i + 1..];
  }

  lemma AllBytes(e: seq<Entry>, segs: Segments, size: nat)
    requires PiecesOk(e, segs, size)
    ensures |Bytes(e, segs)| == if e == [] then 0 else e[|e| - 1].hash
    ensures size <= |Bytes(e, segs)| < size + UNIT && |Content(e, segs, size)| == size
  {
    if e != [] {
      BytesLength(e, segs, |e| - 1);
      assert e[..|e|] == e;
    }
  }

  lemma {:induction false} BytesFrame(e: seq<Entry>, segs: Segments, segs': Segments)
    requires forall i :: 0 <= i < |e| - 1 ==> Segment(segs', e[i].value) == Segment(segs, e[i].value)
    ensures Bytes(e, segs') == Bytes(e, segs)
  {
    if |e| > 1 {
      BytesFrame(e[1..], segs, segs');
    }
  }

  /** What is read from piece i at an offset inside it is what the bytes are from there on. */
  lemma ReadInside(e: seq<Entry>, segs: Segments, size: nat, i: nat, offset: nat)
    requires PiecesOk(e, segs, size) && i + 1 < |e| && e[i].hash <= offset < e[i + 1].hash
    ensures e[i].value in segs && |segs[e[i].value]| == e[i + 1].hash - e[i].hash
    ensures e[i + 1].hash <= |Bytes(e, segs)|
    ensures segs[e[i].value][offset - e[i].hash..] == Bytes(e, segs)[offset..e[i + 1].hash]
  {
    assert PieceOk(e, segs, i);
    BytesAround(e, segs, i);
    var a, s, b := Bytes(e[..i + 1], segs), segs[e[i].value], Bytes(e[i + 1..], segs);
    assert (a + s + b)[offset..e[i + 1].hash] == s[offset - e[i].hash..];
  }

  /** The search for an offset before the end finds a piece, not the end marker. */
  lemma BeforeEnd(e: seq<Entry>, segs: Segments, size: nat, i: nat, offset: nat)
    requires PiecesOk(e, segs, size) && i < |e| && e[i].hash <= offset < size
    ensures i + 1 < |e| && e[i].value != 0
  {
    assert i + 1 < |e| ==> PieceOk(e, segs, i);
  }

  lemma MarkerAligned(e: seq<Entry>, segs: Segments, size: nat)
    requires PiecesOk(e, segs, size)
    ensures e != [] ==> |e| >= 2 && e[|e| - 1].hash % UNIT == 0 && e[|e| - 1].value == 0
    ensures e == [] <==> size == 0
  {
  }

  /** The search for the place of the end marker finds it. */
  lemma AtEnd(e: seq<Entry>, segs: Segments, size: nat, i: nat, offset: nat)
    requires PiecesOk(e, segs, size) && i < |e| && e[i].hash <= offset && (i + 1 < |e| ==> offset < e[i + 1].hash)
    requires offset == e[|e| - 1].hash
    ensures i == |e| - 1 && e[i].value == 0
  {
    if i < |e| - 1 {
      StartsRise(e, segs, size, i + 1, |e| - 1);
    }
  }

  lemma {:induction false} StartsRise(e: seq<Entry>, segs: Segments, size: nat, i: nat, j: nat)
    requires PiecesOk(e, segs, size) && i <= j < |e|
    ensures e[i].hash <= e[j].hash
    decreases j
  {
    if i < j {
      StartsRise(e, segs, size, i, j - 1);
      assert PieceOk(e, segs, j - 1);
    }
  }

  /** Pieces do not overlap. */
  lemma PiecesApart(e: seq<Entry>, segs: Segments, size: nat, i: nat, j: nat, offset: nat)
    requires PiecesOk(e, segs, size) && i + 1 < |e| && j + 1 < |e|
    requires e[i].hash <= offset < e[i + 1].hash && e[j].hash <= offset < e[j + 1].hash
    ensures i == j
  {
    hide PiecesOk;
    if i < j {
      StartsRise(e, segs, size, i + 1, j);
    } else if j < i {
      StartsRise(e, segs, size, j + 1, i);
    }
  }

  lemma StartsAtZero(e: seq<Entry>, segs: Segments, size: nat)
    requires PiecesOk(e, segs, size) && size > 0
    ensures |e| >= 2 && e[0].hash == 0
  {
  }

  // ----- writing -----

  ghost function Overwritten(s: seq<bv8>, at: nat, data: seq<bv8>): seq<bv8> {
    if at + |data| <= |s| then s[..at] + data + s[at + |data|..] else s
  }

  /** Writing inside piece i overwrites exactly that range of the bytes. */
  lemma WriteInside(e: seq<Entry>, segs: Segments, size: nat, i: nat, at: nat, data: seq<bv8>)
    requires PiecesOk(e, segs, size) && i + 1 < |e| && e[i].value in segs && at + |data| <= |segs[e[i].value]|
    ensures var segs' := segs[e[i].value := Overwritten(segs[e[i].value], at, data)];
            && PiecesOk(e, segs', size)
            && Bytes(e, segs') == Overwritten(Bytes(e, segs), e[i].hash + at, data)
  {
    var p := e[i].value;
    var segs' := segs[p := Overwritten(segs[p], at, data)];
    forall j | 0 <= j < |e| - 1
      ensures PieceOk(e, segs', j)
      ensures j != i ==> e[j].value != p
    {
      assert PieceOk(e, segs, j);
    }
    WritePart(e, segs, segs', i, at, data);
  }

  lemma WritePart(e: seq<Entry>, segs: Segments, segs': Segments, i: nat, at: nat, data: seq<bv8>)
    requires i + 1 < |e| && e[0].hash == 0
          && (forall j :: 0 <= j < |e| - 1 ==> PieceOk(e, segs, j) && PieceOk(e, segs', j))
    requires e[i].value in segs && at + |data| <= |segs[e[i].value]|
    requires segs' == segs[e[i].value := Overwritten(segs[e[i].value], at, data)]
    requires forall j :: 0 <= j < |e| - 1 && j != i ==> e[j].value != e[i].value
    ensures Bytes(e, segs') == Overwritten(Bytes(e, segs), e[i].hash + at, data)
  {
    hide Bytes, Overwritten;
    BytesAround(e, segs, i);
    BytesAround(e, segs', i);
    assert forall j :: 0 <= j < i ==> e[..i + 1][j] == e[j];
    BytesFrame(e[..i + 1], segs, segs');
    var tail := e[i + 1..];
    forall j | 0 <= j < |tail| - 1
      ensures Segment(segs', tail[j].value) == Segment(segs, tail[j].value)
    {
      assert tail[j] == e[i + 1 + j];
    }
    BytesFrame(e[i + 1..], segs, segs');
    var a, s, b := Bytes(e[..i + 1], segs), segs[e[i].value], Bytes(e[i + 1..], segs);
    OverwriteMiddle(a, s, b, at, data);
  }

  lemma OverwriteMiddle(a: seq<bv8>, s: seq<bv8>, b: seq<bv8>, at: nat, data: seq<bv8>)
    requires at + |data| <= |s|
    ensures a + Overwritten(s, at, data) + b == Overwritten(a + s + b, |a| + at, data)
  {
  }

  /** The end marker becomes a piece in a fresh segment, and a new end marker follows. */
  ghost function End(e: seq<Entry>): nat {
    if e == [] then 0 else e[|e| - 1].hash
  }

  // ----- sizes and merges -----

  lemma SliceOfPrefix(s: seq<bv8>, n: nat, a: nat, b: nat)
    requires a <= b <= n <= |s|
    ensures s[..n][a..b] == s[a..b]
  {
  }

  /** A window that starts where a slice ends makes the slice longer. */
  lemma SliceGrows(s: seq<bv8>, a: nat, b: nat, window: seq<bv8>, k: nat)
    requires a <= b && b + |window| <= |s| && window == s[b..b + |window|] && k <= |window|
    ensures s[a..b] + window[..k] == s[a..b + k]
  {
  }

  lemma Resized(e: seq<Entry>, segs: Segments, size: nat, size': nat)
    requires PiecesOk(e, segs, size) && 0 < size <= size' <= End(e)
    ensures PiecesOk(e, segs, size')
  {
  }

  /** The search for an aligned offset not above the size finds the end marker only at the very end. */
  lemma AlignedPlace(e: seq<Entry>, segs: Segments, size: nat, i: nat, offset: nat)
    requires PiecesOk(e, segs, size) && size > 0 && offset <= size && i < |e|
    requires var a := offset - offset % UNIT; e[i].hash <= a && (i + 1 < |e| ==> a < e[i + 1].hash)
    ensures e[i].value == 0 ==> i == |e| - 1 && offset == size == End(e) && offset % UNIT == 0
    ensures e[i].value != 0 ==>
              && i + 1 < |e| && offset < e[i + 1].hash <= End(e) && PieceOk(e, segs, i) && e[i + 1].hash % UNIT == 0
  {
    if i + 1 < |e| {
      assert PieceOk(e, segs, i);
      StartsRise(e, segs, size, i + 1, |e| - 1);
      assert i + 2 < |e| ==> PieceOk(e, segs, i + 1);
      UnitsApart(offset, e[i + 1].hash);
    } else {
      UnitsApart(offset, e[i].hash);
    }
  }

  lemma UnitsApart(offset: nat, start: nat)
    requires start % UNIT == 0
    ensures offset - offset % UNIT < start ==> offset < start
    ensures start <= offset - offset % UNIT ==> start <= offset
  {
  }

  /** The bytes with d at offset o, overwriting or extending. */
  ghost function Merged(s: seq<bv8>, o: nat, d: seq<bv8>): seq<bv8> {
    if o <= |s| then s[..o] + d + (if o + |d| <= |s| then s[o + |d|..] else []) else s
  }

  /** What was written is read back, and nothing outside the range has changed. */
  lemma MergedReadsBack(s: seq<bv8>, o: nat, d: seq<bv8>)
    requires o <= |s|
    ensures |Merged(s, o, d)| == if o + |d| <= |s| then |s| else o + |d|
    ensures Merged(s, o, d)[o..o + |d|] == d
    ensures forall i :: 0 <= i < |s| && !(o <= i < o + |d|) ==> Merged(s, o, d)[i] == s[i]
  {
  }

  lemma MergedTwice(s: seq<bv8>, o: nat, x: seq<bv8>, y: seq<bv8>)
    requires o <= |s|
    ensures Merged(Merged(s, o, x), o + |x|, y) == Merged(s, o, x + y)
  {
    var m := Merged(s, o, x);
    assert m[..o + |x|] == s[..o] + x;
    if o + |x| + |y| <= |s| {
      assert m[o + |x| + |y|..] == s[o + |x| + |y|..];
    }
  }

  lemma MergedNothing(s: seq<bv8>, o: nat)
    requires o <= |s|
    ensures Merged(s, o, []) == s
  {
  }

  lemma PieceEnds(e: seq<Entry>, segs: Segments, size: nat, i: nat)
    requires PiecesOk(e, segs, size) && i + 1 < |e|
    ensures e[i].value in segs && e[i].hash + |segs[e[i].value]| == e[i + 1].hash <= |Bytes(e, segs)|
  {
    hide Bytes;
    assert PieceOk(e, segs, i);
    StartsRise(e, segs, size, i + 1, |e| - 1);
    AllBytes(e, segs, size);
  }

  /** Overwriting raw bytes and growing the size up to the end of the range merges it into the content. */
  lemma OverwriteIsMerge(raw: seq<bv8>, raw': seq<bv8>, size: nat, o: nat, d: seq<bv8>, size': nat)
    requires o <= size <= |raw| <= |raw'| && raw'[..size] == raw[..size] && o + |d| <= |raw'|
    requires size' == if o + |d| > size then o + |d| else size
    ensures Overwritten(raw', o, d)[..size'] == Merged(raw[..size], o, d)
  {
    var w := Overwritten(raw', o, d);
    assert raw'[..o] == raw'[..size][..o];
    if o + |d| <= size {
      assert raw'[o + |d|..][..size - o - |d|] == raw'[..size][o + |d|..];
    }
  }

  lemma LastIsGreatest(e: seq<Entry>)
    requires Sorted(e)
    ensures forall i :: 0 <= i < |e| ==> e[i].hash <= e[|e| - 1].hash
  {
  }

  ghost function Heads(e: seq<Entry>): seq<Entry> {
    if e == [] then [] else e[..|e| - 1]
  }

  lemma AppendedStarts(e: seq<Entry>, p: SegmentPtr, n: nat)
    ensures StartsOf(Heads(e) + [Entry(End(e), p), Entry(End(e) + n, 0)]) == StartsOf(e) + [End(e) + n]
  {
  }

  lemma LastStart(e: seq<Entry>)
    ensures StartsOf(e)[|StartsOf(e)| - 1] == End(e)
  {
  }

  lemma AppendedBytes(e: seq<Entry>, segs: Segments, size: nat, p: SegmentPtr, s: seq<bv8>, size': nat)
    requires PiecesOk(e, segs, size) && p != 0 && p !in segs
    requires 0 < |s| <= SEGMENT_SIZE_MAX && |s| % UNIT == 0 && size' <= End(e) + |s| < size' + UNIT
    ensures var e' := Heads(e) + [Entry(End(e), p)] + [Entry(End(e) + |s|, 0)];
            && PiecesOk(e', segs[p := s], size') && Bytes(e', segs[p := s]) == Bytes(e, segs) + s
            && |Bytes(e, segs)| == End(e)
  {
    hide Bytes, PiecesOk;
    AppendPiece(e, segs, size, p, s, size');
    AllBytes(e, segs, size);
    assert Heads(e) + [Entry(End(e), p)] + [Entry(End(e) + |s|, 0)]
        == Heads(e) + [Entry(End(e), p), Entry(End(e) + |s|, 0)];
  }

  lemma AppendPiece(e: seq<Entry>, segs: Segments, size: nat, p: SegmentPtr, s: seq<bv8>, size': nat)
    requires PiecesOk(e, segs, size) && p != 0 && p !in segs
    requires 0 < |s| <= SEGMENT_SIZE_MAX && |s| % UNIT == 0
    requires var m := if e == [] then 0 else e[|e| - 1].hash; size' <= m + |s| < size' + UNIT
    ensures var m := if e == [] then 0 else e[|e| - 1].hash;
            var e' := (if e == [] then [] else e[..|e| - 1]) + [Entry(m, p), Entry(m + |s|, 0)];
            PiecesOk(e', segs[p := s], size') && Bytes(e', segs[p := s]) == Bytes(e, segs) + s
  {
    hide Bytes, PieceOk, Holds;
    var m := if e == [] then 0 else e[|e| - 1].hash;
    var d := if e == [] then [] else e[..|e| - 1];
    var e', segs' := d + [Entry(m, p), Entry(m + |s|, 0)], segs[p := s];
    OldPieces(e, segs, size);
    AppendedLast(e, size', m, d, e', p, s);
    forall j | 0 <= j < |e'| - 1
      ensures PieceOk(e', segs', j)
    {
      AppendedPiece(e, segs, size, m, d, p, s, j);
    }
    AppendCovers(e, segs, size, e', p, s);
    AppendBytes(e, segs, d, m, p, s);
  }

  lemma AppendedLast(e: seq<Entry>, size': nat, m: nat, d: seq<Entry>, e': seq<Entry>, p: SegmentPtr, s: seq<bv8>)
    requires d == (if e == [] then [] else e[..|e| - 1]) && e' == d + [Entry(m, p), Entry(m + |s|, 0)]
    ensures |e'| == |d| + 2 && |d| == (if e == [] then 0 else |e| - 1)
    ensures e'[|d|] == Entry(m, p) && e'[|d| + 1] == Entry(m + |s|, 0) && forall j :: 0 <= j < |d| ==> e'[j] == e[j]
  {
  }

  lemma AppendedPiece(e: seq<Entry>, segs: Segments, size: nat, m: nat, d: seq<Entry>, p: SegmentPtr, s: seq<bv8>,
      j: nat)
    requires PiecesOk(e, segs, size) && p != 0 && p !in segs && 0 < |s| <= SEGMENT_SIZE_MAX && |s| % UNIT == 0
    requires m == (if e == [] then 0 else e[|e| - 1].hash) && d == (if e == [] then [] else e[..|e| - 1]) && j <= |d|
    ensures PieceOk(d + [Entry(m, p), Entry(m + |s|, 0)], segs[p := s], j)
  {
    hide Holds;
    AppendedLast(e, size, m, d, d + [Entry(m, p), Entry(m + |s|, 0)], p, s);
    if j < |d| {
      assert PieceOk(e, segs, j);
    }
  }

  lemma OldPieces(e: seq<Entry>, segs: Segments, size: nat)
    requires PiecesOk(e, segs, size)
    ensures forall j :: 0 <= j < |e| - 1 ==> e[j].value in segs && e[j].value != 0
  {
    forall j | 0 <= j < |e| - 1
      ensures e[j].value in segs && e[j].value != 0
    {
      assert PieceOk(e, segs, j);
    }
  }

  lemma AppendCovers(e: seq<Entry>, segs: Segments, size: nat, e': seq<Entry>, p: SegmentPtr, s: seq<bv8>)
    requires PiecesOk(e, segs, size) && p !in segs && |e'| == (if e == [] then 2 else |e| + 1)
          && e'[|e'| - 2].value == p
    requires forall j :: 0 <= j < |e'| - 2 ==> e'[j] == e[j]
    ensures forall q :: q in segs || q == p ==> Holds(e', q)
    ensures forall i, j :: 0 <= i < j < |e'| - 1 ==> e'[i].value != e'[j].value
  {
    OldPieces(e, segs, size);
    forall q | q in segs || q == p
      ensures Holds(e', q)
    {
      if q == p {
        assert e'[|e'| - 2].value == p;
      } else {
        assert Holds(e, q);
        var i :| 0 <= i < |e| - 1 && e[i].value == q;
        assert e'[i].value == q;
      }
    }
  }

  lemma AppendBytes(e: seq<Entry>, segs: Segments, d: seq<Entry>, m: nat, p: SegmentPtr, s: seq<bv8>)
    requires p !in segs && d == if e == [] then [] else e[..|e| - 1]
    requires e != [] ==> forall j :: 0 <= j < |e| - 1 ==> e[j].value in segs
    ensures Bytes(d + [Entry(m, p), Entry(m + |s|, 0)], segs[p := s]) == Bytes(e, segs) + s
  {
    var tail, segs' := [Entry(m, p), Entry(m + |s|, 0)], segs[p := s];
    var e' := d + tail;
    BytesSplit(e', segs', |d|);
    assert e'[|d|..] == tail;
    assert Bytes(tail, segs') == s + Bytes(tail[1..], segs');
    BytesHeads(e'[..|d| + 1], e, segs');
    BytesFrame(e, segs, segs');
  }

  /** The last entry only ends the bytes. */
  lemma {:induction false} BytesHeads(a: seq<Entry>, b: seq<Entry>, segs: Segments)
    requires (|a| == |b| && forall i :: 0 <= i < |a| - 1 ==> a[i] == b[i]) || (|a| <= 1 && |b| <= 1)
    ensures Bytes(a, segs) == Bytes(b, segs)
  {
    if |a| > 1 {
      BytesHeads(a[1..], b[1..], segs);
    }
  }
}
