/** BufferedReader on UTF-8 input that comes in windows: a character is only looked for inside its window. */
module Reader {
  import opened Utf8

  // ----- one window -----

  /** getNextChar: bytes that are no UTF-8, or are cut off by the end of the window, come as they are. */
  function ReadOne(s: Bytes): (d: Decoded)
    requires s != []
    ensures 0 < d.bytes <= |s| && 0 <= d.code < 0x200000
  {
    var b := s[0];
    if b < 0x80 then Decoded(b, 1)
    else if CharSize(b) == NOT_UTF8 || CharSize(b) > |s| || Decode(s).code == NOT_UTF8 then Decoded(b, 1)
    else Decode(s)
  }

  /** A character is read from exactly the bytes that its first byte announces, if they are there and continue it; any
      other byte comes as it is. */
  lemma WhatIsRead(s: Bytes)
    requires s != []
    ensures var (d, n) := (ReadOne(s), CharSize(s[0]));
            if 1 < n <= |s| && forall k :: 1 <= k < n ==> IsTail(s[k]) then d.bytes == n else d == Decoded(s[0], 1)
  {
    var n := CharSize(s[0]);
    assert forall k: nat :: k < |s| ==> ByteAt(s, k) == s[k];
    if 1 < n <= |s| && ReadOne(s).bytes == 1 {
      assert exists k :: 1 <= k < n && !IsTail(s[k]) by {
        assert !IsTail(s[1]) || (n > 2 && !IsTail(s[2])) || (n > 3 && !IsTail(s[3]));
      }
    }
  }

  function ReadAll(s: Bytes): seq<Code> {
    if s == [] then [] else [ReadOne(s).code] + ReadAll(s[ReadOne(s).bytes..])
  }

  /** A byte that is read as itself, whatever follows. */
  predicate IsRaw(b: Byte) {
    b < 0x80 || CharSize(b) == NOT_UTF8
  }

  // ----- successive windows -----

  /** The windows that successive fills give: fill reports an empty one as the end. */
  predicate Filled(pieces: seq<Bytes>) {
    forall k :: 0 <= k < |pieces| ==> pieces[k] != []
  }

  function Concat(pieces: seq<Bytes>): Bytes {
    if pieces == [] then [] else pieces[0] + Concat(pieces[1..])
  }

  function ReadPieces(pieces: seq<Bytes>): seq<Code> {
    if pieces == [] then [] else ReadAll(pieces[0]) + ReadPieces(pieces[1..])
  }

  /** The windows without their first n bytes. */
  function Skip(pieces: seq<Bytes>, n: nat): (r: seq<Bytes>)
    requires Filled(pieces) && n <= |Concat(pieces)|
    ensures Filled(r) && Concat(r) == Concat(pieces)[n..]
    decreases |pieces|
  {
    if n == 0 then pieces
    else if n < |pieces[0]| then
      assert Concat(pieces)[n..] == pieces[0][n..] + Concat(pieces[1..]);
      assert ([pieces[0][n..]] + pieces[1..])[1..] == pieces[1..];
      [pieces[0][n..]] + pieces[1..]
    else
      assert Concat(pieces)[n..] == Concat(pieces[1..])[n - |pieces[0]|..];
      Skip(pieces[1..], n - |pieces[0]|)
  }

  /** No character that starts in the first n bytes is cut by the end of a window. */
  predicate Whole(pieces: seq<Bytes>, n: int)
    requires Filled(pieces)
    decreases |Concat(pieces)|
  {
    n <= 0 || pieces == [] ||
    (assert Concat(pieces) != [];
     var d := ReadOne(Concat(pieces)).bytes;
     d <= |pieces[0]| && Whole(Skip(pieces, d), n - d))
  }

  // ----- reading on -----

  lemma {:induction false} SkipSkip(pieces: seq<Bytes>, a: nat, b: nat)
    requires Filled(pieces) && a + b <= |Concat(pieces)|
    ensures Skip(Skip(pieces, a), b) == Skip(pieces, a + b)
    decreases |pieces|
  {
    if a > 0 {
      if a >= |pieces[0]| {
        SkipSkip(pieces[1..], a - |pieces[0]|, b);
      } else if b > 0 {
        var next := [pieces[0][a..]] + pieces[1..];
        assert next[1..] == pieces[1..];
        if a + b < |pieces[0]| {
          assert pieces[0][a..][b..] == pieces[0][a + b..];
        }
      }
    }
  }

  lemma Read1(s: Bytes, t: Bytes)
    requires s != [] && ReadOne(s + t).bytes <= |s|
    ensures ReadOne(s) == ReadOne(s + t)
  {
    var st := s + t;
    assert forall i :: 0 <= i < |s| ==> ByteAt(s, i) == ByteAt(st, i);
  }

  lemma FirstOf(pieces: seq<Bytes>)
    requires Filled(pieces) && pieces != []
    ensures Concat(pieces) != [] && Concat(pieces)[0] == pieces[0][0]
    ensures ReadOne(Concat(pieces)).bytes <= |pieces[0]| ==> ReadOne(pieces[0]) == ReadOne(Concat(pieces))
  {
    if ReadOne(Concat(pieces)).bytes <= |pieces[0]| {
      Read1(pieces[0], Concat(pieces[1..]));
    }
  }

  /** A step of the reader: the first character of its window. */
  lemma ReadHead(pieces: seq<Bytes>)
    requires Filled(pieces) && pieces != []
    ensures ReadOne(pieces[0]).bytes <= |Concat(pieces)|
    ensures ReadPieces(pieces) == [ReadOne(pieces[0]).code] + ReadPieces(Skip(pieces, ReadOne(pieces[0]).bytes))
  {
    hide ReadOne;
    var d := ReadOne(pieces[0]);
    var rest := Skip(pieces, d.bytes);
    if d.bytes < |pieces[0]| {
      assert rest[1..] == pieces[1..];
    } else {
      assert Skip(pieces[1..], 0) == pieces[1..];
      assert ReadAll(pieces[0]) == [d.code];
    }
  }

  lemma RawStep(pieces: seq<Bytes>)
    requires Filled(pieces) && pieces != [] && IsRaw(pieces[0][0])
    ensures Concat(pieces) != [] && Concat(pieces)[0] == pieces[0][0]
    ensures ReadPieces(pieces) == [pieces[0][0] as Code] + ReadPieces(Skip(pieces, 1))
    ensures ReadOne(Concat(pieces)).bytes == 1
  {
    hide Decode, CharSize, Skip, ReadPieces;
    FirstOf(pieces);
    ReadHead(pieces);
  }

  lemma SkipNone(pieces: seq<Bytes>)
    requires Filled(pieces)
    ensures Skip(pieces, 0) == pieces
  {
  }

  lemma HeadRead(s: Bytes, t: seq<Code>)
    requires s != []
    ensures s + t == [s[0] as Code] + (s[1..] + t)
  {
  }

  /** Raw bytes are read as themselves, wherever the windows end. */
  lemma {:induction false} ReadRaw(s: Bytes, pieces: seq<Bytes>)
    requires Filled(pieces) && s <= Concat(pieces) && forall k :: 0 <= k < |s| ==> IsRaw(s[k])
    ensures ReadPieces(pieces) == s + ReadPieces(Skip(pieces, |s|))
    decreases |s|
  {
    hide ReadOne, ReadPieces, IsRaw, Skip;
    if s == [] {
      SkipNone(pieces);
    } else {
      assert IsRaw(s[0]);
      FirstOf(pieces);
      RawStep(pieces);
      var next := Skip(pieces, 1);
      assert s[1..] <= Concat(next);
      ReadRaw(s[1..], next);
      SkipSkip(pieces, 1, |s| - 1);
      HeadRead(s, ReadPieces(Skip(pieces, |s|)));
    }
  }

  lemma NoneCut(pieces: seq<Bytes>, n: int)
    requires Filled(pieces)
    ensures n <= 0 ==> Whole(pieces, n)
  {
  }

  lemma WholeStep(pieces: seq<Bytes>, n: int)
    requires Filled(pieces) && pieces != [] && IsRaw(pieces[0][0])
    ensures Concat(pieces) != []
    ensures Whole(pieces, n) <==> Whole(Skip(pieces, 1), n - 1)
  {
    hide ReadOne, IsRaw, Skip, ReadPieces;
    RawStep(pieces);
  }

  lemma {:induction false} WholeRaw(s: Bytes, pieces: seq<Bytes>, n: int)
    requires Filled(pieces) && s <= Concat(pieces) && forall k :: 0 <= k < |s| ==> IsRaw(s[k])
    ensures Whole(pieces, n) <==> n <= |s| || Whole(Skip(pieces, |s|), n - |s|)
    decreases |s|
  {
    hide ReadOne, ReadPieces, IsRaw, Whole;
    if s == [] {
      NoneCut(pieces, n);
    } else {
      assert IsRaw(s[0]);
      FirstOf(pieces);
      WholeStep(pieces, n);
      var next := Skip(pieces, 1);
      assert s[1..] <= Concat(next);
      WholeRaw(s[1..], next, n - 1);
      SkipSkip(pieces, 1, |s| - 1);
    }
  }

  // ----- characters cut by the end of a window -----

  lemma TailsAreRaw(s: Bytes)
    requires s != [] && ReadOne(s).bytes > 1
    ensures CharSize(s[0]) == ReadOne(s).bytes && forall k :: 1 <= k < ReadOne(s).bytes ==> IsRaw(s[k])
  {
  }

  lemma CutHead(s: Bytes)
    requires s != [] && CharSize(s[0]) > |s|
    ensures ReadOne(s) == Decoded(s[0], 1)
  {
  }

  /** A character cut by the end of its window is read as its bytes. */
  lemma ReadCut(pieces: seq<Bytes>)
    requires Filled(pieces) && pieces != [] && Concat(pieces) != [] && ReadOne(Concat(pieces)).bytes > |pieces[0]|
    ensures var d := ReadOne(Concat(pieces)).bytes;
            d > 1 && ReadPieces(pieces) == Concat(pieces)[..d] + ReadPieces(Skip(pieces, d))
  {
    hide ReadOne, IsRaw, ReadPieces, Skip, Concat, CharSize;
    var s := Concat(pieces);
    var d := ReadOne(s).bytes;
    FirstOf(pieces);
    TailsAreRaw(s);
    CutHead(pieces[0]);
    ReadHead(pieces);
    var next := Skip(pieces, 1);
    assert s[1..d] <= Concat(next);
    ReadRaw(s[1..d], next);
    SkipSkip(pieces, 1, d - 1);
    CutRead(s, d, ReadPieces(Skip(pieces, d)));
  }

  lemma CutRead(s: Bytes, d: nat, t: seq<Code>)
    requires 1 <= d <= |s|
    ensures s[..d] + t == [s[0] as Code] + (s[1..d] + t) && |s[1..d]| == d - 1
  {
  }

  /** A character inside its window is read as it is in one window. */
  lemma ReadInside(pieces: seq<Bytes>)
    requires Filled(pieces) && pieces != [] && Concat(pieces) != [] && ReadOne(Concat(pieces)).bytes <= |pieces[0]|
    ensures var d := ReadOne(Concat(pieces));
            ReadPieces(pieces) == [d.code] + ReadPieces(Skip(pieces, d.bytes))
  {
    hide ReadOne, ReadPieces;
    FirstOf(pieces);
    ReadHead(pieces);
  }

  /** Windows never join characters. */
  lemma {:induction false} ReadsMore(pieces: seq<Bytes>)
    requires Filled(pieces)
    ensures |ReadPieces(pieces)| >= |ReadAll(Concat(pieces))|
    decreases |Concat(pieces)|
  {
    hide ReadOne, ReadPieces;
    if pieces != [] {
      FirstOf(pieces);
      var d := ReadOne(Concat(pieces)).bytes;
      if d <= |pieces[0]| {
        ReadInside(pieces);
      } else {
        ReadCut(pieces);
      }
      ReadsMore(Skip(pieces, d));
    }
  }

  /** Input that comes in windows is read like the same bytes in one window if and only if the end of no window
      cuts a character. */
  lemma {:induction false} WindowsReadAlike(pieces: seq<Bytes>)
    requires Filled(pieces)
    ensures ReadPieces(pieces) == ReadAll(Concat(pieces)) <==> Whole(pieces, |Concat(pieces)|)
    decreases |Concat(pieces)|
  {
    hide ReadOne, ReadPieces;
    if pieces == [] {
      NothingRead();
    } else {
      FirstOf(pieces);
      var d := ReadOne(Concat(pieces));
      var rest := Skip(pieces, d.bytes);
      if d.bytes <= |pieces[0]| {
        ReadInside(pieces);
        WindowsReadAlike(rest);
        SameRest(d.code, ReadPieces(rest), ReadAll(Concat(rest)));
      } else {
        ReadCut(pieces);
        ReadsMore(rest);
      }
    }
  }

  lemma NothingRead()
    ensures ReadPieces([]) == []
  {
  }

  lemma SameRest(c: Code, s: seq<Code>, t: seq<Code>)
    ensures [c] + s == [c] + t <==> s == t
  {
    assert ([c] + s)[1..] == s && ([c] + t)[1..] == t;
  }
}
