/** BlobRef: bytes in pieces, found through a skip list keyed by where each piece starts. */
module Blob {
  import opened Units
  import opened SkipOrder
  import opened SkipList
  import opened BlobPieces

  const TWO_TO_64 := 0x1_0000_0000_0000_0000

  /** What a call reports instead of carrying on: NotImplemented ( "Writing blob with holes !" ) and the like. */
  datatype Outcome = Done | NotImplemented | Bug

  class BlobRef {
    const skMap: SkipMap
    var totalSize: nat
    var segments: Segments

    ghost predicate Valid()
      reads this, skMap
    {
      skMap.Valid() && PiecesOk(skMap.Contents(), segments, totalSize)
    }

    /** The byte string that the blob is. */
    ghost function Bytes(): (bytes: seq<bv8>)
      requires Valid()
      reads this, skMap
      ensures |bytes| == totalSize
    {
      AllBytes(skMap.Contents(), segments, totalSize);
      Content(skMap.Contents(), segments, totalSize)
    }

    /** All bytes of the pieces, also behind the size. */
    ghost function Raw(): seq<bv8>
      reads this, skMap
    {
      BlobPieces.Bytes(skMap.Contents(), segments)
    }

    /** Where the pieces start, and where the last one ends. */
    ghost function Starts(): (s: seq<nat>)
      reads skMap
      ensures s != []
    {
      StartsOf(skMap.Contents())
    }

    /** From `at` on, n bytes of segment p are the raw bytes from `offset` on. */
    ghost predicate Located(p: SegmentPtr, at: nat, offset: nat, n: nat)
      reads this, skMap
    {
      exists i :: PieceAt(i, p, at, offset, n)
    }

    ghost predicate PieceAt(i: nat, p: SegmentPtr, at: nat, offset: nat, n: nat)
      reads this, skMap
    {
      && i + 1 < |skMap.Contents()| && skMap.Contents()[i].value == p && p in segments
      && skMap.Contents()[i].hash + at == offset && at + n <= |segments[p]|
    }

    constructor (maxLevel: nat)
      requires 1 <= maxLevel <= TRACE_LEVELS
      ensures Valid() && fresh(skMap) && Bytes() == [] && totalSize == 0
    {
      skMap := new SkipMap(maxLevel);
      totalSize, segments := 0, map[];
    }

    /** The piece that an offset lies in ends at `end`. */
    ghost predicate PieceEndsAt(offset: nat, end: nat)
      reads skMap
    {
      var e := skMap.Contents();
      exists i :: 0 <= i < |e| - 1 && e[i].hash <= offset < e[i + 1].hash == end
    }

    /** An offset lies in one piece. */
    lemma PieceEndsOnce(offset: nat, end: nat, other: nat)
      requires Valid() && PieceEndsAt(offset, end) && PieceEndsAt(offset, other)
      ensures end == other
    {
      hide SkipOk, PiecesOk, BlobPieces.Bytes;
      var e := skMap.Contents();
      var i: nat :| i < |e| - 1 && e[i].hash <= offset < e[i + 1].hash == end;
      var j: nat :| j < |e| - 1 && e[j].hash <= offset < e[j + 1].hash == other;
      PiecesApart(e, segments, totalSize, i, j, offset);
    }

    /** getPiece: the bytes from an offset to the end of its piece; nothing beyond the size. */
    method GetPiece(offset: nat) returns (window: seq<bv8>)
      requires Valid()
      ensures offset >= totalSize ==> window == []
      ensures offset < totalSize ==>
            0 < |window| && offset + |window| <= |Raw()| && window == Raw()[offset..offset + |window|]
      ensures offset < totalSize ==> PieceEndsAt(offset, offset + |window|)
    {
      hide SkipOk, BlobPieces.Bytes, PiecesOk;
      window := [];
      if totalSize == 0 || offset >= totalSize {
        return;
      }
      ghost var e := skMap.Contents();
      var iter := new SkipIterator(skMap);
      iter.FindClosest(offset);
      StartsAtZero(e, segments, totalSize);
      ghost var i := iter.Closest(offset);
      var pieceStart := iter.GetHash();
      assert pieceStart <= offset;
      var found, nextPieceStart := iter.GetNextHash(i);
      BeforeEnd(e, segments, totalSize, i, offset);
      assert found;
      ReadInside(e, segments, totalSize, i, offset);
      var pieceOffset := iter.GetValue();
      window := segments[pieceOffset][offset - pieceStart..nextPieceStart - pieceStart];
      assert e[i].hash <= offset < e[i + 1].hash == offset + |window|;
    }

    /** readPiece: the exact slice, clipped to the size; the sum of offset and count is a 64-bit number,
        and when it wraps round a read inside the blob ends in a failed assertion. */
    method ReadPiece(count: nat, from: nat) returns (buff: seq<bv8>, outcome: Outcome)
      requires Valid() && count < TWO_TO_64 && from < TWO_TO_64 && totalSize + UNIT < TWO_TO_64
      ensures outcome == if from < totalSize && from + count >= TWO_TO_64 then Bug else Done
      ensures outcome.Done? && from >= totalSize ==> buff == []
      ensures outcome.Done? && from < totalSize ==>
                buff == Bytes()[from..if from + count <= totalSize then from + count else totalSize]
    {
      hide SkipOk, BlobPieces.Bytes, PiecesOk, Content, PieceEndsAt;
      AllBytes(skMap.Contents(), segments, totalSize);
      ghost var raw := Raw();
      buff := [];
      var remains: nat, offset: nat := count, from;
      if offset >= totalSize {
        return buff, Done;
      }
      if (offset + remains) % TWO_TO_64 > totalSize {
        remains := totalSize - offset;
      }
      while remains > 0
        invariant from <= offset <= |raw| && raw == Raw() && buff == raw[from..offset]
        invariant if from + count >= TWO_TO_64 then offset + remains == from + count
                  else offset + remains == if from + count <= totalSize then from + count else totalSize
        decreases remains
      {
        if !(offset < totalSize) {
          return buff, Bug;
        }
        var window := GetPiece(offset);
        var windowSize := |window|;
        if windowSize > remains {
          windowSize := remains;
        }
        SliceGrows(raw, from, offset, window, windowSize);
        buff := buff + window[..windowSize];
        offset := offset + windowSize;
        remains := remains - windowSize;
      }
      SizedBytes();
      if offset <= totalSize {
        SliceOfPrefix(raw, totalSize, from, offset);
      }
      outcome := Done;
    }

    /** A fresh segment of the allocator, with whatever it holds. */
    method GetFreeSegmentPtr(size: nat) returns (p: SegmentPtr)
      modifies `segments
      ensures p != 0 && p !in old(segments)
      ensures p in segments && segments == old(segments)[p := segments[p]] && |segments[p]| == size
    {
      UnusedExists(segments.Keys);
      p :| p != 0 && p !in segments;
      assert |seq(size, _ => 0 as bv8)| == size;
      var bytes: seq<bv8> :| |bytes| == size;
      segments := segments[p := bytes];
    }

    /** One more piece of n bytes, rounded up, in a segment of its own. */
    ghost predicate Appended(e: seq<Entry>, segs: Segments, offset: nat, n: nat, p: SegmentPtr)
      reads this, skMap
    {
      && skMap.Contents() == Heads(e) + [Entry(offset, p), Entry(offset + AlignSize(n), 0)]
      && p !in segs && p in segments && segments == segs[p := segments[p]] && totalSize == offset + n
    }

    /** appendPiece: the end marker becomes a piece of `count` bytes, rounded up, and a new end marker follows. */
    method AppendPiece(count: nat, offset: nat) returns (p: SegmentPtr, at: nat)
      requires Valid() && 0 < count <= SEGMENT_SIZE_MAX && offset == totalSize == |Raw()|
      modifies this, skMap
      ensures Valid() && totalSize == offset + count && |Raw()| == offset + AlignSize(count)
      ensures Raw()[..offset] == old(Raw())
      ensures at == 0 && Located(p, at, offset, count)
            && Appended(old(skMap.Contents()), old(segments), offset, count, p)
    {
      hide SkipOk, BlobPieces.Bytes, PiecesOk;
      ghost var e, segs, size := skMap.Contents(), segments, totalSize;
      AllBytes(e, segs, size);
      MarkerAligned(e, segs, size);
      assert offset % UNIT == 0;
      var alignedCount := AlignSize(count + offset % UNIT);
      var alignedOffset := offset - offset % UNIT;
      p := GetFreeSegmentPtr(alignedCount);
      MarkPiece(alignedOffset, p, segs);
      var nextPieceStart := alignedOffset + alignedCount;
      MarkEnd(nextPieceStart);
      AppendedBytes(e, segs, size, p, segments[p], offset + count);
      totalSize := offset + count;
      at := offset - alignedOffset;
      assert PieceAt(|Heads(e)|, p, at, offset, count);
    }

    /** The entry where the piece starts gets its segment. */
    method MarkPiece(start: nat, p: SegmentPtr, ghost segs: Segments)
      requires skMap.Valid() && PiecesOk(skMap.Contents(), segs, totalSize)
      requires start == End(skMap.Contents())
      modifies skMap
      ensures skMap.Valid() && skMap.Contents() == Heads(old(skMap.Contents())) + [Entry(start, p)]
    {
      hide SkipOk, Below, Last;
      ghost var e := skMap.Contents();
      MarkerAligned(e, segs, totalSize);
      var lastIter := new SkipIterator(skMap);
      lastIter.FindClosest(start);
      if totalSize == 0 {
        lastIter.Insert(start, p);
      } else {
        ghost var i := lastIter.Closest(start);
        AtEnd(e, segs, totalSize, i, start);
        var value := lastIter.GetValue();
        assert value == 0;
        lastIter.SetValue(p, i);
      }
    }

    /** A new last entry without a segment. */
    method MarkEnd(end: nat)
      requires skMap.Valid() && |skMap.Contents()| > 0 && skMap.Contents()[|skMap.Contents()| - 1].hash < end
      modifies skMap
      ensures skMap.Valid() && skMap.Contents() == old(skMap.Contents()) + [Entry(end, 0)]
    {
      hide SkipOk, Below, Last;
      ghost var e := skMap.Contents();
      var iterNext := new SkipIterator(skMap);
      iterNext.FindClosest(end);
      EntriesSorted(skMap.items, skMap.head, skMap.order, skMap.maxLevel);
      LastIsGreatest(e);
      iterNext.Behind(end);
      iterNext.Insert(end, 0);
      assert e[..|e|] + [Entry(end, 0)] + e[|e|..] == e + [Entry(end, 0)];
    }

    /** allowWritePiece: where up to n bytes may be stored at an offset not beyond the size: to the end of the piece
        that the offset lies in, or, behind all pieces, in a new piece of as many bytes as are asked for. A call at a
        greater offset is not implemented; the other two exits are never taken. */
    method AllowWritePiece(asked: nat, offset: nat) returns (p: SegmentPtr, at: nat, n: nat, outcome: Outcome)
      requires Valid() && asked > 0
      modifies this, skMap
      ensures outcome == if offset > old(totalSize) then NotImplemented else Done
      ensures outcome == NotImplemented ==> unchanged(this) && unchanged(skMap)
      ensures Valid() && old(|Raw()|) <= |Raw()| && old(totalSize) <= old(|Raw()|)
      ensures outcome.Done? ==>
                && 0 < n <= SEGMENT_SIZE_MAX && Located(p, at, offset, n)
                && totalSize == Max(old(totalSize), offset + Min(n, asked))
                && Raw()[..old(totalSize)] == old(Raw())[..old(totalSize)]
      ensures outcome.Done? && offset < old(|Raw()|) ==>
            PieceEndsAt(offset, offset + n) && unchanged(skMap) && segments == old(segments)
      ensures outcome.Done? && offset >= old(|Raw()|) ==>
            n == Min(asked, SEGMENT_SIZE_MAX) && Appended(old(skMap.Contents()), old(segments), offset, n, p)
      ensures outcome.Done? ==> Laid(Starts(), offset + asked) == Laid(old(Starts()), offset + asked)
    {
      hide SkipOk, BlobPieces.Bytes, PiecesOk, PieceEndsAt, Located, StartsOf;
      ghost var e := skMap.Contents();
      p, at, n := 0, 0, 0;
      AllBytes(skMap.Contents(), segments, totalSize);
      var count := if asked > SEGMENT_SIZE_MAX then SEGMENT_SIZE_MAX else asked;
      if offset > totalSize {
        return p, at, n, NotImplemented;
      }
      if totalSize == 0 && offset == 0 {
        MarkerAligned(skMap.Contents(), segments, totalSize);
        p, at := AppendPiece(count, offset);
        MoreLaid(e, offset, asked, p);
        return p, at, count, Done;
      }
      p, at, n, outcome := FindPiece(count, offset);
      if offset >= old(|Raw()|) {
        MoreLaid(e, offset, asked, p);
      }
    }

    /** The rest of allowWritePiece, for a blob that is not empty. */
    method FindPiece(count: nat, offset: nat) returns (p: SegmentPtr, at: nat, n: nat, outcome: Outcome)
      requires Valid() && 0 < totalSize && offset <= totalSize && 0 < count <= SEGMENT_SIZE_MAX
      modifies this, skMap
      ensures Valid() && outcome.Done? && old(|Raw()|) <= |Raw()|
      ensures 0 < n <= SEGMENT_SIZE_MAX && Located(p, at, offset, n)
      ensures totalSize == Max(old(totalSize), offset + Min(n, count))
      ensures old(totalSize) <= old(|Raw()|) && Raw()[..old(totalSize)] == old(Raw())[..old(totalSize)]
      ensures offset < old(|Raw()|) ==>
            PieceEndsAt(offset, offset + n) && unchanged(skMap) && segments == old(segments)
      ensures offset >= old(|Raw()|) ==>
            n == count && Appended(old(skMap.Contents()), old(segments), offset, n, p)
    {
      hide SkipOk, BlobPieces.Bytes, PiecesOk, Below, Last, Appended, PieceEndsAt, Located;
      p, at, n := 0, 0, 0;
      AllBytes(skMap.Contents(), segments, totalSize);
      var alignedOffset := offset - offset % UNIT;
      var iter := new SkipIterator(skMap);
      iter.FindClosest(alignedOffset);
      StartsAtZero(skMap.Contents(), segments, totalSize);
      ghost var i := iter.Closest(alignedOffset);
      AlignedPlace(skMap.Contents(), segments, totalSize, i, offset);
      var pieceOffset := iter.GetValue();
      if pieceOffset == 0 {
        if offset == totalSize {
          if offset != alignedOffset {
            return p, at, n, Bug;
          }
          p, at := AppendPiece(count, offset);
          return p, at, count, Done;
        }
        return p, at, n, Bug;
      }
      p, at, n := ExistingPiece(iter, i, offset, count);
      outcome := Done;
    }

    /** The end of allowWritePiece: the offset lies in an existing piece. */
    method ExistingPiece(iter: SkipIterator, ghost i: nat, offset: nat, count: nat)
        returns (p: SegmentPtr, at: nat, n: nat)
      requires Valid() && 0 < totalSize && offset <= totalSize && 0 < count <= SEGMENT_SIZE_MAX
      requires iter.Valid() && iter.skMapRef == skMap && i + 1 < |skMap.Contents()| && i < |skMap.order|
            && iter.currentItemPtr == skMap.order[i]
      requires iter.currentItemPtr in skMap.items && skMap.items[iter.currentItemPtr].value == skMap.Contents()[i].value
      requires skMap.items[iter.currentItemPtr].hash == skMap.Contents()[i].hash <= offset - offset % UNIT
      requires offset < skMap.Contents()[i + 1].hash <= End(skMap.Contents()) && PieceOk(skMap.Contents(), segments, i)
      modifies this`totalSize
      ensures Valid() && 0 < n <= SEGMENT_SIZE_MAX && Located(p, at, offset, n)
      ensures totalSize == Max(old(totalSize), offset + Min(n, count)) && PieceEndsAt(offset, offset + n)
    {
      hide SkipOk, BlobPieces.Bytes, PiecesOk;
      var alignedOffset := offset - offset % UNIT;
      var pieceStart := iter.GetHash();
      p := iter.GetValue();
      var readOffset := alignedOffset - pieceStart;
      var found, nextPieceStart := iter.GetNextHash(i);
      assert found;
      var writeLength := nextPieceStart - pieceStart - readOffset;
      n := writeLength - (offset - alignedOffset);
      at := readOffset + (offset - alignedOffset);
      var writeEndsAt := alignedOffset + writeLength;
      if writeEndsAt > offset + count {
        writeEndsAt := offset + count;
      }
      if writeEndsAt > totalSize {
        Resized(skMap.Contents(), segments, totalSize, writeEndsAt);
        totalSize := writeEndsAt;
      }
      assert PieceAt(i, p, at, offset, n);
    }

    /** memcpy into an allowed piece. */
    method Store(p: SegmentPtr, at: nat, data: seq<bv8>, ghost offset: nat, ghost n: nat)
      requires Valid() && Located(p, at, offset, n) && |data| <= n
      modifies `segments
      ensures Valid() && offset + n <= |Raw()| == old(|Raw()|)
      ensures Raw() == Overwritten(old(Raw()), offset, data)
    {
      hide SkipOk, BlobPieces.Bytes, PiecesOk;
      ghost var i :| PieceAt(i, p, at, offset, n);
      WriteInside(skMap.Contents(), segments, totalSize, i, at, data);
      PieceEnds(skMap.Contents(), segments, totalSize, i);
      var s := segments[p];
      segments := segments[p := s[..at] + data + s[at + |data|..]];
    }

    /** writePiece: at an offset not beyond the size, the bytes are overwritten or extended by exactly `buff`;
        beyond it nothing is written. */
    method WritePiece(buff: seq<bv8>, offset: nat) returns (outcome: Outcome)
      requires Valid()
      modifies this, skMap
      ensures Valid() && outcome == if offset > old(totalSize) && buff != [] then NotImplemented else Done
      ensures outcome.Done? && buff != [] ==> Bytes() == Merged(old(Bytes()), offset, buff)
      ensures !outcome.Done? || buff == [] ==> unchanged(this) && unchanged(skMap)
      ensures outcome.Done? ==> Starts() == Laid(old(Starts()), if buff == [] then 0 else offset + |buff|)
    {
      hide SkipOk, BlobPieces.Bytes, PiecesOk, Merged, StartsOf, Laid;
      var writtenCount: nat, remains: nat := 0, |buff|;
      ghost var s := Bytes();
      if offset <= totalSize {
        MergedNothing(s, offset);
      }
      assert buff[..0] == [];
      while remains > 0
        invariant Valid() && writtenCount + remains == |buff|
        invariant writtenCount == 0 ==> unchanged(this) && unchanged(skMap)
        invariant offset > old(totalSize) ==> writtenCount == 0
        invariant offset <= old(totalSize) ==>
              totalSize >= offset + writtenCount && Bytes() == Merged(s, offset, buff[..writtenCount])
        invariant Laid(Starts(), offset + |buff|) == Laid(old(Starts()), offset + |buff|)
      {
        var windowSize, o := WriteWindow(buff[writtenCount..], offset + writtenCount);
        if o.NotImplemented? {
          return o;
        }
        ghost var done, window := buff[..writtenCount], buff[writtenCount..][..windowSize];
        MergedTwice(s, offset, done, window);
        assert buff[..writtenCount + windowSize] == done + window;
        remains := remains - windowSize;
        writtenCount := writtenCount + windowSize;
      }
      assert buff[..|buff|] == buff;
      NoMoreLaid();
      outcome := Done;
    }

    /** One round of writePiece: the first part of the remaining bytes goes to one piece. */
    method WriteWindow(rest: seq<bv8>, offset: nat) returns (windowSize: nat, outcome: Outcome)
      requires Valid() && rest != []
      modifies this, skMap
      ensures Valid() && outcome == if offset > old(totalSize) then NotImplemented else Done
      ensures outcome.NotImplemented? ==> unchanged(this) && unchanged(skMap)
      ensures outcome.Done? ==>
            0 < windowSize <= |rest| && totalSize >= offset + windowSize
            && Bytes() == Merged(old(Bytes()), offset, rest[..windowSize])
            && Laid(Starts(), offset + |rest|) == Laid(old(Starts()), offset + |rest|)
    {
      hide SkipOk, BlobPieces.Bytes, PiecesOk, Merged, StartsOf, Laid, Appended, PieceEndsAt;
      ghost var raw, size := Raw(), totalSize;
      SizedBytes();
      var p, at, n, o := AllowWritePiece(|rest|, offset);
      outcome, windowSize := o, 0;
      if o.Done? {
        windowSize := if n < |rest| then n else |rest|;
        ghost var raw' := Raw();
        Store(p, at, rest[..windowSize], offset, n);
        SizedBytes();
        OverwriteIsMerge(raw, raw', size, offset, rest[..windowSize], totalSize);
      }
    }

    /** copyFrom: afterwards the blob holds the same bytes as the source; a smaller source is not implemented. */
    method CopyFrom(source: BlobRef) returns (outcome: Outcome)
      requires Valid() && source.Valid() && source != this && source.skMap != skMap
      modifies this, skMap
      ensures Valid() && source.Valid() && outcome == if source.totalSize < old(totalSize) then NotImplemented else Done
      ensures outcome.NotImplemented? ==> unchanged(this) && unchanged(skMap)
      ensures outcome.Done? ==> Bytes() == source.Bytes() && Starts() == Laid(old(Starts()), source.totalSize)
    {
      hide SkipOk, BlobPieces.Bytes, PiecesOk, StartsOf, Laid;
      if source.totalSize < totalSize {
        return NotImplemented;
      }
      if source.totalSize == 0 {
        assert Bytes() == source.Bytes() == [];
        NoMoreLaid();
        return Done;
      }
      ghost var s := source.Bytes();
      SizedBytes();
      var remains: nat, offset: nat := source.totalSize, 0;
      while remains > 0
        invariant Valid() && source.Valid() && source.Bytes() == s && offset + remains == source.totalSize
        invariant offset <= totalSize <= source.totalSize && totalSize <= |Raw()| && Raw()[..offset] == s[..offset]
        invariant Laid(Starts(), source.totalSize) == Laid(old(Starts()), source.totalSize)
      {
        var count := CopyPiece(source, remains, offset);
        assert s[..offset + count] == s[..offset] + s[offset..offset + count];
        remains := remains - count;
        offset := offset + count;
      }
      SizedBytes();
      NoMoreLaid();
      outcome := Done;
    }

    /** One round of copyFrom: as many bytes as both windows hold. */
    method CopyPiece(source: BlobRef, remains: nat, offset: nat) returns (count: nat)
      requires Valid() && source.Valid() && source != this && source.skMap != skMap
      requires remains > 0 && offset + remains == source.totalSize && offset <= totalSize <= source.totalSize
      modifies this, skMap
      ensures Valid() && source.Valid() && source.Bytes() == old(source.Bytes())
      ensures 0 < count <= remains && offset + count <= totalSize <= source.totalSize && totalSize <= |Raw()|
      ensures old(offset <= |Raw()|)
            && Raw()[..offset + count] == old(Raw())[..offset] + source.Bytes()[offset..offset + count]
      ensures Laid(Starts(), source.totalSize) == Laid(old(Starts()), source.totalSize)
    {
      hide SkipOk, BlobPieces.Bytes, PiecesOk, PieceEndsAt, Overwritten, Content, StartsOf, Laid, Appended;
      ghost var raw, sourceRaw, size := Raw(), source.Raw(), totalSize;
      source.SizedBytes();
      var sourceWindow := source.GetPiece(offset);
      var p, at, n, o := AllowWritePiece(remains, offset);
      ghost var raw' := Raw();
      ShorterPrefix(raw', raw, size, offset);
      var readBytes := if |sourceWindow| < n then |sourceWindow| else n;
      Store(p, at, sourceWindow[..readBytes], offset, n);
      SizedBytes();
      count := if readBytes > remains then remains else readBytes;
      OverwrittenPrefix(raw', offset, sourceWindow[..readBytes], count);
      assert sourceWindow[..readBytes][..count] == sourceWindow[..count];
      WindowPrefix(sourceRaw, source.totalSize, offset, sourceWindow, count);
    }

    /** One more piece, where the pieces that are to come begin. */
    lemma MoreLaid(e: seq<Entry>, offset: nat, asked: nat, p: SegmentPtr)
      requires offset == End(e) && asked > 0
      requires skMap.Contents()
            == Heads(e) + [Entry(offset, p), Entry(offset + AlignSize(Min(asked, SEGMENT_SIZE_MAX)), 0)]
      ensures Laid(Starts(), offset + asked) == Laid(StartsOf(e), offset + asked)
    {
      hide StartsOf;
      LastStart(e);
      AppendedStarts(e, p, AlignSize(Min(asked, SEGMENT_SIZE_MAX)));
    }

    lemma NoMoreLaid()
      requires Valid()
      ensures totalSize <= |Raw()| && forall end :: 0 <= end <= totalSize ==> Laid(Starts(), end) == Starts()
    {
      hide StartsOf;
      AllBytes(skMap.Contents(), segments, totalSize);
      LastStart(skMap.Contents());
    }

    lemma SizedBytes()
      requires Valid()
      ensures totalSize <= |Raw()| && Bytes() == Raw()[..totalSize]
    {
      AllBytes(skMap.Contents(), segments, totalSize);
    }
  }

  lemma ShorterPrefix(s: seq<bv8>, t: seq<bv8>, n: nat, k: nat)
    requires k <= n <= |s| && n <= |t| && s[..n] == t[..n]
    ensures s[..k] == t[..k]
  {
    assert s[..n][..k] == s[..k] && t[..n][..k] == t[..k];
  }

  lemma OverwrittenPrefix(s: seq<bv8>, at: nat, data: seq<bv8>, count: nat)
    requires at + |data| <= |s| && count <= |data|
    ensures at + count <= |Overwritten(s, at, data)|
          && Overwritten(s, at, data)[..at + count] == s[..at] + data[..count]
  {
  }

  lemma WindowPrefix(s: seq<bv8>, size: nat, offset: nat, window: seq<bv8>, count: nat)
    requires offset + |window| <= |s| && window == s[offset..offset + |window|] && count <= |window|
          && offset + count <= size <= |s|
    ensures window[..count] == s[..size][offset..offset + count]
  {
  }

  function Max(a: nat, b: nat): nat {
    if a < b then b else a
  }

  function Min(a: nat, b: nat): nat {
    if a < b then a else b
  }
}
