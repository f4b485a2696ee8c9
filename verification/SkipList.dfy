/** SKMapRef and its iterator: a skip list whose head is recycled. */
module SkipList {
  import opened SkipOrder
  import opened SkipSteps

  const TRACE_LEVELS := 64  // SKMap_maxLevel

  class SkipMap {
    const maxLevel: nat  // of the SKMapConfig
    var items: map<ItemPtr, Item>
    var head: ItemPtr
    ghost var order: seq<ItemPtr>

    ghost predicate Valid()
      reads this
    {
      maxLevel <= TRACE_LEVELS && SkipOk(items, head, order, maxLevel)
    }

    ghost function Contents(): seq<Entry>
      reads this
    {
      Entries(items, order)
    }

    /** The skip list as a map from hashes to values. */
    ghost function Map(): map<nat, nat>
      reads this
    {
      MapOf(Contents())
    }

    constructor (maxLevel: nat)
      requires 1 <= maxLevel <= TRACE_LEVELS
      ensures Valid() && Contents() == [] && this.maxLevel == maxLevel
    {
      this.maxLevel := maxLevel;
      items, head, order := map[], 0, [];
    }

    /** getNewItemPtr: a fresh segment, all links null. */
    method GetNewItemPtr(level: nat, hash: nat, value: nat) returns (p: ItemPtr)
      modifies `items
      ensures p != 0 && p !in old(items)
      ensures items == old(items)[p := Item(level, hash, value, seq(level + 1, _ => 0))]
    {
      UnusedExists(items.Keys);
      p :| p != 0 && p !in items;
      items := items[p := Item(level, hash, value, seq(level + 1, _ => 0))];
    }
  }

  lemma {:induction false} UnusedAbove(used: set<ItemPtr>) returns (b: nat)
    ensures forall p :: p in used ==> p < b
  {
    b := 0;
    if used != {} {
      var p :| p in used;
      var c := UnusedAbove(used - {p});
      b := if c > p then c else p + 1;
      forall q | q in used
        ensures q < b
      {
        assert q == p || q in used - {p};
      }
    }
  }

  lemma UnusedExists(used: set<ItemPtr>)
    ensures exists p: ItemPtr :: p != 0 && p !in used
  {
    var b := UnusedAbove(used);
    assert b + 1 !in used;
  }

  class SkipIterator {
    const skMapRef: SkipMap
    const trace: array<ItemPtr>
    var currentItemPtr: ItemPtr

    ghost predicate Valid()
      reads this, skMapRef
    {
      trace.Length == TRACE_LEVELS && skMapRef.Valid()
    }

    /** The place of the first item whose hash is not below `hash`. */
    ghost function Place(hash: nat): nat
      reads skMapRef
    {
      Below(skMapRef.items, skMapRef.order, hash)
    }

    /** The state that findClosest leaves: the item with the greatest hash not above `hash`, and, unless
        no hash is below, for each level the last item whose hash is below. */
    ghost predicate Positioned(hash: nat)
      requires Valid()
      reads this, skMapRef, trace
    {
      var items, order, n := skMapRef.items, skMapRef.order, Place(hash);
      && n <= |order|
      && currentItemPtr == (if n < |order| && order[n] in items && items[order[n]].hash == hash then order[n]
                            else if n > 0 then order[n - 1] else 0)
      && forall l :: 0 <= l < TRACE_LEVELS ==>
           trace[l] == if n > 0 && l < skMapRef.maxLevel then Last(items, order[..n], l) else 0
    }

    constructor (skMapRef: SkipMap)
      requires skMapRef.Valid()
      ensures Valid() && this.skMapRef == skMapRef && fresh(trace) && currentItemPtr == skMapRef.head
      ensures forall l :: 0 <= l < TRACE_LEVELS ==> trace[l] == 0
    {
      this.skMapRef := skMapRef;
      trace := new ItemPtr[TRACE_LEVELS](_ => 0);
      currentItemPtr := skMapRef.head;
    }

    /** After findClosest the current item carries the hash exactly when the map has it. */
    lemma Found(hash: nat)
      requires Valid() && Positioned(hash)
      ensures currentItemPtr == 0 || currentItemPtr in skMapRef.items
      ensures 0 !in skMapRef.items
      ensures hash in skMapRef.Map() <==>
            currentItemPtr in skMapRef.items && skMapRef.items[currentItemPtr].hash == hash
      ensures hash in skMapRef.Map() ==>
                && skMapRef.Map()[hash] == skMapRef.items[currentItemPtr].value
                && Place(hash) < |skMapRef.order| && skMapRef.order[Place(hash)] == currentItemPtr
                && skMapRef.Contents()[Place(hash)].hash == hash
      ensures hash !in skMapRef.Map() ==>
            forall i :: 0 <= i < |skMapRef.Contents()| ==> skMapRef.Contents()[i].hash != hash
    {
      hide First, Last, Below, ItemOk;
      FoundItem(skMapRef.items, skMapRef.head, skMapRef.order, skMapRef.maxLevel, hash, currentItemPtr);
      assert skMapRef.Contents() == Entries(skMapRef.items, skMapRef.order);
    }

    /** After findClosest for a hash not below the head: the entry with the greatest hash not above it. */
    lemma Closest(hash: nat) returns (i: nat)
      requires Valid() && Positioned(hash) && |skMapRef.Contents()| > 0 && skMapRef.Contents()[0].hash <= hash
      ensures i < |skMapRef.Contents()| && i < |skMapRef.order| && currentItemPtr == skMapRef.order[i]
            && currentItemPtr != 0
      ensures currentItemPtr in skMapRef.items && skMapRef.items[currentItemPtr].value == skMapRef.Contents()[i].value
      ensures skMapRef.items[currentItemPtr].hash == skMapRef.Contents()[i].hash <= hash
      ensures i + 1 < |skMapRef.Contents()| ==> hash < skMapRef.Contents()[i + 1].hash
    {
      hide First, Last, Below, ItemOk;
      i := ClosestEntry(skMapRef.items, skMapRef.head, skMapRef.order, skMapRef.maxLevel, hash, currentItemPtr);
      assert skMapRef.Contents() == Entries(skMapRef.items, skMapRef.order);
    }

    /** A hash above all others belongs at the end. */
    lemma Behind(hash: nat)
      requires Valid() && forall i :: 0 <= i < |skMapRef.Contents()| ==> skMapRef.Contents()[i].hash < hash
      ensures Place(hash) == |skMapRef.order|
    {
      hide ItemOk, Below;
      forall i | 0 <= i < |skMapRef.order|
        ensures skMapRef.order[i] in skMapRef.items && skMapRef.items[skMapRef.order[i]].hash < hash
      {
        assert skMapRef.Contents()[i].hash < hash;
      }
      BelowIs(skMapRef.items, skMapRef.order, hash, |skMapRef.order|);
    }

    method GetValue() returns (value: nat)
      requires Valid() && currentItemPtr in skMapRef.items
      ensures value == skMapRef.items[currentItemPtr].value
    {
      value := skMapRef.items[currentItemPtr].value;
    }

    method GetHash() returns (hash: nat)
      requires Valid() && currentItemPtr in skMapRef.items
      ensures hash == skMapRef.items[currentItemPtr].hash
    {
      hash := skMapRef.items[currentItemPtr].hash;
    }

    /** getNextHash: the hash of the item behind the current one. */
    method GetNextHash(ghost i: nat) returns (found: bool, nextHash: nat)
      requires Valid() && i < |skMapRef.order| && currentItemPtr == skMapRef.order[i]
      ensures found <==> i + 1 < |skMapRef.order|
      ensures found ==> nextHash == skMapRef.Contents()[i + 1].hash
    {
      NextItem(skMapRef.items, skMapRef.head, skMapRef.order, skMapRef.maxLevel, i);
      var next := skMapRef.items[currentItemPtr].next[0];
      found, nextHash := false, 0;
      if next != 0 {
        found, nextHash := true, skMapRef.items[next].hash;
      }
    }

    /** operator++ */
    method Next(ghost i: nat)
      requires Valid() && i < |skMapRef.order| && currentItemPtr == skMapRef.order[i]
      modifies `currentItemPtr
      ensures currentItemPtr == if i + 1 < |skMapRef.order| then skMapRef.order[i + 1] else 0
    {
      NextItem(skMapRef.items, skMapRef.head, skMapRef.order, skMapRef.maxLevel, i);
      currentItemPtr := skMapRef.items[currentItemPtr].next[0];
    }

    /** setValue */
    method SetValue(value: nat, ghost i: nat)
      requires Valid() && i < |skMapRef.order| && currentItemPtr == skMapRef.order[i]
      modifies skMapRef`items
      ensures Valid() && skMapRef.items.Keys == old(skMapRef.items.Keys)
      ensures skMapRef.Contents() == old(skMapRef.Contents()[i := Entry(skMapRef.Contents()[i].hash, value)])
      ensures skMapRef.Map() == old(skMapRef.Map()[skMapRef.Contents()[i].hash := value])
      ensures unchanged(this)
    {
      ghost var items, order, head := skMapRef.items, skMapRef.order, skMapRef.head;
      Stored(items, head, order, skMapRef.maxLevel, i, value);
      EntriesSorted(items, head, order, skMapRef.maxLevel);
      MapUpdate(skMapRef.Contents(), i, value);
      skMapRef.items := skMapRef.items[currentItemPtr := skMapRef.items[currentItemPtr].(value := value)];
    }

    /** findClosest */
    method FindClosest(hash: nat)
      requires Valid()
      modifies `currentItemPtr, trace
      ensures Valid() && Positioned(hash)
    {
      ghost var items, order, n := skMapRef.items, skMapRef.order, Place(hash);
      Placed(items, skMapRef.head, order, skMapRef.maxLevel, hash);
      NoNull(items, skMapRef.head, order, skMapRef.maxLevel);
      forall l | 0 <= l < trace.Length {
        trace[l] := 0;
      }
      if skMapRef.head == 0 {
        currentItemPtr := 0;
        return;
      }
      HeadItem(items, skMapRef.head, order, skMapRef.maxLevel);
      if skMapRef.items[skMapRef.head].hash == hash {
        currentItemPtr := skMapRef.head;
        return;
      }
      if skMapRef.items[skMapRef.head].hash > hash {
        currentItemPtr := 0;
        return;
      }
      currentItemPtr := skMapRef.head;
      Descend(hash, n);
    }

    /** The random level of a new item: any level below the maximum. */
    method RandomLevel() returns (level: nat)
      requires Valid()
      ensures level < skMapRef.maxLevel
    {
      level := 0;
      var more: bool := *;
      while level < skMapRef.maxLevel - 1 && more
        invariant level < skMapRef.maxLevel
      {
        level := level + 1;
        more := *;
      }
    }

    /** insert, after findClosest for a hash that is not there: one entry is added in its place.
        Before the head the iterator stays unpositioned; otherwise it stands on the new item. */
    method Insert(hash: nat, value: nat)
      requires Valid() && Positioned(hash)
      requires forall i :: 0 <= i < |skMapRef.Contents()| ==> skMapRef.Contents()[i].hash != hash
      modifies `currentItemPtr, skMapRef
      ensures Valid()
      ensures skMapRef.Map() == old(skMapRef.Map())[hash := value] && hash !in old(skMapRef.Map())
      ensures old(Place(hash)) <= |old(skMapRef.order)|
      ensures skMapRef.Contents()
            == old(skMapRef.Contents()[..Place(hash)] + [Entry(hash, value)] + skMapRef.Contents()[Place(hash)..])
      ensures if old(currentItemPtr == 0 && skMapRef.head != 0) then currentItemPtr == 0 else Positioned(hash)
    {
      hide SkipOk, Below, First, Last;
      assert skMapRef.Contents() == Entries(skMapRef.items, skMapRef.order);
      ClosestItem(skMapRef.items, skMapRef.head, skMapRef.order, skMapRef.maxLevel, hash, currentItemPtr);
      if currentItemPtr == 0 {
        if skMapRef.head == 0 {
          InsertFirst(hash, value);
        } else {
          InsertBeforeHead(hash, value);
        }
      } else {
        InsertBehind(hash, value);
      }
      EntriesSorted(skMapRef.items, skMapRef.head, skMapRef.order, skMapRef.maxLevel);
      ghost var e, n := old(skMapRef.Contents()), old(Place(hash));
      assert skMapRef.Contents() == Entries(skMapRef.items, skMapRef.order);
      assert skMapRef.Contents() == e[..n] + [Entry(hash, value)] + e[n..];
      MapInsert(e, n, Entry(hash, value));
    }

    /** An empty list: the new item becomes the head, on all levels. */
    method InsertFirst(hash: nat, value: nat)
      requires Valid() && Positioned(hash) && skMapRef.head == 0 && currentItemPtr == 0
      modifies `currentItemPtr, skMapRef
      ensures Valid() && Positioned(hash) && skMapRef.Contents() == [Entry(hash, value)]
    {
      NoNull(skMapRef.items, skMapRef.head, skMapRef.order, skMapRef.maxLevel);
      currentItemPtr := skMapRef.GetNewItemPtr(skMapRef.maxLevel - 1, hash, value);
      skMapRef.head := currentItemPtr;
      skMapRef.order := [currentItemPtr];
      assert ItemOk(skMapRef.items, skMapRef.order, 0, skMapRef.maxLevel);
    }

    /** Before the head: the head is recycled for the new entry, and what it held moves to a new item. */
    method InsertBeforeHead(hash: nat, value: nat)
      requires Valid() && skMapRef.head != 0 && skMapRef.head in skMapRef.items
            && hash < skMapRef.items[skMapRef.head].hash
      modifies skMapRef
      ensures Valid() && skMapRef.Contents() == [Entry(hash, value)] + old(skMapRef.Contents())
    {
      hide SkipOk, First, Last, Below;
      ghost var items, head, order := skMapRef.items, skMapRef.head, skMapRef.order;
      HeadItem(items, head, order, skMapRef.maxLevel);
      HeadLinks(items, head, order, skMapRef.maxLevel);
      var newLevel := RandomLevel();
      var p := skMapRef.GetNewItemPtr(newLevel, skMapRef.items[skMapRef.head].hash,
          skMapRef.items[skMapRef.head].value);
      CopyLinks(p, newLevel, items);
      var x := skMapRef.items[skMapRef.head].(hash := hash, value := value);
      skMapRef.items := skMapRef.items[skMapRef.head := x];
      HeadTo(p, newLevel, items, hash, value);
      RecycleKeeps(items, skMapRef.items, head, order, skMapRef.maxLevel, p, newLevel, Entry(hash, value));
      RecycleEntries(items, skMapRef.items, head, order, skMapRef.maxLevel, p, newLevel, Entry(hash, value));
      skMapRef.order := [head, p] + order[1..];
    }

    /** The new item takes over the links of the head, up to its own level. */
    method CopyLinks(p: ItemPtr, newLevel: nat, ghost items: map<ItemPtr, Item>)
      requires skMapRef.head in items && p !in items && newLevel < |items[skMapRef.head].next|
      requires skMapRef.items
            == items[p :=
              Item(newLevel, items[skMapRef.head].hash, items[skMapRef.head].value, seq(newLevel + 1, _ => 0))]
      modifies skMapRef`items
      ensures skMapRef.items
            == items[p :=
              Item(newLevel, items[skMapRef.head].hash, items[skMapRef.head].value,
            items[skMapRef.head].next[..newLevel + 1])]
    {
      var head := skMapRef.head;
      var level := 0;
      while level <= newLevel
        invariant level <= newLevel + 1 && p in skMapRef.items && |skMapRef.items[p].next| == newLevel + 1
        invariant skMapRef.items
              == items[p := Item(newLevel, items[head].hash, items[head].value, skMapRef.items[p].next)]
        invariant forall l :: 0 <= l < level ==> skMapRef.items[p].next[l] == items[head].next[l]
      {
        skMapRef.items :=
            skMapRef.items[p :=
              skMapRef.items[p].(next := skMapRef.items[p].next[level := skMapRef.items[head].next[level]])];
        level := level + 1;
      }
      assert skMapRef.items[p].next == items[head].next[..newLevel + 1];
    }

    /** The head leads to the new item on its levels. */
    method HeadTo(p: ItemPtr, newLevel: nat, ghost items: map<ItemPtr, Item>, ghost hash: nat, ghost value: nat)
      requires skMapRef.head in items
            && Recycled(items, skMapRef.items, skMapRef.head, p, newLevel, Entry(hash, value), 0)
      modifies skMapRef`items
      ensures Recycled(items, skMapRef.items, skMapRef.head, p, newLevel, Entry(hash, value), newLevel + 1)
    {
      var head := skMapRef.head;
      var level := 0;
      while level <= newLevel
        invariant level <= newLevel + 1 && Recycled(items, skMapRef.items, head, p, newLevel, Entry(hash, value), level)
      {
        skMapRef.items := skMapRef.items[head := skMapRef.items[head].(next := skMapRef.items[head].next[level := p])];
        level := level + 1;
      }
    }

    /** Behind a smaller item: linked in behind the traced item of each of its levels. */
    method InsertBehind(hash: nat, value: nat)
      requires Valid() && Positioned(hash) && currentItemPtr != 0
      requires forall i :: 0 <= i < |skMapRef.Contents()| ==> skMapRef.Contents()[i].hash != hash
      modifies `currentItemPtr, skMapRef
      ensures Valid() && Positioned(hash) && old(Place(hash)) <= |old(skMapRef.order)|
      ensures skMapRef.Contents()
            == old(skMapRef.Contents()[..Place(hash)] + [Entry(hash, value)] + skMapRef.Contents()[Place(hash)..])
    {
      hide SkipOk, First, Last, Below, Splicing;
      ghost var items, head, order, n := skMapRef.items, skMapRef.head, skMapRef.order, Place(hash);
      assert skMapRef.Contents() == Entries(items, order);
      InsertPlace(items, head, order, skMapRef.maxLevel, hash);
      var newLevel := RandomLevel();
      var nextItemPtr := skMapRef.GetNewItemPtr(newLevel, hash, value);
      ghost var x := skMapRef.items[nextItemPtr];
      SpliceStart(items, skMapRef.items, order, n, nextItemPtr, x);
      LinkIn(nextItemPtr, x, items, n);
      SpliceKeeps(items, skMapRef.items, head, order, skMapRef.maxLevel, n, nextItemPtr, x);
      SpliceEntries(items, skMapRef.items, head, order, skMapRef.maxLevel, n, nextItemPtr, x);
      SplicedPlace(items, skMapRef.items, head, order, skMapRef.maxLevel, n, nextItemPtr, x);
      skMapRef.order := order[..n] + [nextItemPtr] + order[n..];
      currentItemPtr := nextItemPtr;
    }

    /** The loop over the levels of the new item. */
    method LinkIn(nextItemPtr: ItemPtr, ghost x: Item, ghost items: map<ItemPtr, Item>, ghost n: nat)
      requires 1 <= n <= |skMapRef.order| && x.level < skMapRef.maxLevel <= TRACE_LEVELS == trace.Length
      requires SkipOk(items, skMapRef.head, skMapRef.order, skMapRef.maxLevel)
      requires Splicing(items, skMapRef.items, skMapRef.order, n, nextItemPtr, x, 0)
      requires forall l :: 0 <= l < skMapRef.maxLevel ==> trace[l] == Last(items, skMapRef.order[..n], l)
      modifies skMapRef`items
      ensures Splicing(items, skMapRef.items, skMapRef.order, n, nextItemPtr, x, x.level + 1)
    {
      hide SkipOk, First, Last, Splicing;
      ghost var order := skMapRef.order;
      SplicedNew(items, skMapRef.items, order, n, nextItemPtr, x, 0);
      var newLevel := skMapRef.items[nextItemPtr].level;
      var level := 0;
      while level <= newLevel
        invariant newLevel == x.level && level <= newLevel + 1 && skMapRef.order == order
        invariant Splicing(items, skMapRef.items, order, n, nextItemPtr, x, level)
      {
        SpliceStep(items, skMapRef.items, skMapRef.head, order, skMapRef.maxLevel, n, nextItemPtr, x, level);
        SplicedNew(items, skMapRef.items, order, n, nextItemPtr, x, level);
        var itemBefore := trace[level];
        var itemAfterPtr := skMapRef.items[itemBefore].next[level];
        skMapRef.items :=
            skMapRef.items[itemBefore :=
              skMapRef.items[itemBefore].(next := skMapRef.items[itemBefore].next[level := nextItemPtr])];
        skMapRef.items :=
            skMapRef.items[nextItemPtr :=
              skMapRef.items[nextItemPtr].(next := skMapRef.items[nextItemPtr].next[level := itemAfterPtr])];
        level := level + 1;
      }
    }

    /** erase, after findClosest for a hash that is there: exactly that entry goes, and the iterator
        is left unpositioned. */
    method Erase(ghost hash: nat)
      requires Valid() && Positioned(hash) && currentItemPtr in skMapRef.items
            && skMapRef.items[currentItemPtr].hash == hash
      modifies `currentItemPtr, skMapRef
      ensures Valid() && currentItemPtr == 0
      ensures skMapRef.Map() == old(skMapRef.Map()) - {hash} && hash in old(skMapRef.Map())
      ensures old(Place(hash)) < |old(skMapRef.order)|
      ensures old(skMapRef.Contents()[Place(hash)].hash == hash)
      ensures skMapRef.Contents() == old(skMapRef.Contents()[..Place(hash)] + skMapRef.Contents()[Place(hash) + 1..])
    {
      hide SkipOk, Below, First, Last;
      ErasePlace(skMapRef.items, skMapRef.head, skMapRef.order, skMapRef.maxLevel, hash, currentItemPtr);
      EntriesSorted(skMapRef.items, skMapRef.head, skMapRef.order, skMapRef.maxLevel);
      ghost var e, n := skMapRef.Contents(), Place(hash);
      assert e[n].hash == hash;
      MapRemove(e, n);
      MapValue(e, n);
      if skMapRef.head == currentItemPtr {
        EraseHead();
      } else {
        EraseBehind(hash);
      }
      assert skMapRef.Contents() == e[..n] + e[n + 1..];
      currentItemPtr := 0;
    }

    /** The head is erased: its successor moves into it, or the list becomes empty. */
    method EraseHead()
      requires Valid() && currentItemPtr == skMapRef.head != 0
      modifies `currentItemPtr, skMapRef
      ensures Valid() && old(|skMapRef.order|) > 0 && skMapRef.Contents() == old(skMapRef.Contents()[1..])
    {
      hide SkipOk, First, Last, TakenOver;
      ghost var items, order := skMapRef.items, skMapRef.order;
      var head := skMapRef.head;
      HeadItem(items, head, order, skMapRef.maxLevel);
      NextItem(items, head, order, skMapRef.maxLevel, 0);
      if skMapRef.items[head].next[0] != 0 {
        currentItemPtr := skMapRef.items[head].next[0];
        TakeOverStart(items, head, order, skMapRef.maxLevel);
        TakeLinks(items);
        ghost var mid := skMapRef.items;
        TakenHead(items, mid, head, currentItemPtr);
        var s := skMapRef.items[currentItemPtr];
        skMapRef.items := skMapRef.items[head := skMapRef.items[head].(hash := s.hash, value := s.value)];
        TakenAnyway(items, mid, head, currentItemPtr, skMapRef.items[head]);
        TakeOverKeeps(items, skMapRef.items, head, order, skMapRef.maxLevel);
        TakeOverEntries(items, skMapRef.items, head, order, skMapRef.maxLevel);
        skMapRef.order := [head] + order[2..];
      } else {
        EmptyKeeps(items, head, order, skMapRef.maxLevel);
        skMapRef.head := 0;
        skMapRef.order := [];
      }
      skMapRef.items := skMapRef.items - {currentItemPtr};
    }

    /** The loop over the levels of the successor of the head. */
    method TakeLinks(ghost items: map<ItemPtr, Item>)
      requires Valid() && skMapRef.items == items && |skMapRef.order| >= 2 && skMapRef.order[1] == currentItemPtr
      requires skMapRef.head in items && currentItemPtr in items
            && TakenOver(items, items, skMapRef.head, currentItemPtr, 0)
      modifies skMapRef`items
      ensures TakenOver(items, skMapRef.items, skMapRef.head, currentItemPtr, items[currentItemPtr].level + 1)
    {
      hide SkipOk, First, Last;
      var head, newLevel := skMapRef.head, skMapRef.items[currentItemPtr].level;
      var level := 0;
      while level <= newLevel
        invariant level <= newLevel + 1 && newLevel == items[currentItemPtr].level
        invariant TakenOver(items, skMapRef.items, head, currentItemPtr, level)
      {
        SuccessorLinks(items, head, skMapRef.order, skMapRef.maxLevel, level);
        assert skMapRef.items[head].next[level] == currentItemPtr;
        skMapRef.items :=
            skMapRef.items[head :=
              skMapRef.items[head].(next :=
              skMapRef.items[head].next[level := skMapRef.items[currentItemPtr].next[level]])];
        level := level + 1;
      }
    }

    /** An item behind the head is erased: the traced items link past it. */
    method EraseBehind(ghost hash: nat)
      requires Valid() && Positioned(hash) && currentItemPtr in skMapRef.items
            && skMapRef.items[currentItemPtr].hash == hash
      requires 1 <= Place(hash) < |skMapRef.order| && skMapRef.order[Place(hash)] == currentItemPtr
      modifies skMapRef
      ensures Valid()
      ensures skMapRef.Contents() == old(skMapRef.Contents()[..Place(hash)] + skMapRef.Contents()[Place(hash) + 1..])
    {
      hide SkipOk, First, Last, Below;
      ghost var items, head, order, n := skMapRef.items, skMapRef.head, skMapRef.order, Place(hash);
      var newLevel := skMapRef.items[currentItemPtr].level;
      ErasedLevel(items, head, order, skMapRef.maxLevel, n);
      var level := 0;
      while level <= newLevel
        invariant level <= newLevel + 1 && skMapRef.order == order && skMapRef.head == head
        invariant Unsplicing(items, skMapRef.items, order, n, level)
      {
        UnspliceStep(items, skMapRef.items, head, order, skMapRef.maxLevel, n, level);
        var item := trace[level];
        assert skMapRef.items[item].next[level] == currentItemPtr;
        skMapRef.items :=
            skMapRef.items[item :=
              skMapRef.items[item].(next :=
              skMapRef.items[item].next[level := skMapRef.items[currentItemPtr].next[level]])];
        level := level + 1;
      }
      UnspliceKeeps(items, skMapRef.items, head, order, skMapRef.maxLevel, n);
      UnspliceEntries(items, skMapRef.items, head, order, skMapRef.maxLevel, n);
      skMapRef.items := skMapRef.items - {currentItemPtr};
      skMapRef.order := order[..n] + order[n + 1..];
    }

    /** The loop of findClosest, from the head on the highest level down to level 0. */
    method Descend(hash: nat, ghost n: nat)
      requires Valid() && n == Place(hash) && 1 <= n <= |skMapRef.order| && currentItemPtr == skMapRef.head
      requires forall l :: 0 <= l < TRACE_LEVELS ==> trace[l] == 0
      modifies `currentItemPtr, trace
      ensures Valid() && Positioned(hash)
    {
      hide SkipOk, First, Last, Below;
      ghost var items, order, k := skMapRef.items, skMapRef.order, 0;
      HeadItem(items, skMapRef.head, order, skMapRef.maxLevel);
      var level: nat := skMapRef.maxLevel - 1;
      while true
        invariant k < n && order[k] == currentItemPtr && level < skMapRef.maxLevel
        invariant currentItemPtr in items && level <= items[currentItemPtr].level
        invariant forall l :: 0 <= l < TRACE_LEVELS ==>
                    trace[l] == if level < l < skMapRef.maxLevel then Last(items, order[..n], l) else 0
        decreases level, |order| - k
      {
        SearchItem(items, skMapRef.head, order, skMapRef.maxLevel, hash, n, k, level);
        assert items[currentItemPtr].hash != hash;
        var nextItemPtr := skMapRef.items[currentItemPtr].next[level];
        if nextItemPtr == 0 {
          trace[level] := currentItemPtr;
          if level == 0 {
            LastItem(items, skMapRef.head, order, skMapRef.maxLevel, hash, n, k);
            return;
          }
          level := level - 1;
        } else if skMapRef.items[nextItemPtr].hash >= hash {
          trace[level] := currentItemPtr;
          if level == 0 {
            LastItem(items, skMapRef.head, order, skMapRef.maxLevel, hash, n, k);
            if skMapRef.items[nextItemPtr].hash == hash {
              currentItemPtr := nextItemPtr;
            }
            return;
          }
          level := level - 1;
        } else {
          k := MoveOn(items, skMapRef.head, order, skMapRef.maxLevel, hash, n, k, level);
          currentItemPtr := nextItemPtr;
        }
      }
    }
  }

  // ----- facts for the iterator -----

  lemma EntriesSorted(items: map<ItemPtr, Item>, head: ItemPtr, order: seq<ItemPtr>, maxLevel: nat)
    requires SkipOk(items, head, order, maxLevel)
    ensures Sorted(Entries(items, order))
  {
    forall i, j | 0 <= i < j < |order|
      ensures Entries(items, order)[i].hash < Entries(items, order)[j].hash
    {
      InOrder(items, head, order, maxLevel, i, j);
    }
  }

  lemma NextItem(items: map<ItemPtr, Item>, head: ItemPtr, order: seq<ItemPtr>, maxLevel: nat, i: nat)
    requires SkipOk(items, head, order, maxLevel) && i < |order|
    ensures order[i] in items && |items[order[i]].next| > 0
    ensures items[order[i]].next[0] == if i + 1 < |order| then order[i + 1] else 0
    ensures i + 1 < |order| ==> order[i + 1] in items && order[i + 1] != 0
  {
    assert ItemOk(items, order, i, maxLevel);
    assert i + 1 < |order| ==> ItemOk(items, order, i + 1, maxLevel);
  }

  lemma HeadItem(items: map<ItemPtr, Item>, head: ItemPtr, order: seq<ItemPtr>, maxLevel: nat)
    requires SkipOk(items, head, order, maxLevel) && (head != 0 || order != [])
    ensures |order| > 0 && head == order[0] && head in items && head != 0 && items[head].level == maxLevel - 1
  {
    if order != [] {
      assert ItemOk(items, order, 0, maxLevel);
    }
  }

  lemma Placed(items: map<ItemPtr, Item>, head: ItemPtr, order: seq<ItemPtr>, maxLevel: nat, hash: nat)
    requires SkipOk(items, head, order, maxLevel)
    ensures var n := Below(items, order, hash);
            && n <= |order|
            && (forall i :: 0 <= i < n ==> items[order[i]].hash < hash)
            && (forall i :: n <= i < |order| ==> items[order[i]].hash >= hash)
  {
    BelowSplits(items, order, hash);
  }

  /** Storing a value keeps the skip list. */
  lemma Stored(items: map<ItemPtr, Item>, head: ItemPtr, order: seq<ItemPtr>, maxLevel: nat, i: nat, value: nat)
    requires SkipOk(items, head, order, maxLevel) && i < |order|
    ensures order[i] in items
    ensures var items' := items[order[i] := items[order[i]].(value := value)];
            && SkipOk(items', head, order, maxLevel)
            && Entries(items', order) == Entries(items, order)[i := Entry(Entries(items, order)[i].hash, value)]
  {
    assert ItemOk(items, order, i, maxLevel);
    var items' := items[order[i] := items[order[i]].(value := value)];
    forall j | 0 <= j < |order|
      ensures ItemOk(items', order, j, maxLevel)
    {
      assert ItemOk(items, order, j, maxLevel);
      forall l | 0 <= l <= items[order[j]].level
        ensures items'[order[j]].next[l] == First(items', order[j + 1..], l)
      {
        FirstFrame(items, items', order[j + 1..], l);
      }
    }
    forall j | 0 <= j < |order|
      ensures Entries(items', order)[j] == Entries(items, order)[i := Entry(Entries(items, order)[i].hash, value)][j]
    {
      if j != i {
        Different(items, head, order, maxLevel, i, j);
      }
    }
  }

  /** What the search knows at item k, whose hash is below: its next item on the level is below too
      exactly when it lies before place n, and otherwise item k is the trace of the level. */
  lemma SearchItem(items: map<ItemPtr, Item>, head: ItemPtr, order: seq<ItemPtr>, maxLevel: nat, hash: nat, n: nat,
      k: nat, level: nat)
    requires SkipOk(items, head, order, maxLevel) && n == Below(items, order, hash) && k < n <= |order|
    requires order[k] in items && level <= items[order[k]].level
    ensures items[order[k]].hash < hash && level < |items[order[k]].next| && level < maxLevel
    ensures var next := items[order[k]].next[level];
            && (next != 0 ==> next in items)
            && (next == 0 || items[next].hash >= hash ==> Last(items, order[..n], level) == order[k])
  {
    Placed(items, head, order, maxLevel, hash);
    assert ItemOk(items, order, k, maxLevel) && ItemOk(items, order, 0, maxLevel);
    NoNull(items, head, order, maxLevel);
    var j := FirstFound(items, order[k + 1..], level);
    var next := items[order[k]].next[level];
    if next == 0 || items[next].hash >= hash {
      assert j < |order| - k - 1 ==> order[k + 1..][j] == order[k + 1 + j];
      var mid := order[k + 1..n];
      assert j >= |mid|;
      forall i | 0 <= i < |mid|
        ensures !Reaches(items, mid[i], level)
      {
        assert order[k + 1..][i] == mid[i];
      }
      FirstNone(items, mid, level);
      assert order[..n][k + 1..] == mid;
      LastIs(items, order[..n], level, k);
    }
  }

  lemma MoveOn(items: map<ItemPtr, Item>, head: ItemPtr, order: seq<ItemPtr>, maxLevel: nat, hash: nat, n: nat, k: nat,
      level: nat) returns (j: nat)
    requires SkipOk(items, head, order, maxLevel) && n == Below(items, order, hash) && k < n <= |order|
    requires order[k] in items && level <= items[order[k]].level && level < |items[order[k]].next|
    requires var next := items[order[k]].next[level]; next != 0 && next in items && items[next].hash < hash
    ensures k < j < n && order[j] == items[order[k]].next[level] && level <= items[order[j]].level
  {
    Placed(items, head, order, maxLevel, hash);
    assert ItemOk(items, order, k, maxLevel);
    NoNull(items, head, order, maxLevel);
    var i := FirstFound(items, order[k + 1..], level);
    j := k + 1 + i;
  }

  /** On level 0, the search ends at the last item below. */
  lemma LastItem(items: map<ItemPtr, Item>, head: ItemPtr, order: seq<ItemPtr>, maxLevel: nat, hash: nat, n: nat,
      k: nat)
    requires SkipOk(items, head, order, maxLevel) && n == Below(items, order, hash) && k < n <= |order|
    requires order[k] in items && |items[order[k]].next| > 0
    requires var next := items[order[k]].next[0]; next == 0 || (next in items && items[next].hash >= hash)
    ensures k == n - 1
    ensures items[order[k]].next[0] == if n < |order| then order[n] else 0
    ensures n < |order| ==> order[n] in items && order[n] != 0
  {
    Placed(items, head, order, maxLevel, hash);
    NextItem(items, head, order, maxLevel, k);
    assert k + 1 >= n;
  }

  /** What an unpositioned iterator says about the hash. */
  lemma ClosestItem(items: map<ItemPtr, Item>, head: ItemPtr, order: seq<ItemPtr>, maxLevel: nat, hash: nat,
      current: ItemPtr)
    requires SkipOk(items, head, order, maxLevel)
    requires var n := Below(items, order, hash);
             && n <= |order|
             && current == (if n < |order| && order[n] in items && items[order[n]].hash == hash then order[n]
                   else if n > 0 then order[n - 1] else 0)
    requires forall i :: 0 <= i < |order| ==> Entries(items, order)[i].hash != hash
    ensures current == 0 <==> Below(items, order, hash) == 0
    ensures current == 0 && head != 0 ==> head in items && hash < items[head].hash
    ensures head == 0 ==> order == []
  {
    Placed(items, head, order, maxLevel, hash);
    NoNull(items, head, order, maxLevel);
    forall i | 0 <= i < |order|
      ensures items[order[i]].hash != hash && order[i] != 0
    {
      assert Entries(items, order)[i].hash != hash;
    }
  }

  lemma ClosestEntry(items: map<ItemPtr, Item>, head: ItemPtr, order: seq<ItemPtr>, maxLevel: nat, hash: nat,
      current: ItemPtr) returns (i: nat)
    requires SkipOk(items, head, order, maxLevel) && |order| > 0 && Entries(items, order)[0].hash <= hash
    requires var n := Below(items, order, hash);
             && n <= |order|
             && current == (if n < |order| && order[n] in items && items[order[n]].hash == hash then order[n]
                   else if n > 0 then order[n - 1] else 0)
    ensures i < |order| && order[i] == current && current in items && current != 0
    ensures items[current].hash <= hash && (i + 1 < |order| ==> hash < Entries(items, order)[i + 1].hash)
  {
    Placed(items, head, order, maxLevel, hash);
    NoNull(items, head, order, maxLevel);
    EntriesSorted(items, head, order, maxLevel);
    var n := Below(items, order, hash);
    assert order[0] in items && items[order[0]].hash <= hash;
    i := if n < |order| && items[order[n]].hash == hash then n else n - 1;
    if i == n && n + 1 < |order| {
      assert Entries(items, order)[n].hash < Entries(items, order)[n + 1].hash;
    }
  }

  lemma FoundItem(items: map<ItemPtr, Item>, head: ItemPtr, order: seq<ItemPtr>, maxLevel: nat, hash: nat,
      current: ItemPtr)
    requires SkipOk(items, head, order, maxLevel)
    requires var n := Below(items, order, hash);
             && n <= |order|
             && current == (if n < |order| && order[n] in items && items[order[n]].hash == hash then order[n]
                   else if n > 0 then order[n - 1] else 0)
    ensures var e, n := Entries(items, order), Below(items, order, hash);
            && (current == 0 || current in items) && 0 !in items
            && (hash in MapOf(e) <==> current in items && items[current].hash == hash)
            && (hash in MapOf(e) ==>
                  n < |order| && order[n] == current && e[n].hash == hash && MapOf(e)[hash] == items[current].value)
            && (hash !in MapOf(e) ==> forall i :: 0 <= i < |e| ==> e[i].hash != hash)
  {
    Placed(items, head, order, maxLevel, hash);
    NoNull(items, head, order, maxLevel);
    EntriesSorted(items, head, order, maxLevel);
    var e, n := Entries(items, order), Below(items, order, hash);
    MapKeys(e, hash);
    if n < |order| && items[order[n]].hash == hash {
      MapValue(e, n);
    } else {
      forall i | 0 <= i < |e|
        ensures e[i].hash != hash
      {
        if i >= n {
          InOrder(items, head, order, maxLevel, n, i);
        }
      }
    }
  }

  lemma HeadLinks(items: map<ItemPtr, Item>, head: ItemPtr, order: seq<ItemPtr>, maxLevel: nat)
    requires SkipOk(items, head, order, maxLevel) && |order| > 0 && head in items
    ensures |items[head].next| == maxLevel
  {
    assert ItemOk(items, order, 0, maxLevel);
  }

  lemma InsertPlace(items: map<ItemPtr, Item>, head: ItemPtr, order: seq<ItemPtr>, maxLevel: nat, hash: nat)
    requires SkipOk(items, head, order, maxLevel) && Below(items, order, hash) <= |order|
    requires forall i :: 0 <= i < |order| ==> Entries(items, order)[i].hash != hash
    ensures var n := Below(items, order, hash);
            && (n > 0 ==> order[n - 1] in items && items[order[n - 1]].hash < hash)
            && (n < |order| ==> order[n] in items && hash < items[order[n]].hash)
  {
    Placed(items, head, order, maxLevel, hash);
    var n := Below(items, order, hash);
    assert n < |order| ==> Entries(items, order)[n].hash != hash;
  }

  lemma SpliceStart(items: map<ItemPtr, Item>, items': map<ItemPtr, Item>, order: seq<ItemPtr>, n: nat, p: ItemPtr,
      x: Item)
    requires n <= |order| && p !in items && p != 0 && items' == items[p := x] && |x.next| == x.level + 1
    requires forall l :: 0 <= l <= x.level ==> x.next[l] == 0
    ensures Splicing(items, items', order, n, p, x, 0)
  {
  }

  lemma SplicedNew(items: map<ItemPtr, Item>, items': map<ItemPtr, Item>, order: seq<ItemPtr>, n: nat, p: ItemPtr,
      x: Item, upto: nat)
    requires n <= |order| && Splicing(items, items', order, n, p, x, upto)
    ensures p in items' && items'[p].level == x.level && |items'[p].next| == x.level + 1 && p !in items
  {
  }

  /** The new item stands where its hash belongs, and the trace before it is what it was. */
  lemma SplicedPlace(items: map<ItemPtr, Item>, items': map<ItemPtr, Item>, head: ItemPtr, order: seq<ItemPtr>,
      maxLevel: nat, n: nat, p: ItemPtr, x: Item)
    requires SkipOk(items, head, order, maxLevel) && n <= |order| && n == Below(items, order, x.hash)
    requires SkipOk(items', head, order[..n] + [p] + order[n..], maxLevel)
    requires Splicing(items, items', order, n, p, x, x.level + 1)
    ensures var order' := order[..n] + [p] + order[n..];
            && Below(items', order', x.hash) == n && order'[n] in items' && items'[order'[n]].hash == x.hash
            && forall l: nat :: Last(items', order'[..n], l) == Last(items, order[..n], l)
  {
    hide Splicing, ItemOk, First, Last, Below;
    var order' := order[..n] + [p] + order[n..];
    SplicedFields(items, items', order, n, p, x);
    Placed(items, head, order, maxLevel, x.hash);
    AroundPlace(items, items', order, n, p, x);
    BelowIs(items', order', x.hash, n);
    assert order'[..n] == order[..n];
    forall l: nat
      ensures Last(items', order'[..n], l) == Last(items, order[..n], l)
    {
      LastFrame(items, items', order[..n], l);
    }
  }

  lemma AroundPlace(items: map<ItemPtr, Item>, items': map<ItemPtr, Item>, order: seq<ItemPtr>, n: nat, p: ItemPtr,
      x: Item)
    requires n <= |order| && (forall q :: q in order ==> q in items) && p in items' && items'[p].hash == x.hash
    requires forall q :: q in items ==> q in items' && items'[q].hash == items[q].hash
    requires forall i :: 0 <= i < n ==> items[order[i]].hash < x.hash
    requires forall i :: n <= i < |order| ==> items[order[i]].hash >= x.hash
    ensures var order' := order[..n] + [p] + order[n..];
            && (forall q :: q in order' ==> q in items')
            && (forall i :: 0 <= i < n ==> items'[order'[i]].hash < x.hash)
            && (forall i :: n <= i < |order'| ==> items'[order'[i]].hash >= x.hash)
  {
  }

  lemma InOrder(items: map<ItemPtr, Item>, head: ItemPtr, order: seq<ItemPtr>, maxLevel: nat, i: nat, j: nat)
    requires SkipOk(items, head, order, maxLevel) && i < |order| && j < |order|
    ensures order[i] in items && order[j] in items && (i < j ==> items[order[i]].hash < items[order[j]].hash)
  {
  }

  lemma ErasePlace(items: map<ItemPtr, Item>, head: ItemPtr, order: seq<ItemPtr>, maxLevel: nat, hash: nat,
      current: ItemPtr)
    requires SkipOk(items, head, order, maxLevel) && current in items && items[current].hash == hash
    ensures var n := Below(items, order, hash);
            && n < |order| && order[n] == current && current != 0 && (n == 0 <==> current == head)
  {
    Placed(items, head, order, maxLevel, hash);
    NoNull(items, head, order, maxLevel);
    var i :| 0 <= i < |order| && order[i] == current;
    var n := Below(items, order, hash);
    assert i >= n;
    InOrder(items, head, order, maxLevel, n, i);
    assert i <= n;
    if n != 0 {
      Different(items, head, order, maxLevel, 0, n);
    }
  }

  lemma ErasedLevel(items: map<ItemPtr, Item>, head: ItemPtr, order: seq<ItemPtr>, maxLevel: nat, n: nat)
    requires SkipOk(items, head, order, maxLevel) && n < |order|
    ensures order[n] in items && items[order[n]].level < maxLevel && Unsplicing(items, items, order, n, 0)
  {
    assert ItemOk(items, order, n, maxLevel);
  }

  lemma TakeOverStart(items: map<ItemPtr, Item>, head: ItemPtr, order: seq<ItemPtr>, maxLevel: nat)
    requires SkipOk(items, head, order, maxLevel) && |order| >= 2
    ensures head in items && order[1] in items && TakenOver(items, items, head, order[1], 0)
  {
    NotHead(items, head, order, maxLevel, 1);
    assert ItemOk(items, order, 0, maxLevel);
  }

  lemma SuccessorLinks(items: map<ItemPtr, Item>, head: ItemPtr, order: seq<ItemPtr>, maxLevel: nat, l: nat)
    requires SkipOk(items, head, order, maxLevel) && |order| >= 2 && head in items && order[1] in items
          && l <= items[order[1]].level
    ensures l < |items[head].next| && items[head].next[l] == order[1] && l < |items[order[1]].next|
  {
    assert ItemOk(items, order, 0, maxLevel) && ItemOk(items, order, 1, maxLevel);
    assert Reaches(items, order[1..][0], l);
  }

  lemma TakenHead(items: map<ItemPtr, Item>, items': map<ItemPtr, Item>, head: ItemPtr, s: ItemPtr)
    requires head in items && s in items && TakenOver(items, items', head, s, items[s].level + 1)
    ensures head in items' && s in items' && items'[s] == items[s]
  {
  }

  lemma TakenAnyway(items: map<ItemPtr, Item>, mid: map<ItemPtr, Item>, head: ItemPtr, s: ItemPtr, x: Item)
    requires head in items && s in items && TakenOver(items, mid, head, s, items[s].level + 1)
    requires head in mid && x == mid[head].(hash := x.hash, value := x.value)
    ensures TakenOver(items, mid[head := x], head, s, items[s].level + 1)
  {
  }

  lemma EmptyKeeps(items: map<ItemPtr, Item>, head: ItemPtr, order: seq<ItemPtr>, maxLevel: nat)
    requires SkipOk(items, head, order, maxLevel) && |order| == 1
    ensures SkipOk(items - {head}, 0, [], maxLevel)
  {
    assert forall p :: p in items ==> p == head;
  }
}
