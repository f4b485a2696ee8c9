/** The updates of a skip list: linking an item in, unlinking it, and the two uses of the head. */
module SkipSteps {
  import opened SkipOrder

  // ----- the levels as lists -----

  /** The items of a stretch that are on level l. */
  ghost function Level(items: map<ItemPtr, Item>, s: seq<ItemPtr>, l: nat): seq<ItemPtr> {
    if s == [] then [] else (if Reaches(items, s[0], l) then [s[0]] else []) + Level(items, s[1..], l)
  }

  /** The items met when following next[l] from p. */
  ghost function Walk(items: map<ItemPtr, Item>, p: ItemPtr, l: nat, fuel: nat): seq<ItemPtr>
    decreases fuel
  {
    if fuel == 0 || p == 0 || p !in items || l >= |items[p].next| then []
        else [p] + Walk(items, items[p].next[l], l, fuel - 1)
  }

  /** Following the links of a level from any place meets exactly the items of that level, in order. */
  lemma {:induction false} WalkIsLevel(items: map<ItemPtr, Item>, head: ItemPtr, order: seq<ItemPtr>, maxLevel: nat,
      i: nat, l: nat, fuel: nat)
    requires SkipOk(items, head, order, maxLevel) && i <= |order| && l < maxLevel && fuel >= |order| - i
    ensures Walk(items, First(items, order[i..], l), l, fuel) == Level(items, order[i..], l)
    decreases |order| - i
  {
    if i < |order| {
      assert ItemOk(items, order, i, maxLevel);
      assert order[i..][1..] == order[i + 1..];
      WalkIsLevel(items, head, order, maxLevel, i + 1, l, if Reaches(items, order[i], l) then fuel - 1 else fuel);
    }
  }

  /** From the head, every level is walked completely. */
  lemma LevelsFromHead(items: map<ItemPtr, Item>, head: ItemPtr, order: seq<ItemPtr>, maxLevel: nat, l: nat)
    requires SkipOk(items, head, order, maxLevel) && l < maxLevel
    ensures Walk(items, head, l, |order|) == Level(items, order, l)
  {
    assert order[0..] == order;
    if order != [] {
      assert ItemOk(items, order, 0, maxLevel);
    }
    WalkIsLevel(items, head, order, maxLevel, 0, l, |order|);
  }

  /** Each level is a sublist of the level below: what is left of it when the lower items are skipped. */
  lemma {:induction false} LevelsNest(items: map<ItemPtr, Item>, s: seq<ItemPtr>, l: nat)
    ensures Level(items, Level(items, s, l), l + 1) == Level(items, s, l + 1)
  {
    if s != [] {
      LevelsNest(items, s[1..], l);
      var rest := Level(items, s[1..], l);
      if Reaches(items, s[0], l) {
        assert Level(items, s, l) == [s[0]] + rest;
        assert ([s[0]] + rest)[1..] == rest;
      } else {
        assert Level(items, s, l) == rest;
      }
    }
  }

  ghost predicate SameItem(x: Item, y: Item) {
    y.level == x.level && y.hash == x.hash && y.value == x.value && |y.next| == |x.next|
  }

  // ----- inserting behind a smaller item -----

  /** Of item q: on the levels below `upto` where it comes last before p, it leads to p. */
  ghost predicate Relinked(items: map<ItemPtr, Item>, items': map<ItemPtr, Item>, before: seq<ItemPtr>, p: ItemPtr,
      upto: nat, q: ItemPtr)
  {
    && q in items && q in items' && SameItem(items[q], items'[q])
    && forall l :: 0 <= l < |items[q].next| ==>
         items'[q].next[l] == if l < upto && Last(items, before, l) == q then p else items[q].next[l]
  }

  /** Levels below `upto` already run through the new item p, which goes to place n. */
  ghost predicate Splicing(items: map<ItemPtr, Item>, items': map<ItemPtr, Item>, order: seq<ItemPtr>, n: nat,
      p: ItemPtr, x: Item, upto: nat)
    requires n <= |order|
  {
    && p !in items && p != 0 && (forall q :: q in items' <==> q in items || q == p)
    && (forall q :: q in items ==> Relinked(items, items', order[..n], p, upto, q))
    && SameItem(x, items'[p]) && |x.next| == x.level + 1
    && (forall l :: 0 <= l <= x.level ==> items'[p].next[l] == if l < upto then First(items, order[n..], l) else 0)
  }

  /** The item before place n on level l links to the first item behind place n. */
  lemma TraceNext(items: map<ItemPtr, Item>, head: ItemPtr, order: seq<ItemPtr>, maxLevel: nat, n: nat, l: nat)
    requires SkipOk(items, head, order, maxLevel) && 1 <= n <= |order| && l < maxLevel
    ensures var t := Last(items, order[..n], l);
            && t != 0 && t in items && l <= items[t].level && |items[t].next| == items[t].level + 1
            && items[t].next[l] == First(items, order[n..], l)
  {
    hide First, Last;
    assert ItemOk(items, order, 0, maxLevel);
    NoNull(items, head, order, maxLevel);
    var k := LastFound(items, order[..n], l);
    assert ItemOk(items, order, k, maxLevel);
    BetweenAndBehind(order, k, n);
    FirstSplit(items, order[..n][k + 1..], order[n..], l);
  }

  lemma BetweenAndBehind(s: seq<ItemPtr>, k: nat, n: nat)
    requires k < n <= |s|
    ensures s[..n][k + 1..] + s[n..] == s[k + 1..]
  {
  }

  lemma Different(items: map<ItemPtr, Item>, head: ItemPtr, order: seq<ItemPtr>, maxLevel: nat, i: nat, j: nat)
    requires SkipOk(items, head, order, maxLevel) && i < |order| && j < |order| && i != j
    ensures order[i] in items && order[j] in items && order[i] != order[j]
  {
    assert items[order[i]].hash != items[order[j]].hash;
  }

  lemma NoNull(items: map<ItemPtr, Item>, head: ItemPtr, order: seq<ItemPtr>, maxLevel: nat)
    requires SkipOk(items, head, order, maxLevel)
    ensures 0 !in order && 0 !in items
  {
    forall i | 0 <= i < |order|
      ensures order[i] != 0
    {
      assert ItemOk(items, order, i, maxLevel);
    }
  }

  lemma SpliceStep(items: map<ItemPtr, Item>, items': map<ItemPtr, Item>, head: ItemPtr, order: seq<ItemPtr>,
      maxLevel: nat, n: nat, p: ItemPtr, x: Item, l: nat)
    requires SkipOk(items, head, order, maxLevel) && 1 <= n <= |order| && l <= x.level < maxLevel
    requires Splicing(items, items', order, n, p, x, l)
    ensures var t := Last(items, order[..n], l);
            && t in items' && t != p && l < |items'[t].next| && l < |items'[p].next|
            && var a := items'[t := items'[t].(next := items'[t].next[l := p])];
               Splicing(items, a[p := a[p].(next := a[p].next[l := items'[t].next[l]])], order, n, p, x, l + 1)
  {
    hide SkipOk, ItemOk, First, Last;
    TraceNext(items, head, order, maxLevel, n, l);
    var t := Last(items, order[..n], l);
    assert t in items' && t != p && l < |items'[t].next| && l < |items'[p].next|;
    SpliceLevel(items, items', order, n, p, x, l);
  }

  lemma SpliceLevel(items: map<ItemPtr, Item>, items': map<ItemPtr, Item>, order: seq<ItemPtr>, n: nat, p: ItemPtr,
      x: Item, l: nat)
    requires n <= |order| && l <= x.level && Splicing(items, items', order, n, p, x, l)
    requires var t := Last(items, order[..n], l);
             t in items && t in items' && p in items' && t != p && l < |items'[t].next| && l < |items'[p].next|
             && items[t].next[l] == First(items, order[n..], l)
    ensures var t := Last(items, order[..n], l);
            var a := items'[t := items'[t].(next := items'[t].next[l := p])];
            Splicing(items, a[p := a[p].(next := a[p].next[l := items'[t].next[l]])], order, n, p, x, l + 1)
  {
    hide First, Last;
    var t := Last(items, order[..n], l);
    var a := items'[t := items'[t].(next := items'[t].next[l := p])];
    var b := a[p := a[p].(next := a[p].next[l := items'[t].next[l]])];
    assert Relinked(items, items', order[..n], p, l, t);
    forall q | q in items
      ensures Relinked(items, b, order[..n], p, l + 1, q)
    {
      assert Relinked(items, items', order[..n], p, l, q);
    }
  }

  /** The list with p at place n is a skip list. */
  lemma SpliceKeeps(items: map<ItemPtr, Item>, items': map<ItemPtr, Item>, head: ItemPtr, order: seq<ItemPtr>,
      maxLevel: nat, n: nat, p: ItemPtr, x: Item)
    requires SkipOk(items, head, order, maxLevel) && 1 <= n <= |order| && x.level < maxLevel
    requires Splicing(items, items', order, n, p, x, x.level + 1)
    requires items[order[n - 1]].hash < x.hash && (n < |order| ==> x.hash < items[order[n]].hash)
    ensures SkipOk(items', head, order[..n] + [p] + order[n..], maxLevel)
  {
    hide ItemOk, First, Last, Splicing, Increasing;
    SpliceItems(items, items', head, order, maxLevel, n, p, x);
    SpliceMembers(items, items', head, order, maxLevel, n, p, x);
    SpliceSorted(items, items', head, order, maxLevel, n, p, x);
  }

  lemma SpliceItems(items: map<ItemPtr, Item>, items': map<ItemPtr, Item>, head: ItemPtr, order: seq<ItemPtr>,
      maxLevel: nat, n: nat, p: ItemPtr, x: Item)
    requires SkipOk(items, head, order, maxLevel) && 1 <= n <= |order| && x.level < maxLevel
    requires Splicing(items, items', order, n, p, x, x.level + 1)
    ensures var order' := order[..n] + [p] + order[n..];
          forall i :: 0 <= i < |order'| ==> ItemOk(items', order', i, maxLevel)
  {
    hide SkipOk, ItemOk, Splicing;
    var order' := order[..n] + [p] + order[n..];
    forall i | 0 <= i < |order'|
      ensures ItemOk(items', order', i, maxLevel)
    {
      if i == n {
        SplicedItem(items, items', head, order, maxLevel, n, p, x);
      } else {
        OldItem(items, items', head, order, maxLevel, n, p, x, if i < n then i else i - 1);
      }
    }
  }

  lemma SpliceMembers(items: map<ItemPtr, Item>, items': map<ItemPtr, Item>, head: ItemPtr, order: seq<ItemPtr>,
      maxLevel: nat, n: nat, p: ItemPtr, x: Item)
    requires SkipOk(items, head, order, maxLevel) && 1 <= n <= |order|
          && Splicing(items, items', order, n, p, x, x.level + 1)
    ensures forall q :: q in items' <==> q in order[..n] + [p] + order[n..]
    ensures head in items' && items'[head].level == items[head].level && (order[..n] + [p] + order[n..])[0] == order[0]
  {
    hide ItemOk, First, Last, Relinked, Increasing;
    SplicedFields(items, items', order, n, p, x);
    HashOrder(items, head, order, maxLevel, 0, 0);
    forall q
      ensures q in order[..n] + [p] + order[n..] <==> q in order || q == p
    {
      InsertedIn(order, n, p, q);
    }
  }

  lemma InsertedIn(s: seq<ItemPtr>, n: nat, p: ItemPtr, q: ItemPtr)
    requires n <= |s|
    ensures q in s[..n] + [p] + s[n..] <==> q in s || q == p
  {
    assert s == s[..n] + s[n..];
  }

  lemma SplicedFields(items: map<ItemPtr, Item>, items': map<ItemPtr, Item>, order: seq<ItemPtr>, n: nat, p: ItemPtr,
      x: Item)
    requires n <= |order| && Splicing(items, items', order, n, p, x, x.level + 1)
    ensures p in items' && items'[p].hash == x.hash
    ensures forall q :: q in items ==>
          q in items' && items'[q].hash == items[q].hash && items'[q].level == items[q].level
  {
    assert forall q :: q in items ==> Relinked(items, items', order[..n], p, x.level + 1, q);
  }

  lemma SpliceSorted(items: map<ItemPtr, Item>, items': map<ItemPtr, Item>, head: ItemPtr, order: seq<ItemPtr>,
      maxLevel: nat, n: nat, p: ItemPtr, x: Item)
    requires SkipOk(items, head, order, maxLevel) && 1 <= n <= |order| && x.level < maxLevel
    requires Splicing(items, items', order, n, p, x, x.level + 1)
    requires items[order[n - 1]].hash < x.hash && (n < |order| ==> x.hash < items[order[n]].hash)
    ensures Increasing(items', order[..n] + [p] + order[n..])
  {
    hide ItemOk, First, Last, Splicing, Relinked;
    SplicedFields(items, items', order, n, p, x);
    var order' := order[..n] + [p] + order[n..];
    forall i, j | 0 <= i < j < |order'|
      ensures items'[order'[i]].hash < items'[order'[j]].hash
    {
      var a: nat, b: nat := if i < n then i else i - 1, if j < n then j else j - 1;
      if i == n {
        HashOrder(items, head, order, maxLevel, n, b);
      } else if j == n {
        HashOrder(items, head, order, maxLevel, a, n - 1);
      } else {
        HashOrder(items, head, order, maxLevel, a, b);
      }
    }
  }

  lemma HashOrder(items: map<ItemPtr, Item>, head: ItemPtr, order: seq<ItemPtr>, maxLevel: nat, i: nat, j: nat)
    requires SkipOk(items, head, order, maxLevel) && i <= j < |order|
    ensures order[i] in items && order[j] in items && items[order[i]].hash <= items[order[j]].hash
    ensures i < j ==> items[order[i]].hash < items[order[j]].hash
  {
  }

  lemma SplicedItem(items: map<ItemPtr, Item>, items': map<ItemPtr, Item>, head: ItemPtr, order: seq<ItemPtr>,
      maxLevel: nat, n: nat, p: ItemPtr, x: Item)
    requires SkipOk(items, head, order, maxLevel) && 1 <= n <= |order| && x.level < maxLevel
    requires Splicing(items, items', order, n, p, x, x.level + 1)
    ensures ItemOk(items', order[..n] + [p] + order[n..], n, maxLevel)
  {
    var order' := order[..n] + [p] + order[n..];
    assert order'[n + 1..] == order[n..];
    SplicedFields(items, items', order, n, p, x);
    forall l | 0 <= l <= x.level
      ensures items'[p].next[l] == First(items', order'[n + 1..], l)
    {
      FirstFrame(items, items', order[n..], l);
    }
  }

  lemma OldItem(items: map<ItemPtr, Item>, items': map<ItemPtr, Item>, head: ItemPtr, order: seq<ItemPtr>,
      maxLevel: nat, n: nat, p: ItemPtr, x: Item, i: nat)
    requires SkipOk(items, head, order, maxLevel) && 1 <= n <= |order| && x.level < maxLevel && i < |order|
    requires Splicing(items, items', order, n, p, x, x.level + 1)
    ensures ItemOk(items', order[..n] + [p] + order[n..], if i < n then i else i + 1, maxLevel)
  {
    var order', i' := order[..n] + [p] + order[n..], if i < n then i else i + 1;
    var q := order[i];
    assert ItemOk(items, order, i, maxLevel);
    assert order'[i'] == q;
    assert Relinked(items, items', order[..n], p, x.level + 1, q);
    forall l | 0 <= l <= items[q].level
      ensures items'[q].next[l] == First(items', order'[i' + 1..], l)
    {
      hide ItemOk, First, Last, Splicing, Relinked;
      if i >= n {
        assert order'[i' + 1..] == order[i + 1..];
        LaterNext(items, items', head, order, maxLevel, n, p, x, i, l);
      } else {
        OldNext(items, items', head, order, maxLevel, n, p, x, i, l);
      }
    }
  }

  lemma LaterNext(items: map<ItemPtr, Item>, items': map<ItemPtr, Item>, head: ItemPtr, order: seq<ItemPtr>,
      maxLevel: nat, n: nat, p: ItemPtr, x: Item, i: nat, l: nat)
    requires SkipOk(items, head, order, maxLevel) && 1 <= n <= i < |order| && x.level < maxLevel
    requires Splicing(items, items', order, n, p, x, x.level + 1)
    requires order[i] in items && l <= items[order[i]].level
    ensures l < |items'[order[i]].next| && items'[order[i]].next[l] == First(items', order[i + 1..], l)
  {
    hide Last;
    assert ItemOk(items, order, i, maxLevel);
    assert Relinked(items, items', order[..n], p, x.level + 1, order[i]);
    SplicedFields(items, items', order, n, p, x);
    FirstFrame(items, items', order[i + 1..], l);
    NotBefore(items, head, order, maxLevel, n, l, i);
  }

  lemma NotBefore(items: map<ItemPtr, Item>, head: ItemPtr, order: seq<ItemPtr>, maxLevel: nat, n: nat, l: nat, i: nat)
    requires SkipOk(items, head, order, maxLevel) && 1 <= n <= i < |order| && l < maxLevel
    ensures Last(items, order[..n], l) != order[i]
  {
    assert ItemOk(items, order, 0, maxLevel);
    NoNull(items, head, order, maxLevel);
    var k := LastFound(items, order[..n], l);
    if order[k] == order[i] {
      Distinct(items, order, k, i);
    }
  }

  lemma OldNext(items: map<ItemPtr, Item>, items': map<ItemPtr, Item>, head: ItemPtr, order: seq<ItemPtr>,
      maxLevel: nat, n: nat, p: ItemPtr, x: Item, i: nat, l: nat)
    requires SkipOk(items, head, order, maxLevel) && i < n <= |order| && x.level < maxLevel
    requires Splicing(items, items', order, n, p, x, x.level + 1)
    requires order[i] in items && l <= items[order[i]].level
    ensures l < |items'[order[i]].next|
    ensures items'[order[i]].next[l] == First(items', (order[..n] + [p] + order[n..])[i + 1..], l)
  {
    hide First, Last;
    NoNull(items, head, order, maxLevel);
    FirstAround(items, items', order, n, p, x, i, l);
    RelinkedNext(items, items', head, order, maxLevel, n, p, x, i, l);
    assert order[i + 1..] == order[i + 1..n] + order[n..];
    FirstSplit(items, order[i + 1..n], order[n..], l);
  }

  /** What the item links to now: the new item if it was the last one on the level, else what it did. */
  lemma RelinkedNext(items: map<ItemPtr, Item>, items': map<ItemPtr, Item>, head: ItemPtr, order: seq<ItemPtr>,
      maxLevel: nat, n: nat, p: ItemPtr, x: Item, i: nat, l: nat)
    requires SkipOk(items, head, order, maxLevel) && i < n <= |order| && x.level < maxLevel
    requires Splicing(items, items', order, n, p, x, x.level + 1)
    requires order[i] in items && l <= items[order[i]].level
    ensures l < |items'[order[i]].next|
    ensures items'[order[i]].next[l] == if l <= x.level && First(items, order[i + 1..n], l) == 0 then p
          else First(items, order[i + 1..], l)
  {
    assert ItemOk(items, order, i, maxLevel) && ItemOk(items, order, 0, maxLevel);
    assert Relinked(items, items', order[..n], p, x.level + 1, order[i]);
    NoNull(items, head, order, maxLevel);
    LastExactly(items, order, n, l, i);
  }

  /** Past item i, the new item is met on its levels if nothing before place n is. */
  lemma FirstAround(items: map<ItemPtr, Item>, items': map<ItemPtr, Item>, order: seq<ItemPtr>, n: nat, p: ItemPtr,
      x: Item, i: nat, l: nat)
    requires i < n <= |order| && 0 !in order && (forall q :: q in order ==> q in items)
    requires Splicing(items, items', order, n, p, x, x.level + 1)
    ensures First(items', (order[..n] + [p] + order[n..])[i + 1..], l)
         == if First(items, order[i + 1..n], l) != 0 then First(items, order[i + 1..n], l)
            else if l <= x.level then p else First(items, order[n..], l)
  {
    hide Last;
    var mid, tail := order[i + 1..n], order[n..];
    assert (order[..n] + [p] + order[n..])[i + 1..] == mid + ([p] + tail);
    FirstSplit(items', mid, [p] + tail, l);
    FirstFrame(items, items', mid, l);
    FirstFrame(items, items', tail, l);
    assert ([p] + tail)[1..] == tail;
    assert Reaches(items', p, l) <==> l <= x.level;
  }

  lemma SpliceEntries(items: map<ItemPtr, Item>, items': map<ItemPtr, Item>, head: ItemPtr, order: seq<ItemPtr>,
      maxLevel: nat, n: nat, p: ItemPtr, x: Item)
    requires SkipOk(items, head, order, maxLevel) && n <= |order|
    requires Splicing(items, items', order, n, p, x, x.level + 1)
    ensures var e := Entries(items, order);
            Entries(items', order[..n] + [p] + order[n..]) == e[..n] + [Entry(x.hash, x.value)] + e[n..]
  {
  }

  // ----- erasing an item that is not the head -----

  /** Levels below `upto` already run past the item at place n. */
  ghost predicate Unsplicing(items: map<ItemPtr, Item>, items': map<ItemPtr, Item>, order: seq<ItemPtr>, n: nat,
      upto: nat)
    requires n < |order|
  {
    && order[n] in items && (forall q :: q in items' <==> q in items)
    && (forall q :: q in items ==>
          && SameItem(items[q], items'[q])
          && forall l :: 0 <= l < |items[q].next| ==>
               items'[q].next[l] == if l < upto && l < |items[order[n]].next| && Last(items, order[..n], l) == q
                                    then items[order[n]].next[l] else items[q].next[l])
  }

  lemma UnspliceStep(items: map<ItemPtr, Item>, items': map<ItemPtr, Item>, head: ItemPtr, order: seq<ItemPtr>,
      maxLevel: nat, n: nat, l: nat)
    requires SkipOk(items, head, order, maxLevel) && 1 <= n < |order| && order[n] in items && l <= items[order[n]].level
    requires Unsplicing(items, items', order, n, l)
    ensures items[order[n]].level < maxLevel
    ensures var t, c := Last(items, order[..n], l), order[n];
            && t in items' && l <= items'[t].level && l < |items'[t].next| && items'[t].next[l] == c
            && l < |items'[c].next| && items'[c].level == items[c].level
            && Unsplicing(items, items'[t := items'[t].(next := items'[t].next[l := items'[c].next[l]])], order, n,
                  l + 1)
  {
    hide SkipOk, ItemOk, Last, First;
    TraceLink(items, head, order, maxLevel, n, l);
    UnspliceLevel(items, items', order, n, l);
  }

  lemma UnspliceLevel(items: map<ItemPtr, Item>, items': map<ItemPtr, Item>, order: seq<ItemPtr>, n: nat, l: nat)
    requires n < |order| && Unsplicing(items, items', order, n, l)
    requires order[n] in items && l < |items[order[n]].next|
    requires var t := Last(items, order[..n], l); t in items && t != order[n] && l < |items[t].next|
    ensures var t, c := Last(items, order[..n], l), order[n];
            && t in items' && c in items' && l < |items'[t].next| && l < |items'[c].next|
            && items'[t].next[l] == items[t].next[l]
            && Unsplicing(items, items'[t := items'[t].(next := items'[t].next[l := items'[c].next[l]])], order, n,
                  l + 1)
  {
    hide Last, First;
    var t, c := Last(items, order[..n], l), order[n];
    var b := items'[t := items'[t].(next := items'[t].next[l := items'[c].next[l]])];
    assert SameItem(items[c], items'[c]) && items'[c].next[l] == items[c].next[l];
    forall q | q in items
      ensures SameItem(items[q], b[q])
      ensures forall k :: 0 <= k < |items[q].next| ==>
                b[q].next[k] == if k < l + 1 && k < |items[c].next| && Last(items, order[..n], k) == q
                                then items[c].next[k] else items[q].next[k]
    {
      assert SameItem(items[q], items'[q]);
      assert q != t ==> b[q] == items'[q];
    }
  }

  lemma TraceLink(items: map<ItemPtr, Item>, head: ItemPtr, order: seq<ItemPtr>, maxLevel: nat, n: nat, l: nat)
    requires SkipOk(items, head, order, maxLevel) && 1 <= n < |order| && order[n] in items && l <= items[order[n]].level
    ensures items[order[n]].level < maxLevel && |items[order[n]].next| == items[order[n]].level + 1
    ensures var t := Last(items, order[..n], l);
            && t != order[n] && t in items && l <= items[t].level && |items[t].next| == items[t].level + 1
            && items[t].next[l] == order[n]
  {
    assert ItemOk(items, order, n, maxLevel);
    TraceNext(items, head, order, maxLevel, n, l);
    assert First(items, order[n..], l) == order[n];
    NotBefore(items, head, order, maxLevel, n, l, n);
  }

  lemma UnspliceKeeps(items: map<ItemPtr, Item>, items': map<ItemPtr, Item>, head: ItemPtr, order: seq<ItemPtr>,
      maxLevel: nat, n: nat)
    requires SkipOk(items, head, order, maxLevel) && 1 <= n < |order| && order[n] in items
    requires Unsplicing(items, items', order, n, items[order[n]].level + 1)
    ensures SkipOk(items' - {order[n]}, head, order[..n] + order[n + 1..], maxLevel)
  {
    hide ItemOk, Unsplicing;
    var order', items'' := order[..n] + order[n + 1..], items' - {order[n]};
    forall i | 0 <= i < |order'|
      ensures ItemOk(items'', order', i, maxLevel)
    {
      KeptItem(items, items', head, order, maxLevel, n, if i < n then i else i + 1);
    }
    UnspliceMembers(items, items', head, order, maxLevel, n);
    UnspliceSorted(items, items', head, order, maxLevel, n);
    UnspliceHead(items, items', head, order, maxLevel, n);
    assert order' != [] && order'[0] == head;
  }

  lemma UnspliceHead(items: map<ItemPtr, Item>, items': map<ItemPtr, Item>, head: ItemPtr, order: seq<ItemPtr>,
      maxLevel: nat, n: nat)
    requires SkipOk(items, head, order, maxLevel) && 1 <= n < |order| && order[n] in items
    requires Unsplicing(items, items', order, n, items[order[n]].level + 1)
    ensures head in items' - {order[n]} && (items' - {order[n]})[head].level == items[head].level && order[0] == head
  {
    assert ItemOk(items, order, 0, maxLevel);
    assert SameItem(items[head], items'[head]);
    Different(items, head, order, maxLevel, 0, n);
  }

  lemma UnspliceMembers(items: map<ItemPtr, Item>, items': map<ItemPtr, Item>, head: ItemPtr, order: seq<ItemPtr>,
      maxLevel: nat, n: nat)
    requires SkipOk(items, head, order, maxLevel) && 1 <= n < |order| && order[n] in items
    requires Unsplicing(items, items', order, n, items[order[n]].level + 1)
    ensures forall p :: p in items' - {order[n]} <==> p in order[..n] + order[n + 1..]
  {
    hide ItemOk, Last, SameItem;
    forall i | 0 <= i < |order| && i != n
      ensures order[i] != order[n]
    {
      Different(items, head, order, maxLevel, i, n);
    }
    OthersIn(order, n);
  }

  lemma OthersIn(s: seq<ItemPtr>, n: nat)
    requires n < |s| && forall i :: 0 <= i < |s| && i != n ==> s[i] != s[n]
    ensures forall p :: p in s[..n] + s[n + 1..] <==> p in s && p != s[n]
  {
    assert s == s[..n] + [s[n]] + s[n + 1..];
  }

  lemma UnspliceSorted(items: map<ItemPtr, Item>, items': map<ItemPtr, Item>, head: ItemPtr, order: seq<ItemPtr>,
      maxLevel: nat, n: nat)
    requires SkipOk(items, head, order, maxLevel) && n < |order| && order[n] in items
    requires Unsplicing(items, items', order, n, items[order[n]].level + 1)
    ensures Increasing(items' - {order[n]}, order[..n] + order[n + 1..])
  {
    hide ItemOk, Last;
    var order', items'' := order[..n] + order[n + 1..], items' - {order[n]};
    assert Increasing(items, order);
    forall i, j | 0 <= i < j < |order'| && order'[i] in items'' && order'[j] in items''
      ensures items''[order'[i]].hash < items''[order'[j]].hash
    {
      OrderWithout(order, n, i);
      OrderWithout(order, n, j);
      assert SameItem(items[order'[i]], items'[order'[i]]) && SameItem(items[order'[j]], items'[order'[j]]);
    }
  }

  lemma OrderWithout(order: seq<ItemPtr>, n: nat, i: nat)
    requires n < |order| && i < |order| - 1
    ensures (order[..n] + order[n + 1..])[i] == order[if i < n then i else i + 1]
  {
  }

  lemma KeptItem(items: map<ItemPtr, Item>, items': map<ItemPtr, Item>, head: ItemPtr, order: seq<ItemPtr>,
      maxLevel: nat, n: nat, i: nat)
    requires SkipOk(items, head, order, maxLevel) && 1 <= n < |order| && i < |order| && i != n && order[n] in items
    requires Unsplicing(items, items', order, n, items[order[n]].level + 1)
    ensures ItemOk(items' - {order[n]}, order[..n] + order[n + 1..], if i < n then i else i - 1, maxLevel)
  {
    hide First, Last;
    var order', i' := order[..n] + order[n + 1..], if i < n then i else i - 1;
    var q, items'' := order[i], items' - {order[n]};
    assert ItemOk(items, order, i, maxLevel);
    assert order'[i'] == q;
    Different(items, head, order, maxLevel, i, n);
    NoNull(items, head, order, maxLevel);
    forall l | 0 <= l <= items[q].level
      ensures items''[q].next[l] == First(items'', order'[i' + 1..], l)
    {
      if i > n {
        assert order'[i' + 1..] == order[i + 1..];
        KeptLater(items, items', head, order, maxLevel, n, i, l);
      } else {
        KeptNext(items, items', head, order, maxLevel, n, i, l);
      }
    }
  }

  lemma KeptLater(items: map<ItemPtr, Item>, items': map<ItemPtr, Item>, head: ItemPtr, order: seq<ItemPtr>,
      maxLevel: nat, n: nat, i: nat, l: nat)
    requires SkipOk(items, head, order, maxLevel) && 1 <= n < i < |order| && order[n] in items && order[i] in items
          && l <= items[order[i]].level
    requires Unsplicing(items, items', order, n, items[order[n]].level + 1)
    ensures l < |items'[order[i]].next|
    ensures items'[order[i]].next[l] == First(items' - {order[n]}, order[i + 1..], l)
  {
    hide First, Last, Unsplicing, SkipOk;
    ItemHolds(items, head, order, maxLevel, i);
    UnsplicedNext(items, items', order, n, items[order[n]].level + 1, order[i], l) by {
      NotBefore(items, head, order, maxLevel, n, l, i);
    }
    UnsplicedLevels(items, items', order, n, items[order[n]].level + 1);
    KeptFrame(items, items', head, order, maxLevel, n, i + 1, |order|, l);
    assert order[i + 1..|order|] == order[i + 1..];
  }

  lemma ItemHolds(items: map<ItemPtr, Item>, head: ItemPtr, order: seq<ItemPtr>, maxLevel: nat, i: nat)
    requires SkipOk(items, head, order, maxLevel) && i < |order|
    ensures ItemOk(items, order, i, maxLevel)
  {
  }

  lemma UnsplicedNext(items: map<ItemPtr, Item>, items': map<ItemPtr, Item>, order: seq<ItemPtr>, n: nat, upto: nat,
      q: ItemPtr, l: nat)
    requires n < |order| && Unsplicing(items, items', order, n, upto)
    requires q in items && l < |items[q].next| && Last(items, order[..n], l) != q
    ensures q in items' && l < |items'[q].next| && items'[q].next[l] == items[q].next[l]
  {
    hide Last;
    assert SameItem(items[q], items'[q]);
  }

  lemma UnsplicedLevels(items: map<ItemPtr, Item>, items': map<ItemPtr, Item>, order: seq<ItemPtr>, n: nat, upto: nat)
    requires n < |order| && Unsplicing(items, items', order, n, upto)
    ensures forall q :: q in items ==> q in items' && items'[q].level == items[q].level
  {
    hide Last;
    forall q | q in items
      ensures items'[q].level == items[q].level
    {
      assert SameItem(items[q], items'[q]);
    }
  }

  lemma KeptFrame(items: map<ItemPtr, Item>, items': map<ItemPtr, Item>, head: ItemPtr, order: seq<ItemPtr>,
      maxLevel: nat, n: nat, a: nat, b: nat, l: nat)
    requires SkipOk(items, head, order, maxLevel) && n < |order| && a <= b <= |order| && (n < a || b <= n)
    requires forall q :: q in items ==> q in items' && items'[q].level == items[q].level
    ensures First(items' - {order[n]}, order[a..b], l) == First(items, order[a..b], l)
  {
    forall p | p in order[a..b]
      ensures p in items && p != order[n]
    {
      var j :| a <= j < b && order[j] == p;
      Different(items, head, order, maxLevel, j, n);
    }
    FirstFrame(items, items' - {order[n]}, order[a..b], l);
  }

  lemma KeptNext(items: map<ItemPtr, Item>, items': map<ItemPtr, Item>, head: ItemPtr, order: seq<ItemPtr>,
      maxLevel: nat, n: nat, i: nat, l: nat)
    requires SkipOk(items, head, order, maxLevel) && i < n < |order| && order[n] in items && order[i] in items
          && l <= items[order[i]].level
    requires Unsplicing(items, items', order, n, items[order[n]].level + 1)
    ensures l < |items'[order[i]].next|
    ensures items'[order[i]].next[l] == First(items' - {order[n]}, (order[..n] + order[n + 1..])[i + 1..], l)
  {
    assert ItemOk(items, order, i, maxLevel) && ItemOk(items, order, n, maxLevel) && ItemOk(items, order, 0, maxLevel);
    NoNull(items, head, order, maxLevel);
    LastExactly(items, order, n, l, i);
    FirstThrough(items, order, n, i, l);
    FirstPast(items, items', head, order, maxLevel, n, i, l);
  }

  lemma FirstThrough(items: map<ItemPtr, Item>, order: seq<ItemPtr>, n: nat, i: nat, l: nat)
    requires i < n < |order| && 0 !in order
    ensures First(items, order[i + 1..], l)
         == if First(items, order[i + 1..n], l) != 0 then First(items, order[i + 1..n], l)
            else if Reaches(items, order[n], l) then order[n] else First(items, order[n + 1..], l)
  {
    var c, mid, tail := order[n], order[i + 1..n], order[n + 1..];
    assert order[i + 1..] == mid + ([c] + tail);
    FirstSplit(items, mid, [c] + tail, l);
    assert ([c] + tail)[1..] == tail;
  }

  /** Past item i, without the erased item. */
  lemma FirstPast(items: map<ItemPtr, Item>, items': map<ItemPtr, Item>, head: ItemPtr, order: seq<ItemPtr>,
      maxLevel: nat, n: nat, i: nat, l: nat)
    requires SkipOk(items, head, order, maxLevel) && i < n < |order|
    requires forall q :: q in items ==> q in items' && items'[q].level == items[q].level
    ensures First(items' - {order[n]}, (order[..n] + order[n + 1..])[i + 1..], l)
         == if First(items, order[i + 1..n], l) != 0 then First(items, order[i + 1..n], l)
             else First(items, order[n + 1..], l)
  {
    NoNull(items, head, order, maxLevel);
    hide SkipOk, First;
    var mid, tail := order[i + 1..n], order[n + 1..];
    assert (order[..n] + order[n + 1..])[i + 1..] == mid + tail;
    FirstSplit(items' - {order[n]}, mid, tail, l);
    KeptFrame(items, items', head, order, maxLevel, n, i + 1, n, l);
    KeptFrame(items, items', head, order, maxLevel, n, n + 1, |order|, l);
    assert order[n + 1..|order|] == tail;
  }

  lemma UnspliceEntries(items: map<ItemPtr, Item>, items': map<ItemPtr, Item>, head: ItemPtr, order: seq<ItemPtr>,
      maxLevel: nat, n: nat)
    requires SkipOk(items, head, order, maxLevel) && n < |order|
    requires forall q :: q in items ==> q in items' && SameItem(items[q], items'[q])
    ensures var e := Entries(items, order);
            Entries(items' - {order[n]}, order[..n] + order[n + 1..]) == e[..n] + e[n + 1..]
  {
    var e, e' := Entries(items, order), Entries(items' - {order[n]}, order[..n] + order[n + 1..]);
    forall i | 0 <= i < |e'|
      ensures e'[i] == (e[..n] + e[n + 1..])[i]
    {
      var k := if i < n then i else i + 1;
      Different(items, head, order, maxLevel, k, n);
    }
  }

  // ----- the head -----

  /** Before the head: the head keeps its place and takes the new hash and value; item p takes over
      what the head held. Levels below `upto` of the head already lead to p. */
  ghost predicate Recycled(items: map<ItemPtr, Item>, items': map<ItemPtr, Item>, head: ItemPtr, p: ItemPtr, level: nat,
      x: Entry, upto: nat)
    requires head in items
  {
    && p !in items && p != 0 && (forall q :: q in items' <==> q in items || q == p)
    && (forall q :: q in items && q != head ==> items'[q] == items[q])
    && items'[p].level == level < |items[head].next| && items'[p].hash == items[head].hash
    && items'[p].value == items[head].value
    && items'[p].next == items[head].next[..level + 1]
    && items'[head].level == items[head].level && items'[head].hash == x.hash && items'[head].value == x.value
    && |items'[head].next| == |items[head].next|
    && forall l :: 0 <= l < |items[head].next| ==> items'[head].next[l] == if l < upto then p else items[head].next[l]
  }

  lemma RecycleKeeps(items: map<ItemPtr, Item>, items': map<ItemPtr, Item>, head: ItemPtr, order: seq<ItemPtr>,
      maxLevel: nat, p: ItemPtr, level: nat, x: Entry)
    requires SkipOk(items, head, order, maxLevel) && head in items && level < maxLevel && x.hash < items[head].hash
    requires Recycled(items, items', head, p, level, x, level + 1)
    ensures SkipOk(items', head, [head, p] + order[1..], maxLevel)
  {
    var order' := [head, p] + order[1..];
    forall i | 0 <= i < |order'|
      ensures ItemOk(items', order', i, maxLevel)
    {
      RecycledItem(items, items', head, order, maxLevel, p, level, x, i);
    }
    RecycledSorted(items, items', head, order, maxLevel, p, level, x);
  }

  lemma RecycledSorted(items: map<ItemPtr, Item>, items': map<ItemPtr, Item>, head: ItemPtr, order: seq<ItemPtr>,
      maxLevel: nat, p: ItemPtr, level: nat, x: Entry)
    requires SkipOk(items, head, order, maxLevel) && head in items && level < maxLevel && x.hash < items[head].hash
    requires Recycled(items, items', head, p, level, x, level + 1)
    ensures Increasing(items', [head, p] + order[1..])
  {
    var order' := [head, p] + order[1..];
    forall i, j | 0 <= i < j < |order'| && order'[i] in items' && order'[j] in items'
      ensures items'[order'[i]].hash < items'[order'[j]].hash
    {
      if j >= 2 {
        NotHead(items, head, order, maxLevel, j - 1);
        assert i >= 1 ==> order[i - 1] in order;
        if i >= 2 {
          NotHead(items, head, order, maxLevel, i - 1);
        }
      }
    }
  }

  lemma NotHead(items: map<ItemPtr, Item>, head: ItemPtr, order: seq<ItemPtr>, maxLevel: nat, i: nat)
    requires SkipOk(items, head, order, maxLevel) && 1 <= i < |order|
    ensures order[i] in items && order[i] != head
  {
    Different(items, head, order, maxLevel, 0, i);
  }

  lemma RecycledItem(items: map<ItemPtr, Item>, items': map<ItemPtr, Item>, head: ItemPtr, order: seq<ItemPtr>,
      maxLevel: nat, p: ItemPtr, level: nat, x: Entry, i: nat)
    requires SkipOk(items, head, order, maxLevel) && head in items && level < maxLevel && i <= |order|
    requires Recycled(items, items', head, p, level, x, level + 1)
    ensures ItemOk(items', [head, p] + order[1..], i, maxLevel)
  {
    var order' := [head, p] + order[1..];
    assert ItemOk(items, order, if i < 2 then 0 else i - 1, maxLevel);
    assert ItemOk(items, order, 0, maxLevel);
    if i >= 2 {
      NotHead(items, head, order, maxLevel, i - 1);
    }
    forall l | 0 <= l <= items'[order'[i]].level
      ensures items'[order'[i]].next[l] == First(items', order'[i + 1..], l)
    {
      RecycledFirst(items, items', head, order, p, level, x, i, l);
    }
  }

  lemma RecycledFirst(items: map<ItemPtr, Item>, items': map<ItemPtr, Item>, head: ItemPtr, order: seq<ItemPtr>,
      p: ItemPtr, level: nat, x: Entry, i: nat, l: nat)
    requires head in items && i <= |order| && |order| > 0 && forall q :: q in order ==> q in items
    requires Recycled(items, items', head, p, level, x, level + 1)
    ensures First(items', ([head, p] + order[1..])[i + 1..], l)
         == if i == 0 && l <= level then p else First(items, order[if i < 2 then 1 else i..], l)
  {
    var order', tail := [head, p] + order[1..], order[if i < 2 then 1 else i..];
    FirstFrame(items, items', tail, l);
    if i == 0 {
      assert order'[1..] == [p] + tail;
      assert ([p] + tail)[1..] == tail;
      assert Reaches(items', p, l) <==> l <= level;
    } else {
      assert order'[i + 1..] == tail;
    }
  }

  /** Erasing the head: it takes over what its successor s held, and s goes. */
  ghost predicate TakenOver(items: map<ItemPtr, Item>, items': map<ItemPtr, Item>, head: ItemPtr, s: ItemPtr, upto: nat)
    requires head in items && s in items
  {
    && s != head && (forall q :: q in items' <==> q in items)
    && (forall q :: q in items && q != head ==> items'[q] == items[q])
    && items'[head].level == items[head].level && |items'[head].next| == |items[head].next|
    && forall l :: 0 <= l < |items[head].next| ==>
         items'[head].next[l] == if l < upto && l < |items[s].next| then items[s].next[l] else items[head].next[l]
  }

  lemma TakeOverKeeps(items: map<ItemPtr, Item>, items': map<ItemPtr, Item>, head: ItemPtr, order: seq<ItemPtr>,
      maxLevel: nat)
    requires SkipOk(items, head, order, maxLevel) && |order| >= 2 && head in items && order[1] in items
    requires TakenOver(items, items', head, order[1], items[order[1]].level + 1)
    requires items'[head].hash == items[order[1]].hash
    ensures SkipOk(items' - {order[1]}, head, [head] + order[2..], maxLevel)
  {
    var order', items'' := [head] + order[2..], items' - {order[1]};
    forall i | 0 <= i < |order'|
      ensures ItemOk(items'', order', i, maxLevel)
    {
      TakenItem(items, items', head, order, maxLevel, i);
    }
    forall p | p in items''
      ensures p in order'
    {
      var i :| 0 <= i < |order| && order[i] == p;
      assert p == order'[if i == 0 then 0 else i - 1];
    }
    forall i | 0 <= i < |order'|
      ensures order'[i] in items''
    {
      assert ItemOk(items'', order', i, maxLevel);
    }
    forall i, j | 0 <= i < j < |order'| && order'[i] in items'' && order'[j] in items''
      ensures items''[order'[i]].hash < items''[order'[j]].hash
    {
      NotHead(items, head, order, maxLevel, j + 1);
      NotHead(items, head, order, maxLevel, i + 1);
    }
  }

  lemma TakenItem(items: map<ItemPtr, Item>, items': map<ItemPtr, Item>, head: ItemPtr, order: seq<ItemPtr>,
      maxLevel: nat, i: nat)
    requires SkipOk(items, head, order, maxLevel) && |order| >= 2 && head in items && order[1] in items
          && i < |order| - 1
    requires TakenOver(items, items', head, order[1], items[order[1]].level + 1)
    ensures ItemOk(items' - {order[1]}, [head] + order[2..], i, maxLevel)
  {
    hide First;
    if i == 0 {
      TakenAtHead(items, items', head, order, maxLevel);
    } else {
      TakenBehind(items, items', head, order, maxLevel, i);
    }
  }

  lemma TakenAtHead(items: map<ItemPtr, Item>, items': map<ItemPtr, Item>, head: ItemPtr, order: seq<ItemPtr>,
      maxLevel: nat)
    requires SkipOk(items, head, order, maxLevel) && |order| >= 2 && head in items && order[1] in items
    requires TakenOver(items, items', head, order[1], items[order[1]].level + 1)
    ensures ItemOk(items' - {order[1]}, [head] + order[2..], 0, maxLevel)
  {
    hide First;
    var order' := [head] + order[2..];
    assert ItemOk(items, order, 0, maxLevel) && ItemOk(items, order, 1, maxLevel);
    assert order'[1..] == order[2..];
    forall l | 0 <= l <= items'[head].level
      ensures (items' - {order[1]})[head].next[l] == First(items' - {order[1]}, order'[1..], l)
    {
      KeptFrame(items, items', head, order, maxLevel, 1, 2, |order|, l);
      assert order[2..|order|] == order[2..];
      FirstBehind(items, order, l);
    }
  }

  lemma TakenBehind(items: map<ItemPtr, Item>, items': map<ItemPtr, Item>, head: ItemPtr, order: seq<ItemPtr>,
      maxLevel: nat, i: nat)
    requires SkipOk(items, head, order, maxLevel) && head in items && order != [] && 0 < i < |order| - 1
          && order[1] in items
    requires TakenOver(items, items', head, order[1], items[order[1]].level + 1)
    ensures ItemOk(items' - {order[1]}, [head] + order[2..], i, maxLevel)
  {
    hide First;
    var order' := [head] + order[2..];
    assert ItemOk(items, order, i + 1, maxLevel);
    NotHead(items, head, order, maxLevel, i + 1);
    Different(items, head, order, maxLevel, i + 1, 1);
    assert order'[i] == order[i + 1] && order'[i + 1..] == order[i + 2..];
    forall l | 0 <= l <= items'[order'[i]].level
      ensures (items' - {order[1]})[order'[i]].next[l] == First(items' - {order[1]}, order'[i + 1..], l)
    {
      KeptFrame(items, items', head, order, maxLevel, 1, i + 2, |order|, l);
      assert order[i + 2..|order|] == order[i + 2..];
    }
  }

  /** An item that does not reach a level is passed there. */
  lemma FirstBehind(items: map<ItemPtr, Item>, order: seq<ItemPtr>, l: nat)
    requires |order| >= 2 && order[1] in items
    ensures items[order[1]].level < l ==> First(items, order[1..], l) == First(items, order[2..], l)
  {
    assert order[1..][1..] == order[2..];
  }

  lemma TakeOverEntries(items: map<ItemPtr, Item>, items': map<ItemPtr, Item>, head: ItemPtr, order: seq<ItemPtr>,
      maxLevel: nat)
    requires SkipOk(items, head, order, maxLevel) && |order| >= 2 && head in items && order[1] in items
    requires TakenOver(items, items', head, order[1], items[order[1]].level + 1)
    requires items'[head].hash == items[order[1]].hash && items'[head].value == items[order[1]].value
    ensures Entries(items' - {order[1]}, [head] + order[2..]) == Entries(items, order)[1..]
  {
    var e, e' := Entries(items, order)[1..], Entries(items' - {order[1]}, [head] + order[2..]);
    forall i | 0 <= i < |e'|
      ensures e'[i] == e[i]
    {
      NotHead(items, head, order, maxLevel, i + 1);
      if i > 0 {
        Different(items, head, order, maxLevel, i + 1, 1);
      }
    }
  }

  lemma RecycleEntries(items: map<ItemPtr, Item>, items': map<ItemPtr, Item>, head: ItemPtr, order: seq<ItemPtr>,
      maxLevel: nat, p: ItemPtr, level: nat, x: Entry)
    requires SkipOk(items, head, order, maxLevel) && head in items
    requires Recycled(items, items', head, p, level, x, level + 1)
    ensures Entries(items', [head, p] + order[1..]) == [x] + Entries(items, order)
  {
    var e, e' := [x] + Entries(items, order), Entries(items', [head, p] + order[1..]);
    forall i | 0 <= i < |e'|
      ensures e'[i] == e[i]
    {
      if i >= 2 {
        NotHead(items, head, order, maxLevel, i - 1);
      }
    }
  }
}
