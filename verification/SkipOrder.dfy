/** The order of the items of a skip list, level by level. */
module SkipOrder {

  type ItemPtr = nat  // SegmentPtr; 0 is NullPtr

  /** SKMapItem: next[l] is the next item of level l, for l up to the level of the item. */
  datatype Item = Item(level: nat, hash: nat, value: nat, next: seq<ItemPtr>)

  datatype Entry = Entry(hash: nat, value: nat)

  ghost predicate Reaches(items: map<ItemPtr, Item>, p: ItemPtr, l: nat) {
    p in items && items[p].level >= l
  }

  /** The first item of a stretch that is on level l, or NullPtr. */
  ghost function First(items: map<ItemPtr, Item>, s: seq<ItemPtr>, l: nat): ItemPtr {
    if s == [] then 0 else if Reaches(items, s[0], l) then s[0] else First(items, s[1..], l)
  }

  /** The last item of a stretch that is on level l, or NullPtr. */
  ghost function Last(items: map<ItemPtr, Item>, s: seq<ItemPtr>, l: nat): ItemPtr {
    if s == [] then 0 else if Reaches(items, s[|s| - 1], l) then s[|s| - 1] else Last(items, s[..|s| - 1], l)
  }

  /** Item i links to the items that come next on each of its levels. */
  ghost predicate ItemOk(items: map<ItemPtr, Item>, order: seq<ItemPtr>, i: nat, maxLevel: nat)
    requires i < |order|
  {
    && order[i] in items && order[i] != 0
    && items[order[i]].level < maxLevel && |items[order[i]].next| == items[order[i]].level + 1
    && forall l :: 0 <= l <= items[order[i]].level ==> items[order[i]].next[l] == First(items, order[i + 1..], l)
  }

  ghost predicate Increasing(items: map<ItemPtr, Item>, order: seq<ItemPtr>) {
    forall i, j :: 0 <= i < j < |order| && order[i] in items && order[j] in items ==>
        items[order[i]].hash < items[order[j]].hash
  }

  /** The items are exactly the ones in `order`, hashes strictly increase, and the head is on all levels. */
  ghost predicate SkipOk(items: map<ItemPtr, Item>, head: ItemPtr, order: seq<ItemPtr>, maxLevel: nat) {
    && maxLevel >= 1
    && (forall p :: p in items <==> p in order)
    && (forall i :: 0 <= i < |order| ==> ItemOk(items, order, i, maxLevel))
    && Increasing(items, order)
    && (if order == [] then head == 0 else head == order[0] && items[head].level == maxLevel - 1)
  }

  /** What the skip list holds, in order. */
  ghost function Entries(items: map<ItemPtr, Item>, order: seq<ItemPtr>): (e: seq<Entry>)
    ensures |e| == |order|
  {
    seq(|order|, i requires 0 <= i < |order| => if order[i] in items
        then Entry(items[order[i]].hash, items[order[i]].value) else Entry(0, 0))
  }

  // ----- first and last -----

  lemma {:induction false} FirstFound(items: map<ItemPtr, Item>, s: seq<ItemPtr>, l: nat) returns (j: nat)
    requires 0 !in s
    ensures j <= |s| && forall i :: 0 <= i < j ==> !Reaches(items, s[i], l)
    ensures First(items, s, l) == if j < |s| then s[j] else 0
    ensures j < |s| ==> Reaches(items, s[j], l)
  {
    if s == [] || Reaches(items, s[0], l) {
      j := 0;
    } else {
      var k := FirstFound(items, s[1..], l);
      j := k + 1;
    }
  }

  lemma {:induction false} FirstNone(items: map<ItemPtr, Item>, s: seq<ItemPtr>, l: nat)
    requires forall i :: 0 <= i < |s| ==> !Reaches(items, s[i], l)
    ensures First(items, s, l) == 0
  {
    if s != [] {
      FirstNone(items, s[1..], l);
    }
  }

  lemma {:induction false} FirstSplit(items: map<ItemPtr, Item>, a: seq<ItemPtr>, b: seq<ItemPtr>, l: nat)
    requires 0 !in a
    ensures First(items, a + b, l) == if First(items, a, l) != 0 then First(items, a, l) else First(items, b, l)
  {
    if a == [] {
      assert a + b == b;
    } else {
      assert (a + b)[1..] == a[1..] + b;
      FirstSplit(items, a[1..], b, l);
    }
  }

  ghost predicate SameLevels(items: map<ItemPtr, Item>, items': map<ItemPtr, Item>, s: seq<ItemPtr>) {
    forall p :: p in s ==> p in items && p in items' && items'[p].level == items[p].level
  }

  lemma {:induction false} FirstFrame(items: map<ItemPtr, Item>, items': map<ItemPtr, Item>, s: seq<ItemPtr>, l: nat)
    requires SameLevels(items, items', s)
    ensures First(items', s, l) == First(items, s, l)
  {
    if s != [] {
      FirstFrame(items, items', s[1..], l);
    }
  }

  lemma {:induction false} LastFrame(items: map<ItemPtr, Item>, items': map<ItemPtr, Item>, s: seq<ItemPtr>, l: nat)
    requires SameLevels(items, items', s)
    ensures Last(items', s, l) == Last(items, s, l)
  {
    if s != [] {
      LastFrame(items, items', s[..|s| - 1], l);
    }
  }

  /** The last item on level l before n is the one from which no other is on level l. */
  lemma {:induction false} LastIs(items: map<ItemPtr, Item>, s: seq<ItemPtr>, l: nat, k: nat)
    requires 0 !in s && k < |s| && Reaches(items, s[k], l) && First(items, s[k + 1..], l) == 0
    ensures Last(items, s, l) == s[k]
  {
    var n := |s| - 1;
    if k < n {
      var j := FirstFound(items, s[k + 1..], l);
      assert s[k + 1..][n - k - 1] == s[n];
      assert s[..n][k + 1..] + [s[n]] == s[k + 1..];
      FirstSplit(items, s[..n][k + 1..], [s[n]], l);
      LastIs(items, s[..n], l, k);
    }
  }

  lemma {:induction false} LastFound(items: map<ItemPtr, Item>, s: seq<ItemPtr>, l: nat) returns (k: nat)
    requires 0 !in s && |s| > 0 && Reaches(items, s[0], l)
    ensures k < |s| && Last(items, s, l) == s[k] && Reaches(items, s[k], l) && First(items, s[k + 1..], l) == 0
  {
    var n := |s| - 1;
    if Reaches(items, s[n], l) {
      k := n;
    } else {
      k := LastFound(items, s[..n], l);
      assert s[..n][k + 1..] + [s[n]] == s[k + 1..];
      FirstSplit(items, s[..n][k + 1..], [s[n]], l);
      assert First(items, [s[n]], l) == 0;
    }
  }

  lemma Distinct(items: map<ItemPtr, Item>, order: seq<ItemPtr>, i: nat, j: nat)
    requires Increasing(items, order) && (forall p :: p in order ==> p in items)
    requires i < |order| && j < |order| && order[i] == order[j]
    ensures i == j
  {
  }

  /** order[i] precedes the place n on level l exactly when no item between is on level l. */
  lemma LastExactly(items: map<ItemPtr, Item>, order: seq<ItemPtr>, n: nat, l: nat, i: nat)
    requires Increasing(items, order) && (forall p :: p in order ==> p in items) && 0 !in order
    requires 1 <= n <= |order| && i < n && Reaches(items, order[0], l)
    ensures Last(items, order[..n], l) == order[i] <==>
          Reaches(items, order[i], l) && First(items, order[i + 1..n], l) == 0
  {
    var s := order[..n];
    var k := LastFound(items, s, l);
    assert s[k + 1..] == order[k + 1..n] && s[i + 1..] == order[i + 1..n];
    if s[k] == order[i] {
      Distinct(items, order, k, i);
    } else if Reaches(items, order[i], l) && First(items, order[i + 1..n], l) == 0 {
      LastIs(items, s, l, i);
    }
  }

  // ----- where a hash belongs -----

  /** How many items have a smaller hash. */
  ghost function Below(items: map<ItemPtr, Item>, order: seq<ItemPtr>, hash: nat): nat {
    if order == [] then 0
    else if order[0] in items && items[order[0]].hash < hash then 1 + Below(items, order[1..], hash)
    else 0
  }

  lemma {:induction false} BelowSplits(items: map<ItemPtr, Item>, order: seq<ItemPtr>, hash: nat)
    requires Increasing(items, order) && forall p :: p in order ==> p in items
    ensures var n := Below(items, order, hash);
            && n <= |order|
            && (forall i :: 0 <= i < n ==> items[order[i]].hash < hash)
            && (forall i :: n <= i < |order| ==> items[order[i]].hash >= hash)
  {
    if order != [] && items[order[0]].hash < hash {
      BelowSplits(items, order[1..], hash);
    }
  }

  lemma {:induction false} BelowIs(items: map<ItemPtr, Item>, order: seq<ItemPtr>, hash: nat, n: nat)
    requires Increasing(items, order) && (forall p :: p in order ==> p in items) && n <= |order|
    requires forall i :: 0 <= i < n ==> items[order[i]].hash < hash
    requires forall i :: n <= i < |order| ==> items[order[i]].hash >= hash
    ensures Below(items, order, hash) == n
  {
    if n > 0 {
      BelowIs(items, order[1..], hash, n - 1);
    }
  }

  // ----- the entries as a map -----

  ghost predicate Sorted(e: seq<Entry>) {
    forall i, j :: 0 <= i < j < |e| ==> e[i].hash < e[j].hash
  }

  ghost function MapOf(e: seq<Entry>): map<nat, nat> {
    if e == [] then map[] else MapOf(e[..|e| - 1])[e[|e| - 1].hash := e[|e| - 1].value]
  }

  lemma {:induction false} MapKeys(e: seq<Entry>, h: nat)
    ensures h in MapOf(e) <==> exists i :: 0 <= i < |e| && e[i].hash == h
  {
    if e != [] {
      MapKeys(e[..|e| - 1], h);
      if exists i :: 0 <= i < |e| && e[i].hash == h {
        var i :| 0 <= i < |e| && e[i].hash == h;
        assert i < |e| - 1 ==> e[..|e| - 1][i].hash == h;
      }
    }
  }

  lemma {:induction false} MapValue(e: seq<Entry>, i: nat)
    requires Sorted(e) && i < |e|
    ensures e[i].hash in MapOf(e) && MapOf(e)[e[i].hash] == e[i].value
  {
    if i < |e| - 1 {
      MapValue(e[..|e| - 1], i);
      assert e[..|e| - 1][i] == e[i];
    }
  }

  /** Inserting an entry in its place adds one key to the map. */
  lemma {:induction false} MapInsert(e: seq<Entry>, n: nat, x: Entry)
    requires n <= |e| && Sorted(e[..n] + [x] + e[n..])
    ensures Sorted(e) && x.hash !in MapOf(e)
    ensures MapOf(e[..n] + [x] + e[n..]) == MapOf(e)[x.hash := x.value]
  {
    var e' := e[..n] + [x] + e[n..];
    forall i, j | 0 <= i < j < |e|
      ensures e[i].hash < e[j].hash
    {
      assert e'[if i < n then i else i + 1] == e[i] && e'[if j < n then j else j + 1] == e[j];
    }
    MapKeys(e, x.hash);
    assert forall i :: 0 <= i < |e| ==> e[i] == e'[if i < n then i else i + 1];
    assert e'[n] == x;
    MapInserted(e, n, x);
  }

  lemma {:induction false} MapInserted(e: seq<Entry>, n: nat, x: Entry)
    requires n <= |e| && forall i :: n <= i < |e| ==> e[i].hash != x.hash
    ensures MapOf(e[..n] + [x] + e[n..]) == MapOf(e)[x.hash := x.value]
  {
    var e' := e[..n] + [x] + e[n..];
    if n == |e| {
      assert e'[..|e|] == e;
    } else {
      var d := e[..|e| - 1];
      assert e'[..|e|] == d[..n] + [x] + d[n..];
      MapInserted(d, n, x);
    }
  }

  /** Removing an entry removes one key. */
  lemma MapRemove(e: seq<Entry>, n: nat)
    requires n < |e| && Sorted(e)
    ensures MapOf(e[..n] + e[n + 1..]) == MapOf(e) - {e[n].hash}
  {
    hide Sorted, MapOf;
    var d := e[..n] + e[n + 1..];
    assert d[..n] + [e[n]] + d[n..] == e;
    MapInsert(d, n, e[n]);
  }

  /** Storing a value at an entry updates one key. */
  lemma MapUpdate(e: seq<Entry>, n: nat, v: nat)
    requires n < |e| && Sorted(e)
    ensures MapOf(e[n := Entry(e[n].hash, v)]) == MapOf(e)[e[n].hash := v]
  {
    var d := e[..n] + e[n + 1..];
    var x := Entry(e[n].hash, v);
    assert Sorted(e[n := x]);
    hide Sorted, MapOf;
    assert d[..n] + [e[n]] + d[n..] == e;
    assert d[..n] + [x] + d[n..] == e[n := x];
    MapInsert(d, n, e[n]);
    MapInsert(d, n, x);
  }
}
