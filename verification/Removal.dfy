/** The order in which a subtree is deleted: below each child, from the first one on, and then the element itself; and
    the journal items that this and a replay leave. */
module Removal {
  import opened DomTree
  import opened DomViews
  import opened Outlines
  import opened Replay

  /** A number that grows from father to child. */
  ghost predicate Ranks(kids: Kids, rank: Rank) {
    forall p, k :: p in kids && 0 <= k < |kids[p]| ==> Grows(rank, p, kids[p][k])
  }

  ghost predicate Grows(rank: Rank, p: ElementId, c: ElementId) {
    p in rank && c in rank && rank[p] < rank[c]
  }

  lemma TreeRanks(nodes: Nodes, kids: Kids, rank: Rank)
    requires TreeOk(nodes, kids, rank)
    ensures Ranks(kids, rank)
  {
    forall p, k | p in kids && 0 <= k < |kids[p]|
      ensures Grows(rank, p, kids[p][k])
    {
      assert FatherOk(nodes, kids, p) && ChildOk(nodes, p, kids[p], k);
    }
  }

  ghost function Height(rank: Rank, x: ElementId): nat {
    if x in rank then Top(rank) - rank[x] else 0
  }

  /** Everything below x, children before fathers, and x at last. */
  ghost function Upwards(kids: Kids, rank: Rank, x: ElementId): seq<ElementId>
    requires Ranks(kids, rank)
    decreases Height(rank, x), 1, 0
  {
    UpwardsIn(kids, rank, x, if x in kids then kids[x] else []) + [x]
  }

  ghost function UpwardsIn(kids: Kids, rank: Rank, x: ElementId, list: seq<ElementId>): seq<ElementId>
    requires Ranks(kids, rank) && forall k :: 0 <= k < |list| ==> Grows(rank, x, list[k])
    decreases Height(rank, x), 0, |list|
  {
    if list == [] then []
    else
      assert Grows(rank, x, list[0]);
      Upwards(kids, rank, list[0]) + UpwardsIn(kids, rank, x, list[1..])
  }

  /** The order does not depend on the numbers, only on what is below x. */
  lemma {:induction false} SameUpwards(kids: Kids, rank: Rank, kids': Kids, rank': Rank, s: set<ElementId>,
      x: ElementId)
    requires Ranks(kids, rank) && Ranks(kids', rank') && SameBelow(kids, kids', s) && x in s
    ensures Upwards(kids', rank', x) == Upwards(kids, rank, x) && forall y :: y in Upwards(kids, rank, x) ==> y in s
    decreases Height(rank, x), 1, 0
  {
    assert Below(kids, kids', s, x);
    SameUpwardsIn(kids, rank, kids', rank', s, x, if x in kids then kids[x] else []);
  }

  /** In s, both have the same child lists, and s holds what is below it. */
  ghost predicate SameBelow(kids: Kids, kids': Kids, s: set<ElementId>) {
    forall y :: y in s ==> Below(kids, kids', s, y)
  }

  ghost predicate Below(kids: Kids, kids': Kids, s: set<ElementId>, y: ElementId) {
    && (y in kids <==> y in kids')
    && (y in kids && y in kids' ==> kids'[y] == kids[y] && forall k :: 0 <= k < |kids[y]| ==> kids[y][k] in s)
  }

  lemma {:induction false} SameUpwardsIn(kids: Kids, rank: Rank, kids': Kids, rank': Rank, s: set<ElementId>,
      x: ElementId, list: seq<ElementId>)
    requires Ranks(kids, rank) && Ranks(kids', rank') && SameBelow(kids, kids', s)
    requires forall k :: 0 <= k < |list| ==> Grows(rank, x, list[k]) && Grows(rank', x, list[k]) && list[k] in s
    ensures UpwardsIn(kids', rank', x, list) == UpwardsIn(kids, rank, x, list)
    ensures forall y :: y in UpwardsIn(kids, rank, x, list) ==> y in s
    decreases Height(rank, x), 0, |list|
  {
    if list != [] {
      SameUpwards(kids, rank, kids', rank', s, list[0]);
      SameUpwardsIn(kids, rank, kids', rank', s, x, list[1..]);
    }
  }

  lemma {:induction false} UpwardsJoin(kids: Kids, rank: Rank, x: ElementId, a: seq<ElementId>, c: ElementId)
    requires Ranks(kids, rank) && Grows(rank, x, c) && forall k :: 0 <= k < |a| ==> Grows(rank, x, a[k])
    ensures UpwardsIn(kids, rank, x, a + [c]) == UpwardsIn(kids, rank, x, a) + Upwards(kids, rank, c)
    decreases |a|
  {
    hide Upwards;
    if a == [] {
      assert (a + [c])[1..] == [];
    } else {
      assert (a + [c])[1..] == a[1..] + [c];
      UpwardsJoin(kids, rank, x, a[1..], c);
    }
  }

  /** The order of deletion below x, and x at last. */
  ghost function Order(kids: Kids, x: ElementId): seq<ElementId> {
    if exists rank :: Ranks(kids, rank) then
      var rank :| Ranks(kids, rank);
      Upwards(kids, rank, x)
    else []
  }

  /** The same without x. */
  ghost function OrderBelow(kids: Kids, x: ElementId): seq<ElementId> {
    var order := Order(kids, x);
    if order == [] then [] else order[..|order| - 1]
  }

  lemma OrderIs(kids: Kids, rank: Rank, x: ElementId)
    requires Ranks(kids, rank)
    ensures Order(kids, x) == Upwards(kids, rank, x)
  {
    var other :| Ranks(kids, other) && Order(kids, x) == Upwards(kids, other, x);
    var s := other.Keys + kids.Keys + {x};
    forall y | y in s
      ensures Below(kids, kids, s, y)
    {
      if y in kids {
        forall k | 0 <= k < |kids[y]|
          ensures kids[y][k] in s
        {
          assert Grows(other, y, kids[y][k]);
        }
      }
    }
    SameUpwards(kids, rank, kids, other, s, x);
  }

  // ----- the items of a deletion -----

  ghost function Removed(order: seq<ElementId>): seq<Step> {
    seq(|order|, k requires 0 <= k < |order| => Rem(order[k]))
  }

  ghost function IdOf(ids: map<ElementId, ElementId>, y: ElementId): ElementId {
    if y in ids then ids[y] else 0
  }

  ghost function RemovalItems(ids: map<ElementId, ElementId>, order: seq<ElementId>): seq<Entry> {
    seq(|order|, k requires 0 <= k < |order| => RemoveItem(IdOf(ids, order[k])))
  }

  /** The children of x up to place k have been deleted, with what is below them. */
  ghost predicate Deleted(kids0: Kids, rank: Rank, ids0: map<ElementId, ElementId>, x: ElementId, k: nat, kids: Kids,
      steps0: seq<Step>, steps: seq<Step>, told0: seq<Entry>, told: seq<Entry>)
  {
    && Ranks(kids0, rank) && x in kids0 && k <= |kids0[x]| && x in kids && kids[x] == kids0[x][k..]
    && var order := UpwardsIn(kids0, rank, x, kids0[x][..k]);
       steps == steps0 + Removed(order) && told == told0 + RemovalItems(ids0, order)
  }

  lemma NoneDeleted(kids0: Kids, rank: Rank, ids0: map<ElementId, ElementId>, x: ElementId, steps: seq<Step>,
      told: seq<Entry>)
    requires Ranks(kids0, rank) && x in kids0
    ensures Deleted(kids0, rank, ids0, x, 0, kids0, steps, steps, told, told)
  {
    assert kids0[x][..0] == [] && kids0[x][0..] == kids0[x];
  }

  lemma WithoutRanks(o: Outline, gone: set<ElementId>, rank: Rank)
    requires Ranks(o.kids, rank)
    ensures Ranks(Without(o, gone).kids, rank)
  {
    var kids := Without(o, gone).kids;
    forall p, k | p in kids && 0 <= k < |kids[p]|
      ensures Grows(rank, p, kids[p][k])
    {
      MinusItems(o.kids[p], gone, kids[p][k]);
      var j :| 0 <= j < |o.kids[p]| && o.kids[p][j] == kids[p][k];
    }
  }

  /** What is neither gone nor x has kept its children. */
  lemma KidStays(nodes: Nodes, kids: Kids, rank: Rank, x: ElementId, gone: set<ElementId>, y: ElementId, j: nat)
    requires TreeOk(nodes, kids, rank) && Beneath(ViewOf(nodes, kids), x, gone)
    requires y in kids && y !in gone && y != x && j < |kids[y]|
    ensures kids[y][j] !in gone && kids[y][j] in kids
  {
    var o, z := ViewOf(nodes, kids), kids[y][j];
    assert HasFather(o, z, y);
    ViewFather(nodes, kids, rank, z, y);
    if z in gone {
      assert HangsIn(o, x, gone, z);
      var f :| HasFather(o, z, f) && (f == x || f in gone);
      ViewFather(nodes, kids, rank, z, f);
    }
  }

  /** Below a child that is still there, nothing has changed. */
  lemma StaysBelow(nodes: Nodes, kids: Kids, rank: Rank, x: ElementId, gone: set<ElementId>, c: ElementId)
    requires TreeOk(nodes, kids, rank) && x in nodes && c in nodes && c !in gone && Grows(rank, x, c)
    requires Ranks(kids, rank) && Beneath(ViewOf(nodes, kids), x, gone)
    ensures var kids' := Without(ViewOf(nodes, kids), gone).kids;
            && Order(kids', c) == Upwards(kids, rank, c)
            && forall y :: y in Upwards(kids, rank, c) ==> y !in gone
  {
    hide TreeOk, Beneath, Upwards, UpwardsIn, Order, ViewOf, Without, Ranks;
    var o := ViewOf(nodes, kids);
    var kids' := Without(o, gone).kids;
    ViewKids(nodes, kids, rank, gone);
    WithoutRanks(o, gone, rank);
    OrderIs(kids', rank, c);
    var s := set y | y in kids && y !in gone && Grows(rank, x, y);
    forall y | y in s
      ensures Below(kids, kids', s, y)
    {
      forall j | 0 <= j < |kids[y]|
        ensures kids[y][j] !in gone && kids[y][j] in s
      {
        KidStays(nodes, kids, rank, x, gone, y, j);
        RanksAt(kids, rank, y, j);
      }
      MinusNone(kids[y], gone);
    }
    SameUpwards(kids, rank, kids', rank, s, c);
  }

  lemma RanksAt(kids: Kids, rank: Rank, y: ElementId, j: nat)
    requires Ranks(kids, rank) && y in kids && j < |kids[y]|
    ensures Grows(rank, y, kids[y][j])
  {
  }

  lemma ViewKids(nodes: Nodes, kids: Kids, rank: Rank, gone: set<ElementId>)
    requires TreeOk(nodes, kids, rank)
    ensures ViewOf(nodes, kids).kids == kids && nodes.Keys == kids.Keys
    ensures var kids' := Without(ViewOf(nodes, kids), gone).kids;
            forall p :: (p in kids' <==> p in kids && p !in gone) && (p in kids' ==> kids'[p] == Minus(kids[p], gone))
  {
  }

  /** The first of the children goes, with what is below it. */
  lemma NextFirst(nodes: Nodes, kids: Kids, rank: Rank, x: ElementId, k: nat, gone: set<ElementId>,
      rest: set<ElementId>)
    requires TreeOk(nodes, kids, rank) && x in kids && k < |kids[x]| && x !in gone && x !in rest
    requires Minus(kids[x], gone) == kids[x][k..] && Beneath(Without(ViewOf(nodes, kids), gone), kids[x][k], rest)
    ensures Minus(kids[x], gone + rest + {kids[x][k]}) == kids[x][k + 1..]
  {
    hide TreeOk, Beneath, ViewOf, Without;
    var c, list := kids[x][k], kids[x];
    assert gone + (rest + {c}) == gone + rest + {c};
    MinusTwice(list, gone, rest + {c});
    assert list[k..] == [c] + list[k + 1..] && list[k..][1..] == list[k + 1..];
    forall z | z in list[k + 1..]
      ensures z !in rest + {c}
    {
      var m: nat :| k < m < |list| && list[m] == z;
      LaterChild(nodes, kids, rank, x, k, m);
      if z in rest {
        OtherFather(nodes, kids, rank, gone, rest, c, z);
      }
    }
    MinusNone(list[k + 1..], rest + {c});
  }

  lemma LaterChild(nodes: Nodes, kids: Kids, rank: Rank, x: ElementId, k: nat, m: nat)
    requires TreeOk(nodes, kids, rank) && x in kids && k < m < |kids[x]|
    ensures kids[x][m] != kids[x][k] && kids[x][k] != x && kids[x][m] in nodes && nodes[kids[x][m]].father == x
  {
    assert FatherOk(nodes, kids, x) && ChildOk(nodes, x, kids[x], k) && ChildOk(nodes, x, kids[x], m);
  }

  lemma OtherFather(nodes: Nodes, kids: Kids, rank: Rank, gone: set<ElementId>, rest: set<ElementId>, c: ElementId,
      z: ElementId)
    requires TreeOk(nodes, kids, rank) && z in rest && Beneath(Without(ViewOf(nodes, kids), gone), c, rest)
    ensures z in nodes && (nodes[z].father == c || nodes[z].father in rest)
  {
    hide TreeOk;
    var o, v := ViewOf(nodes, kids), Without(ViewOf(nodes, kids), gone);
    assert HangsIn(v, c, rest, z);
    var f :| HasFather(v, z, f) && (f == c || f in rest);
    ViewKids(nodes, kids, rank, gone);
    MinusItems(kids[f], gone, z);
    assert HasFather(o, z, f);
    ViewFather(nodes, kids, rank, z, f);
  }

  /** One child more. */
  lemma OneDeleted(nodes0: Nodes, kids0: Kids, rank: Rank, ids0: map<ElementId, ElementId>, x: ElementId, k: nat,
      gone: set<ElementId>, kids: Kids, rest: set<ElementId>, kids': Kids, steps0: seq<Step>, steps: seq<Step>,
      steps': seq<Step>, told0: seq<Entry>, told: seq<Entry>, told': seq<Entry>)
    requires TreeOk(nodes0, kids0, rank) && x in nodes0
          && Deleted(kids0, rank, ids0, x, k, kids, steps0, steps, told0, told)
    requires k < |kids0[x]| && Beneath(ViewOf(nodes0, kids0), x, gone)
    requires var c := kids0[x][k];
             && kids == Without(ViewOf(nodes0, kids0), gone).kids && x !in gone && x !in rest
             && Beneath(Without(ViewOf(nodes0, kids0), gone), c, rest)
             && kids' == Without(ViewOf(nodes0, kids0), gone + rest + {c}).kids && c != x
    requires var order := Order(kids, kids0[x][k]);
             steps' == steps + Removed(order) && told' == told + RemovalItems(ids0 - gone, order)
    ensures Deleted(kids0, rank, ids0, x, k + 1, kids', steps0, steps', told0, told')
  {
    hide TreeOk, Beneath, Upwards, UpwardsIn, Order, ViewOf, Without;
    var c, list := kids0[x][k], kids0[x];
    RanksAt(kids0, rank, x, k);
    ChildIs(nodes0, kids0, rank, x, k);
    ViewKids(nodes0, kids0, rank, gone);
    ViewKids(nodes0, kids0, rank, gone + rest + {c});
    assert c in list[k..];
    MinusItems(list, gone, c);
    StaysBelow(nodes0, kids0, rank, x, gone, c);
    NextFirst(nodes0, kids0, rank, x, k, gone, rest);
    assert list[..k + 1] == list[..k] + [c];
    UpwardsJoin(kids0, rank, x, list[..k], c);
    ItemsJoin(ids0, gone, UpwardsIn(kids0, rank, x, list[..k]), Upwards(kids0, rank, c));
  }

  lemma ChildIs(nodes: Nodes, kids: Kids, rank: Rank, x: ElementId, k: nat)
    requires TreeOk(nodes, kids, rank) && x in kids && k < |kids[x]|
    ensures kids[x][k] in nodes
  {
    assert FatherOk(nodes, kids, x) && ChildOk(nodes, x, kids[x], k);
  }

  lemma ItemsJoin(ids: map<ElementId, ElementId>, gone: set<ElementId>, a: seq<ElementId>, b: seq<ElementId>)
    requires forall y :: y in b ==> y !in gone
    ensures Removed(a + b) == Removed(a) + Removed(b)
    ensures RemovalItems(ids, a + b) == RemovalItems(ids, a) + RemovalItems(ids - gone, b)
  {
    assert forall k :: 0 <= k < |b| ==> IdOf(ids, b[k]) == IdOf(ids - gone, b[k]);
  }

  lemma NextDeleted(nodes0: Nodes, kids0: Kids, rank: Rank, ids0: map<ElementId, ElementId>, x: ElementId, k: nat,
      gone: set<ElementId>, nodes: Nodes, kids: Kids, rest: set<ElementId>, nodes': Nodes, kids': Kids,
      steps0: seq<Step>, steps: seq<Step>, steps': seq<Step>, told0: seq<Entry>, told: seq<Entry>, told': seq<Entry>)
    requires TreeOk(nodes0, kids0, rank) && TreeOk(nodes, kids, rank) && TreeOk(nodes', kids', rank) && x in nodes0
    requires Deleted(kids0, rank, ids0, x, k, kids, steps0, steps, told0, told)
    requires Beneath(ViewOf(nodes0, kids0), x, gone) && ViewOf(nodes, kids) == Without(ViewOf(nodes0, kids0), gone)
    requires x in nodes && nodes[x].child != 0 && x !in rest && nodes[x].child != x
    requires var c := nodes[x].child;
             && Beneath(ViewOf(nodes, kids), c, rest)
             && ViewOf(nodes', kids') == Without(ViewOf(nodes0, kids0), gone + rest + {c})
             && steps' == steps + Removed(Order(kids, c)) && told' == told + RemovalItems(ids0 - gone, Order(kids, c))
    ensures Deleted(kids0, rank, ids0, x, k + 1, kids', steps0, steps', told0, told')
  {
    hide TreeOk, Order, Removed, RemovalItems, UpwardsIn, Upwards, Ranks;
    ViewKids(nodes, kids, rank, {});
    ViewKids(nodes', kids', rank, {});
    FirstIs(nodes, kids, rank, x);
    NotGone(ViewOf(nodes0, kids0), x, gone);
    assert kids[x][0] == kids0[x][k];
    hide Beneath, ViewOf, Without, Deleted;
    OneDeleted(nodes0, kids0, rank, ids0, x, k, gone, kids, rest, kids', steps0, steps, steps', told0, told, told');
  }

  lemma NotGone(o: Outline, x: ElementId, gone: set<ElementId>)
    requires Beneath(o, x, gone)
    ensures x !in gone
  {
  }

  lemma FirstIs(nodes: Nodes, kids: Kids, rank: Rank, x: ElementId)
    requires TreeOk(nodes, kids, rank) && x in nodes && nodes[x].child != 0
    ensures x in kids && kids[x] != [] && kids[x][0] == nodes[x].child
  {
    assert FatherOk(nodes, kids, x);
  }

  /** All children are deleted. */
  lemma AllDeleted(kids0: Kids, rank: Rank, ids0: map<ElementId, ElementId>, x: ElementId, k: nat, kids: Kids,
      steps0: seq<Step>, steps: seq<Step>, told0: seq<Entry>, told: seq<Entry>)
    requires Deleted(kids0, rank, ids0, x, k, kids, steps0, steps, told0, told) && kids[x] == []
    ensures steps == steps0 + Removed(OrderBelow(kids0, x)) && told == told0 + RemovalItems(ids0, OrderBelow(kids0, x))
  {
    hide Ranks, Upwards, UpwardsIn;
    OrderIs(kids0, rank, x);
    BelowIs(kids0, rank, x);
    assert kids0[x][..k] == kids0[x];
  }

  lemma BelowIs(kids: Kids, rank: Rank, x: ElementId)
    requires Ranks(kids, rank) && x in kids && Order(kids, x) == Upwards(kids, rank, x)
    ensures OrderBelow(kids, x) == UpwardsIn(kids, rank, x, kids[x]) && Order(kids, x) == OrderBelow(kids, x) + [x]
  {
    hide Ranks, UpwardsIn, Order;
  }

  lemma NoneBelow(kids: Kids, rank: Rank, ids: map<ElementId, ElementId>, x: ElementId, steps: seq<Step>,
      told: seq<Entry>)
    requires Ranks(kids, rank) && x in kids && kids[x] == []
    ensures OrderBelow(kids, x) == [] && steps == steps + Removed([]) && told == told + RemovalItems(ids, [])
  {
    OrderIs(kids, rank, x);
  }

  /** At last the element itself. */
  lemma SelfDeleted(kids: Kids, rank: Rank, ids: map<ElementId, ElementId>, x: ElementId, gone: set<ElementId>)
    requires Ranks(kids, rank) && x in kids && x in ids && x !in gone
    ensures Removed(OrderBelow(kids, x)) + [Rem(x)] == Removed(Order(kids, x))
    ensures RemovalItems(ids, OrderBelow(kids, x)) + [RemoveItem((ids - gone)[x])] == RemovalItems(ids, Order(kids, x))
  {
    hide Ranks, Upwards, Order, OrderBelow;
    OrderIs(kids, rank, x);
    BelowIs(kids, rank, x);
  }

  // ----- the items of a replay -----

  /** An item takes effect if its base is there, and in the source the element whose kind or text it tells. */
  ghost predicate Takes(t: Target, e: Entry, source: Target) {
    match e
    case InsertItem(_, b, x) => Has(t, b) && Has(source, x)
    case RemoveItem(b) => Has(t, b)
    case TextItem(b) => Has(t, b) && Has(source, b)
  }

  /** What the edit that an item asks for writes to the journal of the target, before the item itself is copied there.
      */
  ghost function Tells(t: Target, e: Entry, source: Target): seq<Entry> {
    if !Takes(t, e, source) then []
    else
      match e
      case InsertItem(_, _, _) => [e]
      case RemoveItem(b) => RemovalItems(t.ids, Order(t.o.kids, Found(t, b)))
      case TextItem(b) => if IsLinked(t.o, Found(t, b)) then [e] else []
  }

  /** The journal of the target after a replay. */
  ghost function AllTold(t: Target, entries: seq<Entry>, source: Target): seq<Entry> {
    if entries == [] then []
    else
      var (before, e) := (entries[..|entries| - 1], entries[|entries| - 1]);
      var now := Replayed(t, before, source);
      AllTold(t, before, source) + Tells(now, e, source) + if Takes(now, e, source) then [e] else []
  }

  lemma ToldMore(t: Target, before: seq<Entry>, e: Entry, source: Target)
    ensures var now := Replayed(t, before, source);
            AllTold(t, before + [e], source)
            == AllTold(t, before, source) + Tells(now, e, source) + if Takes(now, e, source) then [e] else []
  {
    hide Tells, Takes, Replayed;
    assert (before + [e])[..|before|] == before;
  }

  /** An item that is replayed comes twice in a row: once from the edit, which journals itself, and once as a copy. */
  lemma ToldTwice(t: Target, e: Entry, source: Target, rank: Rank)
    requires Takes(t, e, source) && Ranks(t.o.kids, rank) && (e.TextItem? ==> IsLinked(t.o, Found(t, e.base)))
    ensures var told := AllTold(t, [e], source);
            |told| >= 2 && told[|told| - 2] == told[|told| - 1] == e && (!e.RemoveItem? ==> |told| == 2)
  {
    hide Upwards, Order, Ranks, IsLinked;
    ToldMore(t, [], e, source);
    assert [] + [e] == [e];
    if e.RemoveItem? {
      var x := Found(t, e.base);
      OrderIs(t.o.kids, rank, x);
      LastIs(t.o.kids, rank, x);
      assert RemovalItems(t.ids, Order(t.o.kids, x))[|Order(t.o.kids, x)| - 1] == e;
    }
  }

  lemma LastIs(kids: Kids, rank: Rank, x: ElementId)
    requires Ranks(kids, rank)
    ensures var order := Upwards(kids, rank, x); order != [] && order[|order| - 1] == x
  {
  }
}
