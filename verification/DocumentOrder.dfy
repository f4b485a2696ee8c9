/** isBeforeInDocumentOrder: climbing to two siblings below the first common ancestor. */
module DocumentOrder {
  import opened DomTree
  import opened DocumentWalk

  /** A node of the document that hangs below its root. */
  ghost predicate Present(d: Doc, r: NodeRef)
    requires DocOk(d)
  {
    In(d, r) && Over(d, d.root, r.element)
  }

  /** Everything at x comes before everything at y: x is above y, or hangs below an earlier child of some p. */
  ghost predicate Apart(d: Doc, x: ElementId, y: ElementId)
    requires DocOk(d)
  {
    (x != y && Over(d, x, y)) || exists p, j: nat, k: nat :: Forked(d, x, y, p, j, k)
  }

  ghost predicate Forked(d: Doc, x: ElementId, y: ElementId, p: ElementId, j: nat, k: nat)
    requires DocOk(d)
  {
    p in d.nodes && p in d.kids && j < k < |d.kids[p]| && Over(d, d.kids[p][j], x) && Over(d, d.kids[p][k], y)
  }

  lemma ApartOrders(d: Doc, a: NodeRef, b: NodeRef)
    requires DocOk(d) && Present(d, a) && Present(d, b) && Apart(d, a.element, b.element)
    ensures Before(d, a, b) && !Before(d, b, a)
  {
    hide DocOk, Under, Before;
    var x, y := a.element, b.element;
    if x != y && Over(d, x, y) {
      HeadFirst(d, x, a, b);
    } else {
      var p, j: nat, k: nat :| Forked(d, x, y, p, j, k);
      KidFacts(d, p, j);
      OverTrans(d, p, d.kids[p][j], x);
      RootOver(d, p, x);
      KidsInOrder(d, p, j, k, a, b);
    }
    TotalOrder(d, a, b);
  }

  lemma RootHasNoFather(d: Doc, e: ElementId)
    requires DocOk(d) && e in d.nodes && Over(d, d.root, e)
    ensures d.nodes[e].father == 0 <==> e == d.root
    ensures d.nodes[e].father != 0 ==> d.nodes[e].father in d.nodes && Over(d, d.root, d.nodes[e].father)
    ensures e in d.rank
          && (d.nodes[e].father != 0 ==> d.nodes[e].father in d.rank && d.rank[d.nodes[e].father] < d.rank[e])
  {
    hide Under;
    if e != d.root {
      OverRank(d, d.root, e);
      InDoc(d, d.nodes[e].father);
    }
  }

  /** Going up from n: an ancestor of e at or above n is n or at or above its father. */
  lemma StepUp(d: Doc, x: ElementId, n: ElementId)
    requires DocOk(d) && n in d.nodes && Over(d, x, n)
    ensures x == n || (d.nodes[n].father != 0 && d.nodes[n].father in d.nodes && Over(d, x, d.nodes[n].father))
  {
  }

  /** The father of a node at or above e is above e. */
  lemma FatherOver(d: Doc, n: ElementId, e: ElementId)
    requires DocOk(d) && n in d.nodes && e in d.nodes && Over(d, n, e) && d.nodes[n].father != 0
    ensures d.nodes[n].father in d.nodes && Over(d, d.nodes[n].father, e) && d.nodes[n].father != e
  {
    hide Under;
    FatherIn(d.nodes, d.kids, d.rank, n);
    var f := d.nodes[n].father;
    var j :| 0 <= j < |d.kids[f]| && d.kids[f][j] == n;
    KidFacts(d, f, j);
    OverTrans(d, f, n, e);
    if n != e {
      OverRank(d, n, e);
    }
  }

  // ----- the inner loop -----

  /** From me upward until e or `his` is met; otherwise myAncestor is the last element before `his`. */
  method ClimbTo(nodes: Nodes, me: ElementId, e: ElementId, his: ElementId, ghost d: Doc)
      returns (met: bool, found: bool, myAncestor: ElementId)
    requires DocOk(d) && d.nodes == nodes && me in nodes && e in nodes && his in nodes && me != his && e != his
          && Over(d, his, e)
    ensures met ==> Over(d, e, me)
    ensures !met ==> !Over(d, e, me)
    ensures !met && !found ==> !Over(d, his, me)
    ensures !met && found ==> myAncestor in nodes && nodes[myAncestor].father == his && Over(d, myAncestor, me)
  {
    hide DocOk, Under;
    myAncestor := me;
    var myAnces := me;
    OverSelf(d, me);
    InDoc(d, me);
    while myAnces != 0
      invariant myAnces != 0 ==> myAnces in nodes && Over(d, myAnces, me)
      invariant myAncestor in nodes && Over(d, myAncestor, me)
      invariant if myAnces == me then myAncestor == me else nodes[myAncestor].father == myAnces
      invariant Over(d, e, me) ==> myAnces != 0 && Over(d, e, myAnces)
      invariant Over(d, his, me) ==> myAnces != 0 && Over(d, his, myAnces)
      decreases if myAnces != 0 && myAnces in d.rank then d.rank[myAnces] + 1 else 0
    {
      InDoc(d, myAnces);
      if myAnces == e {
        return true, false, myAncestor;
      }
      if myAnces == his {
        NotBothWays(d, his, e);
        return false, true, myAncestor;
      }
      GoUp(d, myAnces, me, e, his);
      myAncestor := myAnces;
      myAnces := nodes[myAnces].father;
    }
    return false, false, myAncestor;
  }

  lemma NotBothWays(d: Doc, x: ElementId, y: ElementId)
    requires DocOk(d) && x in d.nodes && y in d.nodes && x != y && Over(d, x, y)
    ensures !Over(d, y, x)
  {
    hide Under;
    OverRank(d, x, y);
    if Over(d, y, x) {
      OverRank(d, y, x);
    }
  }

  lemma GoUp(d: Doc, n: ElementId, me: ElementId, e: ElementId, his: ElementId)
    requires DocOk(d) && n in d.nodes && me in d.nodes && Over(d, n, me) && n != e && n != his
    ensures var f := d.nodes[n].father;
            && n in d.rank
            && (f != 0 ==> f in d.nodes && Over(d, f, me) && f != me && f in d.rank && d.rank[f] < d.rank[n])
            && (Over(d, e, n) ==> f != 0 && Over(d, e, f)) && (Over(d, his, n) ==> f != 0 && Over(d, his, f))
  {
    hide Under;
    InDoc(d, n);
    if Over(d, e, n) {
      StepUp(d, e, n);
    }
    if Over(d, his, n) {
      StepUp(d, his, n);
    }
    if d.nodes[n].father != 0 {
      FatherOver(d, n, me);
      FatherIn(d.nodes, d.kids, d.rank, n);
    }
  }

  // ----- the outer loop -----

  /** Either one element is above the other, or two siblings below the lowest common ancestor are found;
      the search always ends with one or the other. */
  method FindSiblings(nodes: Nodes, me: ElementId, e: ElementId, ghost d: Doc)
      returns (decided: bool, r: bool, myAncestor: ElementId, eRefAncestor: ElementId)
    requires DocOk(d) && d.nodes == nodes && me in nodes && e in nodes && me != e && nodes[e].father != 0
          && nodes[me].father != nodes[e].father
    requires Over(d, d.root, me) && Over(d, d.root, e)
    ensures decided ==> if r then Over(d, me, e) else Over(d, e, me)
    ensures !decided ==> myAncestor in nodes && eRefAncestor in nodes && myAncestor != eRefAncestor
    ensures !decided ==>
          nodes[myAncestor].father == nodes[eRefAncestor].father != 0 && Over(d, myAncestor, me)
          && Over(d, eRefAncestor, e)
  {
    hide DocOk, Under;
    myAncestor, eRefAncestor := me, e;
    var found := false;
    var hisAncestor := nodes[e].father;
    OverSelf(d, e);
    FatherOver(d, e, e);
    RootHasNoFather(d, e);
    while hisAncestor != 0
      invariant eRefAncestor in nodes && Over(d, eRefAncestor, e) && nodes[eRefAncestor].father == hisAncestor
      invariant hisAncestor != 0 ==> hisAncestor in nodes && Over(d, hisAncestor, e) && hisAncestor != e
      invariant eRefAncestor != e ==> !Over(d, eRefAncestor, me) && !Over(d, e, me)
      decreases if hisAncestor != 0 && hisAncestor in d.rank then d.rank[hisAncestor] + 1 else 0
    {
      myAncestor := me;
      if me == hisAncestor {
        return true, true, myAncestor, eRefAncestor;
      }
      var met;
      met, found, myAncestor := ClimbTo(nodes, me, e, hisAncestor, d);
      if met {
        return true, false, myAncestor, eRefAncestor;
      }
      if found {
        return false, false, myAncestor, eRefAncestor;
      }
      eRefAncestor := hisAncestor;
      RootOver(d, hisAncestor, e);
      RootHasNoFather(d, hisAncestor);
      if nodes[hisAncestor].father != 0 {
        FatherOver(d, hisAncestor, e);
      }
      hisAncestor := nodes[hisAncestor].father;
    }
    RootOver(d, eRefAncestor, e);
    RootHasNoFather(d, eRefAncestor);
    assert false;
  }

  // ----- the sibling scan -----

  /** Which of two siblings comes first; the scan finds one behind the other. */
  method FirstOf(nodes: Nodes, a: ElementId, b: ElementId, ghost d: Doc)
      returns (r: bool, ghost p: ElementId, ghost j: nat, ghost k: nat)
    requires DocOk(d) && d.nodes == nodes && a in nodes && b in nodes && a != b
          && nodes[a].father == nodes[b].father != 0
    ensures p in d.nodes && p in d.kids && j < |d.kids[p]| && k < |d.kids[p]| && d.kids[p][j] == a && d.kids[p][k] == b
    ensures r <==> j < k
  {
    hide TreeOk, Under;
    p := nodes[a].father;
    FatherIn(d.nodes, d.kids, d.rank, a);
    FatherIn(d.nodes, d.kids, d.rank, b);
    j := PlaceOf(nodes, d.kids, d.rank, a);
    k := PlaceOf(nodes, d.kids, d.rank, b);
    ghost var m: nat := j;
    var elt := a;
    while elt != 0
      invariant j <= m <= |d.kids[p]| && elt == At(d.kids[p], m) && forall i :: j <= i < m ==> d.kids[p][i] != b
      decreases |d.kids[p]| - m
    {
      KidFacts(d, p, m);
      if elt == b {
        SameKid(d, p, m, k);
        return true, p, j, k;
      }
      elt := nodes[elt].younger;
      m := m + 1;
    }
    EndOfKids(d, p, m);
    assert k < j;
    elt := b;
    m := k;
    while elt != 0
      invariant k <= m <= j && elt == At(d.kids[p], m)
      decreases j - m
    {
      KidFacts(d, p, m);
      if elt == a {
        return false, p, j, k;
      }
      elt := nodes[elt].younger;
      m := m + 1;
    }
    EndOfKids(d, p, m);
    assert false;
  }

  lemma EndOfKids(d: Doc, p: ElementId, m: nat)
    requires DocOk(d) && p in d.nodes && p in d.kids && m <= |d.kids[p]| && At(d.kids[p], m) == 0
    ensures m == |d.kids[p]|
  {
    assert FatherOk(d.nodes, d.kids, p);
    assert m < |d.kids[p]| ==> ChildOk(d.nodes, p, d.kids[p], m);
  }

  // ----- elements -----

  method CompareElements(nodes: Nodes, me: ElementId, e: ElementId, ghost d: Doc) returns (r: bool)
    requires DocOk(d) && d.nodes == nodes && me in nodes && e in nodes && me != e && Over(d, d.root, me)
          && Over(d, d.root, e)
    ensures if r then Apart(d, me, e) else Apart(d, e, me)
  {
    hide DocOk, Under;
    RootHasNoFather(d, me);
    RootHasNoFather(d, e);
    OverSelf(d, me);
    OverSelf(d, e);
    if nodes[me].father == 0 {
      return true;
    }
    if nodes[e].father == 0 {
      return false;
    }
    if nodes[me].younger == e {
      NextSibling(d, me, e);
      return true;
    }
    if nodes[me].elder == e {
      PreviousSibling(d, me, e);
      return false;
    }
    var myAncestor, eRefAncestor := me, e;
    if nodes[me].father != nodes[e].father {
      var decided;
      decided, r, myAncestor, eRefAncestor := FindSiblings(nodes, me, e, d);
      if decided {
        return;
      }
    }
    ghost var p, j, k;
    r, p, j, k := FirstOf(nodes, myAncestor, eRefAncestor, d);
    if r {
      assert Forked(d, me, e, p, j, k);
    } else {
      assert Forked(d, e, me, p, k, j);
    }
  }

  lemma NextSibling(d: Doc, me: ElementId, e: ElementId)
    requires DocOk(d) && me in d.nodes && e in d.nodes && d.nodes[me].father != 0 && d.nodes[me].younger == e
    ensures Apart(d, me, e)
  {
    hide Under;
    var j := PlaceOf(d.nodes, d.kids, d.rank, me);
    UnlinkFacts(d.nodes, d.kids, d.rank, me, j);
    OverSelf(d, me);
    OverSelf(d, e);
    assert Forked(d, me, e, d.nodes[me].father, j, j + 1);
  }

  lemma PreviousSibling(d: Doc, me: ElementId, e: ElementId)
    requires DocOk(d) && me in d.nodes && e in d.nodes && d.nodes[me].father != 0 && d.nodes[me].elder == e
    ensures Apart(d, e, me)
  {
    hide Under;
    var j := PlaceOf(d.nodes, d.kids, d.rank, me);
    UnlinkFacts(d.nodes, d.kids, d.rank, me, j);
    OverSelf(d, me);
    OverSelf(d, e);
    assert Forked(d, e, me, d.nodes[me].father, j - 1, j);
  }

  /** ElementRef: the answer is the preorder of the two nodes. */
  method ElementIsBefore(nodes: Nodes, me: ElementId, nRef: NodeRef, ghost d: Doc) returns (r: bool)
    requires DocOk(d) && d.nodes == nodes && Present(d, ElementNode(me)) && Present(d, nRef) && nRef != ElementNode(me)
    ensures r <==> Before(d, ElementNode(me), nRef)
  {
    hide DocOk, Under, Before;
    var e := nRef.element;
    if me == e {
      OverSelf(d, me);
      ElementFirst(d, me, nRef);
      return true;
    }
    r := CompareElements(nodes, me, e, d);
    if r {
      ApartOrders(d, ElementNode(me), nRef);
    } else {
      ApartOrders(d, nRef, ElementNode(me));
    }
  }

  // ----- attributes -----

  /** AttributeRef: an attribute comes behind its element, and namespace attributes before others. */
  method AttributeIsBefore(nodes: Nodes, attrs: Attrs, e: ElementId, a: AttributeId, nRef: NodeRef, ghost d: Doc)
      returns (r: bool)
    requires DocOk(d) && d.nodes == nodes && d.attrs == attrs && Present(d, AttributeNode(e, a)) && Present(d, nRef)
          && nRef != AttributeNode(e, a)
    ensures r <==> Before(d, AttributeNode(e, a), nRef)
  {
    hide DocOk, Under, Before;
    if e == nRef.element {
      if nRef.ElementNode? {
        OverSelf(d, e);
        ElementFirst(d, e, AttributeNode(e, a));
        TotalOrder(d, ElementNode(e), AttributeNode(e, a));
        return false;
      }
      r := SameElement(attrs, e, a, nRef.attr, d);
      return;
    }
    r := CompareElements(nodes, e, nRef.element, d);
    if r {
      ApartOrders(d, AttributeNode(e, a), nRef);
    } else {
      ApartOrders(d, nRef, AttributeNode(e, a));
    }
  }

  /** Two attributes of one element: namespaces first, else a scan of the list from a on. */
  method SameElement(attrs: Attrs, e: ElementId, a: AttributeId, b: AttributeId, ghost d: Doc) returns (r: bool)
    requires DocOk(d) && d.attrs == attrs && Present(d, AttributeNode(e, a)) && Present(d, AttributeNode(e, b))
          && a != b
    ensures r <==> Before(d, AttributeNode(e, a), AttributeNode(e, b))
  {
    hide DocOk, Under, Before, ListOk, Over;
    AttrFacts(d, e);
    TotalOrder(d, AttributeNode(e, a), AttributeNode(e, b));
    if attrs[a].namespaceAlias && !attrs[b].namespaceAlias {
      NamespacesFirst(d, e, a, b);
      return true;
    }
    if !attrs[a].namespaceAlias && attrs[b].namespaceAlias {
      NamespacesFirst(d, e, b, a);
      return false;
    }
    ghost var j, k;
    r, j, k := ScanList(attrs, d.lists[e], a, b);
    if r {
      ListOrder(d, e, j, k);
    } else {
      ListOrder(d, e, k, j);
    }
  }

  /** Whether b is behind a in an attribute list. */
  method ScanList(attrs: Attrs, ghost l: seq<AttributeId>, a: AttributeId, b: AttributeId)
      returns (r: bool, ghost j: nat, ghost k: nat)
    requires ListOk(attrs, l) && a in l && b in l && a != b
    ensures j < |l| && l[j] == a && k < |l| && l[k] == b && (if r then j < k else k < j)
  {
    hide ListOk;
    j :| 0 <= j < |l| && l[j] == a;
    k :| 0 <= k < |l| && l[k] == b;
    ghost var m: nat := j;
    var attr := a;
    while attr != 0
      invariant j <= m <= |l| && attr == At(l, m) && forall i :: j <= i < m ==> l[i] != b
      decreases |l| - m
    {
      if attr == b {
        return true, j, m;
      }
      ListStep(attrs, l, m);
      attr := attrs[attr].next;
      m := m + 1;
    }
    ListEnd(attrs, l, m);
    return false, j, k;
  }

  lemma ListStep(attrs: Attrs, l: seq<AttributeId>, m: nat)
    requires ListOk(attrs, l) && At(l, m) != 0
    ensures m < |l| && l[m] in attrs && attrs[l[m]].next == At(l, m + 1)
  {
  }

  lemma ListEnd(attrs: Attrs, l: seq<AttributeId>, m: nat)
    requires ListOk(attrs, l) && m <= |l| && At(l, m) == 0
    ensures m == |l|
  {
  }

  lemma AttrFacts(d: Doc, e: ElementId)
    requires DocOk(d) && e in d.nodes
    ensures e in d.lists && ListOk(d.attrs, d.lists[e]) && forall a :: a in d.lists[e] ==> a in d.attrs
  {
  }
}
