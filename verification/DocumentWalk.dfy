/** Document order: an element, its namespace attributes, its other attributes, its children. */
module DocumentWalk {
  import opened DomTree
  import opened DomViews

  type AttributeId = nat

  datatype Attr = Attr(namespaceAlias: bool, next: AttributeId)

  type Attrs = map<AttributeId, Attr>

  datatype NodeRef = ElementNode(element: ElementId) | AttributeNode(element: ElementId, attr: AttributeId)

  /** A document: the linked segments, with the lists that the links stand for. */
  datatype Doc = Doc(nodes: Nodes, attrs: Attrs, kids: Kids, rank: Rank, lists: map<ElementId, seq<AttributeId>>,
      root: ElementId)

  ghost predicate ListOk(attrs: Attrs, list: seq<AttributeId>) {
    && (forall k :: 0 <= k < |list| ==> list[k] != 0 && list[k] in attrs && attrs[list[k]].next == At(list, k + 1))
    && (forall j, k :: 0 <= j < k < |list| ==> list[j] != list[k])
  }

  ghost predicate DocOk(d: Doc) {
    && TreeOk(d.nodes, d.kids, d.rank) && d.root in d.nodes && d.nodes[d.root].father == 0
    && (forall e :: e in d.nodes ==> e in d.lists && ListOk(d.attrs, d.lists[e]))
  }

  ghost predicate In(d: Doc, r: NodeRef) {
    r.element in d.nodes && (r.AttributeNode? ==> r.element in d.lists && r.attr in d.lists[r.element])
  }

  ghost predicate Over(d: Doc, p: ElementId, e: ElementId)
    requires DocOk(d)
  {
    Under(d.nodes, d.rank, p, e)
  }

  // ----- ancestors -----

  lemma KidFacts(d: Doc, p: ElementId, k: nat)
    requires DocOk(d) && p in d.nodes && k < |d.kids[p]|
    ensures var c := d.kids[p][k];
            && c in d.nodes && c != p && p != 0 && d.nodes[c].father == p && c in d.kids && p in d.kids
            && p in d.rank && c in d.rank && d.rank[p] < d.rank[c] <= Top(d.rank) && Over(d, p, c)
            && d.nodes[c].elder == At(d.kids[p], k - 1) && d.nodes[c].younger == At(d.kids[p], k + 1)
  {
    assert FatherOk(d.nodes, d.kids, p);
    assert ChildOk(d.nodes, p, d.kids[p], k);
    assert Over(d, p, p);
  }

  lemma SameKid(d: Doc, p: ElementId, j: nat, k: nat)
    requires DocOk(d) && p in d.nodes && p in d.kids && j < |d.kids[p]| && k < |d.kids[p]|
          && d.kids[p][j] == d.kids[p][k]
    ensures j == k
  {
    assert FatherOk(d.nodes, d.kids, p);
  }

  lemma {:induction false} OverRank(d: Doc, p: ElementId, e: ElementId)
    requires DocOk(d) && e in d.nodes && Over(d, p, e) && p != e
    ensures p in d.nodes && p in d.rank && e in d.rank && d.rank[p] < d.rank[e] && d.nodes[e].father in d.nodes
          && Over(d, p, d.nodes[e].father)
    decreases d.rank[e]
  {
    FatherIn(d.nodes, d.kids, d.rank, e);
    if d.nodes[e].father != p {
      OverRank(d, p, d.nodes[e].father);
    }
  }

  lemma {:induction false} OverTrans(d: Doc, a: ElementId, b: ElementId, e: ElementId)
    requires DocOk(d) && Over(d, a, b) && Over(d, b, e) && e in d.nodes
    ensures Over(d, a, e)
    decreases d.rank[e]
  {
    if e != b {
      OverRank(d, b, e);
      FatherIn(d.nodes, d.kids, d.rank, e);
      OverTrans(d, a, b, d.nodes[e].father);
    }
  }

  /** The ancestors of an element form a chain. */
  lemma {:induction false} OverChain(d: Doc, a: ElementId, b: ElementId, e: ElementId)
    requires DocOk(d) && e in d.nodes && a in d.nodes && b in d.nodes && Over(d, a, e) && Over(d, b, e)
          && d.rank[a] <= d.rank[b]
    ensures Over(d, a, b)
    decreases d.rank[e]
  {
    if e != b {
      OverRank(d, b, e);
      if e != a {
        OverRank(d, a, e);
        FatherIn(d.nodes, d.kids, d.rank, e);
        OverChain(d, a, b, d.nodes[e].father);
      }
    }
  }

  /** Subtrees of different children are disjoint. */
  lemma OneKid(d: Doc, p: ElementId, j: nat, k: nat, e: ElementId)
    requires DocOk(d) && p in d.nodes && j < |d.kids[p]| && k < |d.kids[p]| && e in d.nodes
    requires Over(d, d.kids[p][j], e) && Over(d, d.kids[p][k], e)
    ensures j == k
  {
    hide Under;
    var a, b := d.kids[p][j], d.kids[p][k];
    KidFacts(d, p, j);
    KidFacts(d, p, k);
    if a == b {
      assert FatherOk(d.nodes, d.kids, p);
    } else if d.rank[a] <= d.rank[b] {
      OverChain(d, a, b, e);
      OverRank(d, a, b);
      if a != p {
        OverRank(d, a, p);
      }
    } else {
      OverChain(d, b, a, e);
      OverRank(d, b, a);
      if b != p {
        OverRank(d, b, p);
      }
    }
  }

  /** Which child of p is e, or above e. */
  lemma {:induction false} KidToward(d: Doc, p: ElementId, e: ElementId) returns (k: nat)
    requires DocOk(d) && p in d.nodes && e in d.nodes && Over(d, p, e) && p != e
    ensures k < |d.kids[p]| && Over(d, d.kids[p][k], e)
    decreases d.rank[e]
  {
    OverRank(d, p, e);
    FatherIn(d.nodes, d.kids, d.rank, e);
    var f := d.nodes[e].father;
    if f == p {
      k :| 0 <= k < |d.kids[p]| && d.kids[p][k] == e;
    } else {
      k := KidToward(d, p, f);
    }
  }

  // ----- preorder -----

  ghost function Select(d: Doc, list: seq<AttributeId>, namespaces: bool): seq<AttributeId> {
    if list == [] then []
    else
      (if list[0] in d.attrs && d.attrs[list[0]].namespaceAlias == namespaces then [list[0]] else [])
      + Select(d, list[1..], namespaces)
  }

  ghost function AttrNodes(e: ElementId, list: seq<AttributeId>): seq<NodeRef> {
    seq(|list|, k requires 0 <= k < |list| => AttributeNode(e, list[k]))
  }

  ghost function Head(d: Doc, p: ElementId): seq<NodeRef>
    requires p in d.lists
  {
    [ElementNode(p)] + AttrNodes(p, Select(d, d.lists[p], true)) + AttrNodes(p, Select(d, d.lists[p], false))
  }

  ghost function Preorder(d: Doc, p: ElementId): seq<NodeRef>
    requires DocOk(d) && p in d.nodes
    decreases Top(d.rank) - d.rank[p], 1, 0
  {
    Head(d, p) + PreorderFrom(d, p, 0)
  }

  /** The children of p from the k-th on. */
  ghost function PreorderFrom(d: Doc, p: ElementId, k: nat): seq<NodeRef>
    requires DocOk(d) && p in d.nodes && k <= |d.kids[p]|
    decreases Top(d.rank) - d.rank[p], 0, |d.kids[p]| - k
  {
    if k == |d.kids[p]| then []
    else
      KidFacts(d, p, k);
      Preorder(d, d.kids[p][k]) + PreorderFrom(d, p, k + 1)
  }

  ghost predicate Precedes(s: seq<NodeRef>, a: NodeRef, b: NodeRef) {
    exists i, j :: 0 <= i < j < |s| && s[i] == a && s[j] == b
  }

  /** a comes before b in the document. */
  ghost predicate Before(d: Doc, a: NodeRef, b: NodeRef)
    requires DocOk(d)
  {
    Precedes(Preorder(d, d.root), a, b)
  }

  // ----- what a preorder holds -----

  lemma {:induction false} Selected(d: Doc, list: seq<AttributeId>, namespaces: bool, a: AttributeId)
    ensures a in Select(d, list, namespaces) <==> a in list && a in d.attrs && d.attrs[a].namespaceAlias == namespaces
  {
    if list != [] {
      Selected(d, list[1..], namespaces, a);
      assert list == [list[0]] + list[1..];
    }
  }

  lemma HeadMembers(d: Doc, p: ElementId, r: NodeRef)
    requires DocOk(d) && p in d.nodes
    ensures r in Head(d, p) <==> In(d, r) && r.element == p
  {
    var ns, rest := Select(d, d.lists[p], true), Select(d, d.lists[p], false);
    AttrMembers(p, ns, r);
    AttrMembers(p, rest, r);
    if r.AttributeNode? {
      Selected(d, d.lists[p], true, r.attr);
      Selected(d, d.lists[p], false, r.attr);
    }
  }

  lemma AttrMembers(e: ElementId, list: seq<AttributeId>, r: NodeRef)
    ensures r in AttrNodes(e, list) <==> r.AttributeNode? && r.element == e && r.attr in list
  {
    if r.AttributeNode? && r.element == e && r.attr in list {
      var k :| 0 <= k < |list| && list[k] == r.attr;
      assert AttrNodes(e, list)[k] == r;
    }
  }

  lemma {:induction false} Members(d: Doc, p: ElementId, r: NodeRef)
    requires DocOk(d) && p in d.nodes
    ensures r in Preorder(d, p) <==> In(d, r) && Over(d, p, r.element)
    decreases Top(d.rank) - d.rank[p], 1, 0
  {
    hide DocOk, Head, Under;
    InDoc(d, p);
    HeadMembers(d, p, r);
    MembersFrom(d, p, 0, r);
    if In(d, r) && Over(d, p, r.element) && r.element != p {
      var k := KidToward(d, p, r.element);
    }
    if r in PreorderFrom(d, p, 0) {
      var k :| 0 <= k < |d.kids[p]| && In(d, r) && Over(d, d.kids[p][k], r.element);
      KidFacts(d, p, k);
      OverTrans(d, p, d.kids[p][k], r.element);
    }
    OverSelf(d, p);
  }

  lemma InDoc(d: Doc, p: ElementId)
    requires DocOk(d) && p in d.nodes
    ensures p in d.kids && p in d.rank && p in d.lists && p != 0
  {
    assert FatherOk(d.nodes, d.kids, p);
  }

  lemma OverSelf(d: Doc, p: ElementId)
    requires DocOk(d)
    ensures Over(d, p, p)
  {
  }

  lemma FromFirst(d: Doc, p: ElementId, k: nat)
    requires DocOk(d) && p in d.nodes && k < |d.kids[p]|
    ensures d.kids[p][k] in d.nodes
    ensures PreorderFrom(d, p, k) == Preorder(d, d.kids[p][k]) + PreorderFrom(d, p, k + 1)
  {
    hide DocOk, Preorder, Over;
    KidFacts(d, p, k);
  }

  lemma FromNone(d: Doc, p: ElementId)
    requires DocOk(d) && p in d.nodes
    ensures PreorderFrom(d, p, |d.kids[p]|) == []
  {
    hide DocOk;
  }

  lemma {:induction false} MembersFrom(d: Doc, p: ElementId, k: nat, r: NodeRef)
    requires DocOk(d) && p in d.nodes && k <= |d.kids[p]|
    ensures r in PreorderFrom(d, p, k) <==>
          In(d, r) && exists j :: k <= j < |d.kids[p]| && Over(d, d.kids[p][j], r.element)
    decreases Top(d.rank) - d.rank[p], 0, |d.kids[p]| - k
  {
    hide DocOk, In, Over, Preorder, PreorderFrom;
    InDoc(d, p);
    if k < |d.kids[p]| {
      KidFacts(d, p, k);
      FromFirst(d, p, k);
      Members(d, d.kids[p][k], r);
      MembersFrom(d, p, k + 1, r);
    } else {
      FromNone(d, p);
    }
  }

  // ----- no node comes twice -----

  ghost predicate Distinct(s: seq<NodeRef>) {
    forall i, j :: 0 <= i < j < |s| ==> s[i] != s[j]
  }

  lemma DistinctJoin(a: seq<NodeRef>, b: seq<NodeRef>)
    requires Distinct(a) && Distinct(b) && forall r :: r in a ==> r !in b
    ensures Distinct(a + b)
  {
    forall i, j | 0 <= i < j < |a + b|
      ensures (a + b)[i] != (a + b)[j]
    {
      if i < |a| && j >= |a| {
        assert a[i] in a && b[j - |a|] in b;
      }
    }
  }

  lemma {:induction false} SelectDistinct(d: Doc, list: seq<AttributeId>, namespaces: bool)
    requires forall j, k :: 0 <= j < k < |list| ==> list[j] != list[k]
    ensures var s := Select(d, list, namespaces); forall j, k :: 0 <= j < k < |s| ==> s[j] != s[k]
  {
    if list != [] {
      SelectDistinct(d, list[1..], namespaces);
      Selected(d, list[1..], namespaces, list[0]);
    }
  }

  lemma AttrsDistinct(d: Doc, p: ElementId, namespaces: bool)
    requires DocOk(d) && p in d.nodes
    ensures Distinct(AttrNodes(p, Select(d, d.lists[p], namespaces)))
  {
    assert ListOk(d.attrs, d.lists[p]);
    SelectDistinct(d, d.lists[p], namespaces);
  }

  lemma HeadDistinct(d: Doc, p: ElementId)
    requires DocOk(d) && p in d.nodes
    ensures Distinct(Head(d, p))
  {
    var ns, rest := AttrNodes(p, Select(d, d.lists[p], true)), AttrNodes(p, Select(d, d.lists[p], false));
    AttrsDistinct(d, p, true);
    AttrsDistinct(d, p, false);
    forall r
      ensures r in ns ==> r.AttributeNode? && r !in rest
      ensures r in rest ==> r.AttributeNode?
    {
      AttrMembers(p, Select(d, d.lists[p], true), r);
      AttrMembers(p, Select(d, d.lists[p], false), r);
      if r.AttributeNode? {
        Selected(d, d.lists[p], true, r.attr);
        Selected(d, d.lists[p], false, r.attr);
      }
    }
    DistinctJoin([ElementNode(p)], ns);
    DistinctJoin([ElementNode(p)] + ns, rest);
  }

  lemma {:induction false} PreorderDistinct(d: Doc, p: ElementId)
    requires DocOk(d) && p in d.nodes
    ensures Distinct(Preorder(d, p))
    decreases Top(d.rank) - d.rank[p], 1, 0
  {
    hide DocOk, Head, Under;
    InDoc(d, p);
    HeadDistinct(d, p);
    FromDistinct(d, p, 0);
    forall r | r in Head(d, p)
      ensures r !in PreorderFrom(d, p, 0)
    {
      HeadApart(d, p, r);
    }
    DistinctJoin(Head(d, p), PreorderFrom(d, p, 0));
  }

  /** A node of p itself is in no child's preorder. */
  lemma HeadApart(d: Doc, p: ElementId, r: NodeRef)
    requires DocOk(d) && p in d.nodes && r in Head(d, p)
    ensures r !in PreorderFrom(d, p, 0)
  {
    hide DocOk, Head, Under;
    InDoc(d, p);
    HeadMembers(d, p, r);
    MembersFrom(d, p, 0, r);
    if r in PreorderFrom(d, p, 0) {
      var k :| 0 <= k < |d.kids[p]| && Over(d, d.kids[p][k], p);
      KidFacts(d, p, k);
      OverRank(d, d.kids[p][k], p);
    }
  }

  lemma {:induction false} FromDistinct(d: Doc, p: ElementId, k: nat)
    requires DocOk(d) && p in d.nodes && k <= |d.kids[p]|
    ensures Distinct(PreorderFrom(d, p, k))
    decreases Top(d.rank) - d.rank[p], 0, |d.kids[p]| - k
  {
    hide DocOk, Head, Under, Preorder;
    InDoc(d, p);
    if k < |d.kids[p]| {
      KidFacts(d, p, k);
      var c := d.kids[p][k];
      PreorderDistinct(d, c);
      FromDistinct(d, p, k + 1);
      forall r | r in Preorder(d, c)
        ensures r !in PreorderFrom(d, p, k + 1)
      {
        KidApart(d, p, k, r);
      }
      DistinctJoin(Preorder(d, c), PreorderFrom(d, p, k + 1));
    }
  }

  lemma KidApart(d: Doc, p: ElementId, k: nat, r: NodeRef)
    requires DocOk(d) && p in d.nodes && k < |d.kids[p]| && d.kids[p][k] in d.nodes && r in Preorder(d, d.kids[p][k])
    ensures r !in PreorderFrom(d, p, k + 1)
  {
    hide DocOk, Under, Preorder, PreorderFrom;
    InDoc(d, p);
    Members(d, d.kids[p][k], r);
    MembersFrom(d, p, k + 1, r);
    if r in PreorderFrom(d, p, k + 1) {
      var j :| k + 1 <= j < |d.kids[p]| && Over(d, d.kids[p][j], r.element);
      OneKid(d, p, j, k, r.element);
    }
  }

  // ----- document order is a strict total order -----

  lemma DistinctOrder(s: seq<NodeRef>, a: NodeRef, b: NodeRef)
    requires Distinct(s) && Precedes(s, a, b)
    ensures a != b && !Precedes(s, b, a)
  {
  }

  /** Of two different nodes of a document exactly one comes first, and no node comes before itself. */
  lemma TotalOrder(d: Doc, a: NodeRef, b: NodeRef)
    requires DocOk(d) && In(d, a) && In(d, b) && Over(d, d.root, a.element) && Over(d, d.root, b.element)
    ensures Before(d, a, b) <==> a != b && !Before(d, b, a)
  {
    var s := Preorder(d, d.root);
    Members(d, d.root, a);
    Members(d, d.root, b);
    PreorderDistinct(d, d.root);
    if Before(d, a, b) {
      DistinctOrder(s, a, b);
    } else if a != b {
      var i :| 0 <= i < |s| && s[i] == a;
      var j :| 0 <= j < |s| && s[j] == b;
    }
  }

  /** Before is transitive. */
  lemma OrderTrans(d: Doc, a: NodeRef, b: NodeRef, c: NodeRef)
    requires DocOk(d) && Before(d, a, b) && Before(d, b, c)
    ensures Before(d, a, c)
  {
    var s := Preorder(d, d.root);
    PreorderDistinct(d, d.root);
    var i, j :| 0 <= i < j < |s| && s[i] == a && s[j] == b;
    var k, l :| 0 <= k < l < |s| && s[k] == b && s[l] == c;
    assert j == k;
  }

  // ----- where the order comes from -----

  lemma PrecedesIn(left: seq<NodeRef>, s: seq<NodeRef>, right: seq<NodeRef>, a: NodeRef, b: NodeRef)
    requires Precedes(s, a, b)
    ensures Precedes(left + s + right, a, b)
  {
    var i, j :| 0 <= i < j < |s| && s[i] == a && s[j] == b;
    var t := left + s + right;
    assert t[|left| + i] == a && t[|left| + j] == b;
  }

  lemma PrecedesAcross(s: seq<NodeRef>, t: seq<NodeRef>, a: NodeRef, b: NodeRef)
    requires a in s && b in t
    ensures Precedes(s + t, a, b)
  {
    var i :| 0 <= i < |s| && s[i] == a;
    var j :| 0 <= j < |t| && t[j] == b;
    assert (s + t)[i] == a && (s + t)[|s| + j] == b;
  }

  /** What comes first among the nodes of a child comes first among the nodes of the father. */
  lemma PrecedesLeft(s: seq<NodeRef>, right: seq<NodeRef>, a: NodeRef, b: NodeRef)
    requires Precedes(s, a, b)
    ensures Precedes(s + right, a, b)
  {
    hide Precedes;
    PrecedesIn([], s, right, a, b);
    assert [] + s == s;
  }

  lemma PrecedesRight(left: seq<NodeRef>, s: seq<NodeRef>, a: NodeRef, b: NodeRef)
    requires Precedes(s, a, b)
    ensures Precedes(left + s, a, b)
  {
    hide Precedes;
    PrecedesIn(left, s, [], a, b);
    assert left + s + [] == left + s;
  }

  lemma {:induction false} FromKid(d: Doc, p: ElementId, k: nat, j: nat, a: NodeRef, b: NodeRef)
    requires DocOk(d) && p in d.nodes && k <= j < |d.kids[p]| && d.kids[p][j] in d.nodes
    requires Precedes(Preorder(d, d.kids[p][j]), a, b)
    ensures Precedes(PreorderFrom(d, p, k), a, b)
    decreases j - k
  {
    hide DocOk, Precedes, Preorder, PreorderFrom;
    InDoc(d, p);
    KidFacts(d, p, k);
    FromFirst(d, p, k);
    var c, rest := Preorder(d, d.kids[p][k]), PreorderFrom(d, p, k + 1);
    if k == j {
      PrecedesLeft(c, rest, a, b);
    } else {
      FromKid(d, p, k + 1, j, a, b);
      PrecedesRight(c, rest, a, b);
    }
  }

  lemma UpOne(d: Doc, c: ElementId, a: NodeRef, b: NodeRef)
    requires DocOk(d) && c in d.nodes && d.nodes[c].father != 0 && Precedes(Preorder(d, c), a, b)
    ensures d.nodes[c].father in d.nodes && Precedes(Preorder(d, d.nodes[c].father), a, b)
  {
    hide Precedes, Under;
    var p := d.nodes[c].father;
    FatherIn(d.nodes, d.kids, d.rank, c);
    var j :| 0 <= j < |d.kids[p]| && d.kids[p][j] == c;
    FromKid(d, p, 0, j, a, b);
    PrecedesIn(Head(d, p), PreorderFrom(d, p, 0), [], a, b);
    assert Head(d, p) + PreorderFrom(d, p, 0) + [] == Preorder(d, p);
  }

  /** What comes first below p comes first in the document. */
  lemma {:induction false} UpToRoot(d: Doc, p: ElementId, a: NodeRef, b: NodeRef)
    requires DocOk(d) && p in d.nodes && Over(d, d.root, p) && Precedes(Preorder(d, p), a, b)
    ensures Before(d, a, b)
    decreases d.rank[p]
  {
    hide Precedes, Under, Preorder;
    if p != d.root {
      OverRank(d, d.root, p);
      InDoc(d, d.nodes[p].father);
      FatherIn(d.nodes, d.kids, d.rank, p);
      UpOne(d, p, a, b);
      UpToRoot(d, d.nodes[p].father, a, b);
    }
  }

  /** An element comes before everything else at and below it. */
  lemma ElementFirst(d: Doc, p: ElementId, b: NodeRef)
    requires DocOk(d) && Over(d, d.root, b.element) && In(d, b) && Over(d, p, b.element) && b != ElementNode(p)
          && p in d.nodes
    ensures Before(d, ElementNode(p), b)
  {
    hide DocOk, Precedes, Under;
    Members(d, p, b);
    HeadMembers(d, p, b);
    InDoc(d, p);
    var tail := AttrNodes(p, Select(d, d.lists[p], true)) + AttrNodes(p, Select(d, d.lists[p], false));
    assert Preorder(d, p) == [ElementNode(p)] + (tail + PreorderFrom(d, p, 0));
    PrecedesAcross([ElementNode(p)], tail + PreorderFrom(d, p, 0), ElementNode(p), b);
    RootOver(d, p, b.element);
    UpToRoot(d, p, ElementNode(p), b);
  }

  /** An ancestor of an element below the root is below the root. */
  lemma RootOver(d: Doc, p: ElementId, e: ElementId)
    requires DocOk(d) && p in d.nodes && e in d.nodes && Over(d, d.root, e) && Over(d, p, e)
    ensures Over(d, d.root, p)
  {
    hide Under;
    InDoc(d, p);
    if d.rank[d.root] <= d.rank[p] {
      OverChain(d, d.root, p, e);
    } else {
      OverChain(d, p, d.root, e);
      if p != d.root {
        OverRank(d, p, d.root);
      }
    }
  }

  /** Everything at an element comes before everything below its children. */
  lemma HeadFirst(d: Doc, p: ElementId, a: NodeRef, b: NodeRef)
    requires DocOk(d) && p in d.nodes && In(d, a) && a.element == p && In(d, b) && b.element != p
          && Over(d, p, b.element) && Over(d, d.root, p)
    ensures Before(d, a, b)
  {
    hide DocOk, Precedes, Under, Head;
    InDoc(d, p);
    HeadMembers(d, p, a);
    HeadMembers(d, p, b);
    Members(d, p, b);
    PrecedesAcross(Head(d, p), PreorderFrom(d, p, 0), a, b);
    UpToRoot(d, p, a, b);
  }

  /** Everything below an earlier child comes before everything below a later one. */
  lemma KidsInOrder(d: Doc, p: ElementId, j: nat, k: nat, a: NodeRef, b: NodeRef)
    requires DocOk(d) && p in d.nodes && Over(d, d.root, p) && j < k < |d.kids[p]| && In(d, a) && In(d, b)
    requires Over(d, d.kids[p][j], a.element) && Over(d, d.kids[p][k], b.element)
    ensures Before(d, a, b)
  {
    hide DocOk, Precedes, Under, Head;
    InDoc(d, p);
    KidsApart(d, p, 0, j, k, a, b);
    PrecedesIn(Head(d, p), PreorderFrom(d, p, 0), [], a, b);
    assert Head(d, p) + PreorderFrom(d, p, 0) + [] == Preorder(d, p);
    UpToRoot(d, p, a, b);
  }

  lemma {:induction false} KidsApart(d: Doc, p: ElementId, i: nat, j: nat, k: nat, a: NodeRef, b: NodeRef)
    requires DocOk(d) && p in d.nodes && i <= j < k < |d.kids[p]| && In(d, a) && In(d, b)
    requires Over(d, d.kids[p][j], a.element) && Over(d, d.kids[p][k], b.element)
    ensures Precedes(PreorderFrom(d, p, i), a, b)
    decreases j - i
  {
    hide DocOk, Precedes, Under, Head, Preorder;
    InDoc(d, p);
    KidFacts(d, p, i);
    var c := d.kids[p][i];
    if i == j {
      Members(d, c, a);
      MembersFrom(d, p, i + 1, b);
      PrecedesAcross(Preorder(d, c), PreorderFrom(d, p, i + 1), a, b);
    } else {
      KidsApart(d, p, i + 1, j, k, a, b);
      PrecedesIn(Preorder(d, c), PreorderFrom(d, p, i + 1), [], a, b);
      assert Preorder(d, c) + PreorderFrom(d, p, i + 1) + [] == PreorderFrom(d, p, i);
    }
  }

  /** Namespace attributes come before the other attributes of an element. */
  lemma NamespacesFirst(d: Doc, e: ElementId, a: AttributeId, b: AttributeId)
    requires DocOk(d) && e in d.nodes && Over(d, d.root, e) && a in d.lists[e] && b in d.lists[e]
    requires a in d.attrs && b in d.attrs && d.attrs[a].namespaceAlias && !d.attrs[b].namespaceAlias
    ensures Before(d, AttributeNode(e, a), AttributeNode(e, b))
  {
    hide DocOk, Precedes, Under, Select, AttrNodes;
    InDoc(d, e);
    var ns, rest := AttrNodes(e, Select(d, d.lists[e], true)), AttrNodes(e, Select(d, d.lists[e], false));
    Selected(d, d.lists[e], true, a);
    Selected(d, d.lists[e], false, b);
    AttrMembers(e, Select(d, d.lists[e], true), AttributeNode(e, a));
    AttrMembers(e, Select(d, d.lists[e], false), AttributeNode(e, b));
    PrecedesAcross([ElementNode(e)] + ns, rest + PreorderFrom(d, e, 0), AttributeNode(e, a), AttributeNode(e, b));
    assert [ElementNode(e)] + ns + (rest + PreorderFrom(d, e, 0)) == Preorder(d, e);
    UpToRoot(d, e, AttributeNode(e, a), AttributeNode(e, b));
  }

  /** Attributes of the same sort come in the order of the attribute list. */
  lemma ListOrder(d: Doc, e: ElementId, j: nat, k: nat)
    requires DocOk(d) && e in d.nodes && Over(d, d.root, e) && j < k < |d.lists[e]|
    requires d.lists[e][j] in d.attrs && d.lists[e][k] in d.attrs
          && d.attrs[d.lists[e][j]].namespaceAlias == d.attrs[d.lists[e][k]].namespaceAlias
    ensures Before(d, AttributeNode(e, d.lists[e][j]), AttributeNode(e, d.lists[e][k]))
  {
    hide DocOk, Precedes, Under, Select, AttrNodes;
    InDoc(d, e);
    var l, n := d.lists[e], d.attrs[d.lists[e][j]].namespaceAlias;
    var a, b := AttributeNode(e, l[j]), AttributeNode(e, l[k]);
    var ns, rest := AttrNodes(e, Select(d, l, true)), AttrNodes(e, Select(d, l, false));
    SelectOrder(d, l, n, j, k);
    AttrOrder(e, Select(d, l, n), l[j], l[k]);
    if n {
      PrecedesIn([ElementNode(e)], ns, rest + PreorderFrom(d, e, 0), a, b);
      assert [ElementNode(e)] + ns + (rest + PreorderFrom(d, e, 0)) == Preorder(d, e);
    } else {
      PrecedesIn([ElementNode(e)] + ns, rest, PreorderFrom(d, e, 0), a, b);
      assert [ElementNode(e)] + ns + rest + PreorderFrom(d, e, 0) == Preorder(d, e);
    }
    UpToRoot(d, e, a, b);
  }

  ghost predicate Earlier(s: seq<AttributeId>, a: AttributeId, b: AttributeId) {
    exists i, j :: 0 <= i < j < |s| && s[i] == a && s[j] == b
  }

  lemma AttrOrder(e: ElementId, s: seq<AttributeId>, a: AttributeId, b: AttributeId)
    requires Earlier(s, a, b)
    ensures Precedes(AttrNodes(e, s), AttributeNode(e, a), AttributeNode(e, b))
  {
    var i, j :| 0 <= i < j < |s| && s[i] == a && s[j] == b;
    assert AttrNodes(e, s)[i] == AttributeNode(e, a) && AttrNodes(e, s)[j] == AttributeNode(e, b);
  }

  lemma {:induction false} SelectOrder(d: Doc, list: seq<AttributeId>, namespaces: bool, j: nat, k: nat)
    requires j < k < |list| && list[j] in d.attrs && list[k] in d.attrs
    requires d.attrs[list[j]].namespaceAlias == namespaces && d.attrs[list[k]].namespaceAlias == namespaces
    ensures Earlier(Select(d, list, namespaces), list[j], list[k])
  {
    var rest := Select(d, list[1..], namespaces);
    if j > 0 {
      SelectOrder(d, list[1..], namespaces, j - 1, k - 1);
      var i, m :| 0 <= i < m < |rest| && rest[i] == list[j] && rest[m] == list[k];
      var skip := |Select(d, list, namespaces)| - |rest|;
      assert Select(d, list, namespaces)[i + skip] == list[j] && Select(d, list, namespaces)[m + skip] == list[k];
    } else {
      Selected(d, list[1..], namespaces, list[k]);
      assert list[1..][k - 1] == list[k];
      var m :| 0 <= m < |rest| && rest[m] == list[k];
      assert Select(d, list, namespaces)[0] == list[0] && Select(d, list, namespaces)[m + 1] == list[k];
    }
  }
}
