/** The links of a document tree, and what linking and unlinking an element does to them. */
module DomTree {

  type ElementId = nat  // 0 is no element

  /** The kind that key and flags of an element make. A hollow comment or processing instruction has the key of one, but
      has children and no text. */
  datatype Kind = Regular | Text | Comment | ProcessingInstruction | HollowComment | HollowInstruction

  /** An element that has a text, and no children. */
  predicate Textual(kind: Kind) {
    kind.Text? || kind.Comment? || kind.ProcessingInstruction?
  }

  predicate Hollow(kind: Kind) {
    kind.HollowComment? || kind.HollowInstruction?
  }

  /** What createElement makes, given the key of an element: the only textual nodes that it makes are text nodes. */
  function MadeFrom(kind: Kind): Kind {
    match kind
    case Comment => HollowComment
    case ProcessingInstruction => HollowInstruction
    case _ => kind
  }

  /** ElementSegment: the links to father, siblings and children, and the text of a textual node. */
  datatype Node = Node(kind: Kind, father: ElementId, elder: ElementId, younger: ElementId, child: ElementId,
      lastChild: ElementId, text: string)

  type Nodes = map<ElementId, Node>
  type Kids = map<ElementId, seq<ElementId>>   // the child lists, in order
  type Rank = map<ElementId, nat>              // a number that grows from father to child

  ghost function At(s: seq<ElementId>, k: int): ElementId {
    if 0 <= k < |s| then s[k] else 0
  }

  /** Child k of p: linked to its father and both siblings. */
  ghost predicate ChildOk(nodes: Nodes, p: ElementId, kids: seq<ElementId>, k: nat)
    requires k < |kids|
  {
    var c := kids[k];
    && c != 0 && c in nodes
    && nodes[c].father == p && nodes[c].elder == At(kids, k - 1) && nodes[c].younger == At(kids, k + 1)
  }

  /** The first and last child of p are the ends of its child list; a textual node has no children. */
  ghost predicate FatherOk(nodes: Nodes, kids: Kids, p: ElementId) {
    && p in nodes && p in kids && p != 0
    && nodes[p].child == At(kids[p], 0) && nodes[p].lastChild == At(kids[p], |kids[p]| - 1)
    && (Textual(nodes[p].kind) ==> kids[p] == [])
    && (forall k :: 0 <= k < |kids[p]| ==> ChildOk(nodes, p, kids[p], k))
    && (forall j, k :: 0 <= j < k < |kids[p]| ==> kids[p][j] != kids[p][k])
  }

  /** An element with a father is in its child list; one without has no siblings. */
  ghost predicate LinkedOk(nodes: Nodes, kids: Kids, c: ElementId)
    requires c in nodes
  {
    if nodes[c].father == 0 then nodes[c].elder == 0 && nodes[c].younger == 0
    else nodes[c].father in kids && c in kids[nodes[c].father]
  }

  /** Fathers come before children: there is no cycle. */
  ghost predicate Acyclic(nodes: Nodes, rank: Rank) {
    forall c :: c in nodes ==>
        c in rank && (nodes[c].father != 0 ==> nodes[c].father in rank && rank[nodes[c].father] < rank[c])
  }

  ghost predicate TreeOk(nodes: Nodes, kids: Kids, rank: Rank) {
    && (forall p :: p in kids <==> p in nodes)
    && (forall p :: p in nodes ==> FatherOk(nodes, kids, p) && LinkedOk(nodes, kids, p))
    && Acyclic(nodes, rank)
  }

  // ----- ancestors -----

  /** n is x or below it. */
  ghost predicate Under(nodes: Nodes, rank: Rank, x: ElementId, n: ElementId)
    requires Acyclic(nodes, rank)
    decreases if n in rank then rank[n] else 0
  {
    n == x || (n in nodes && nodes[n].father != 0 && nodes[n].father in nodes && Under(nodes, rank, x, nodes[n].father))
  }

  lemma FatherIn(nodes: Nodes, kids: Kids, rank: Rank, c: ElementId)
    requires TreeOk(nodes, kids, rank) && c in nodes && nodes[c].father != 0
    ensures nodes[c].father in nodes && c in kids[nodes[c].father] && rank[nodes[c].father] < rank[c]
    ensures !Textual(nodes[nodes[c].father].kind)
  {
    assert FatherOk(nodes, kids, nodes[c].father);
  }

  // ----- linking a detached element in -----

  ghost function InsertAt(s: seq<ElementId>, n: nat, x: ElementId): seq<ElementId>
    requires n <= |s|
  {
    s[..n] + [x] + s[n..]
  }

  /** The links after x has come between `elder` and `younger` under father f. */
  ghost function Linked(nodes: Nodes, f: ElementId, elder: ElementId, younger: ElementId, x: ElementId): Nodes {
    map c | c in nodes :: LinkedNode(nodes[c], c, f, elder, younger, x)
  }

  ghost function LinkedNode(m: Node, c: ElementId, f: ElementId, elder: ElementId, younger: ElementId,
      x: ElementId): Node
  {
    if c == x then m.(father := f, elder := elder, younger := younger)
    else m.(younger := if c == elder then x else m.younger,
            elder := if c == younger then x else m.elder,
            child := if c == f && elder == 0 then x else m.child,
            lastChild := if c == f && younger == 0 then x else m.lastChild)
  }

  ghost predicate Detached(nodes: Nodes, x: ElementId) {
    x in nodes && nodes[x].father == 0
  }

  /** x may be hung under f: it is detached, f can have children, and f is not inside x. */
  ghost predicate CanHang(nodes: Nodes, kids: Kids, rank: Rank, f: ElementId, x: ElementId) {
    TreeOk(nodes, kids, rank) && Detached(nodes, x) && f in nodes && !Textual(nodes[f].kind)
        && !Under(nodes, rank, x, f)
  }

  ghost function RankAfter(nodes: Nodes, rank: Rank, f: ElementId, x: ElementId): Rank
    requires Acyclic(nodes, rank)
  {
    map n | n in rank :: if Under(nodes, rank, x, n) then rank[n] + (if f in rank then rank[f] else 0) + 1 else rank[n]
  }

  lemma {:induction false} UnderSame(nodes: Nodes, nodes': Nodes, rank: Rank, x: ElementId, n: ElementId)
    requires Acyclic(nodes, rank) && (forall c :: c in nodes' <==> c in nodes) && Acyclic(nodes', rank)
    requires forall c :: c in nodes && c != x ==> nodes'[c].father == nodes[c].father
    ensures Under(nodes', rank, x, n) == Under(nodes, rank, x, n)
    decreases if n in rank then rank[n] else 0
  {
    if n != x && n in nodes && nodes[n].father != 0 && nodes[n].father in nodes {
      UnderSame(nodes, nodes', rank, x, nodes[n].father);
    }
  }

  lemma LinkAcyclic(nodes: Nodes, kids: Kids, rank: Rank, f: ElementId, x: ElementId, nodes': Nodes)
    requires CanHang(nodes, kids, rank, f, x) && (forall c :: c in nodes' <==> c in nodes)
    requires nodes'[x].father == f && forall c :: c in nodes && c != x ==> nodes'[c].father == nodes[c].father
    ensures Acyclic(nodes', RankAfter(nodes, rank, f, x))
  {
    hide FatherOk, LinkedOk;
    var rank' := RankAfter(nodes, rank, f, x);
    forall c | c in nodes'
      ensures c in rank' && (nodes'[c].father != 0 ==> nodes'[c].father in rank' && rank'[nodes'[c].father] < rank'[c])
    {
      if c != x && nodes[c].father != 0 {
        FatherIn(nodes, kids, rank, c);
      }
    }
  }

  lemma LinkFather(nodes: Nodes, kids: Kids, rank: Rank, f: ElementId, x: ElementId, n: nat)
    requires CanHang(nodes, kids, rank, f, x) && n <= |kids[f]| && f != x
    ensures FatherOk(Linked(nodes, f, At(kids[f], n - 1), At(kids[f], n), x), kids[f := InsertAt(kids[f], n, x)], f)
  {
    hide LinkedOk, Acyclic, ChildOk, Linked;
    var s, s' := kids[f], InsertAt(kids[f], n, x);
    var nodes' := Linked(nodes, f, At(s, n - 1), At(s, n), x);
    assert FatherOk(nodes, kids, f);
    NotListed(nodes, kids, rank, f, x);
    InsertApart(s, n, x);
    NewEnds(nodes, kids, rank, f, x, n);
    forall k | 0 <= k < |s'|
      ensures ChildOk(nodes', f, s', k)
    {
      LinkChild(nodes, kids, rank, f, x, n, k);
    }
  }

  lemma InsertApart(s: seq<ElementId>, n: nat, x: ElementId)
    requires n <= |s| && x !in s && forall j, k :: 0 <= j < k < |s| ==> s[j] != s[k]
    ensures var t := InsertAt(s, n, x); forall j, k :: 0 <= j < k < |t| ==> t[j] != t[k]
  {
    var t := InsertAt(s, n, x);
    forall j, k | 0 <= j < k < |t|
      ensures t[j] != t[k]
    {
      assert j != n ==> t[j] == s[if j < n then j else j - 1];
      assert k != n ==> t[k] == s[if k < n then k else k - 1];
    }
  }

  /** The first and last child after linking. */
  lemma NewEnds(nodes: Nodes, kids: Kids, rank: Rank, f: ElementId, x: ElementId, n: nat)
    requires CanHang(nodes, kids, rank, f, x) && n <= |kids[f]| && f != x
    ensures var (nodes', s') := (Linked(nodes, f, At(kids[f], n - 1), At(kids[f], n), x), InsertAt(kids[f], n, x));
            && f in nodes' && f != 0 && nodes'[f].kind == nodes[f].kind
            && nodes'[f].child == At(s', 0) && nodes'[f].lastChild == At(s', |s'| - 1)
  {
    hide LinkedOk, Acyclic;
    var s := kids[f];
    assert FatherOk(nodes, kids, f);
    assert n > 0 ==> ChildOk(nodes, f, s, n - 1);
    assert n < |s| ==> ChildOk(nodes, f, s, n);
    NotListed(nodes, kids, rank, f, f);
  }

  /** A detached element is in no child list, and no element is its own child. */
  lemma NotListed(nodes: Nodes, kids: Kids, rank: Rank, p: ElementId, x: ElementId)
    requires TreeOk(nodes, kids, rank) && p in nodes && (Detached(nodes, x) || x == p)
    ensures x !in kids[p]
  {
    assert FatherOk(nodes, kids, p);
    forall k | 0 <= k < |kids[p]|
      ensures kids[p][k] != x
    {
      assert ChildOk(nodes, p, kids[p], k);
    }
  }

  lemma LinkChild(nodes: Nodes, kids: Kids, rank: Rank, f: ElementId, x: ElementId, n: nat, k: nat)
    requires CanHang(nodes, kids, rank, f, x) && n <= |kids[f]| && f != x && k <= |kids[f]|
    requires FatherOk(nodes, kids, f)
    ensures ChildOk(Linked(nodes, f, At(kids[f], n - 1), At(kids[f], n), x), f, InsertAt(kids[f], n, x), k)
  {
    hide Acyclic, LinkedOk, TreeOk, Under;
    var s := kids[f];
    NoZero(nodes, kids, rank);
    assert n > 0 ==> ChildOk(nodes, f, s, n - 1);
    assert n < |s| ==> ChildOk(nodes, f, s, n);
    NotListed(nodes, kids, rank, f, x);
    NotListed(nodes, kids, rank, f, f);
    if k < n {
      assert ChildOk(nodes, f, s, k);
    } else if k > n {
      assert ChildOk(nodes, f, s, k - 1);
    }
  }

  lemma LinkOther(nodes: Nodes, kids: Kids, rank: Rank, f: ElementId, x: ElementId, n: nat, p: ElementId)
    requires CanHang(nodes, kids, rank, f, x) && n <= |kids[f]| && f != x && p in nodes && p != f
    ensures FatherOk(Linked(nodes, f, At(kids[f], n - 1), At(kids[f], n), x), kids[f := InsertAt(kids[f], n, x)], p)
  {
    var s := kids[f];
    var nodes' := Linked(nodes, f, At(s, n - 1), At(s, n), x);
    assert FatherOk(nodes, kids, p) && FatherOk(nodes, kids, f);
    NotListed(nodes, kids, rank, p, x);
    Neighbours(nodes, kids, f, n);
    hide FatherOk, LinkedOk;
    forall k | 0 <= k < |kids[p]|
      ensures ChildOk(nodes', p, kids[p], k)
    {
      assert ChildOk(nodes, p, kids[p], k);
    }
    SameEnds(nodes, f, At(s, n - 1), At(s, n), x, p);
    FatherAgain(nodes, nodes', kids, kids[f := InsertAt(s, n, x)], p);
  }

  lemma FatherAgain(nodes: Nodes, nodes': Nodes, kids: Kids, kids': Kids, p: ElementId)
    requires FatherOk(nodes, kids, p) && p in nodes' && p in kids' && kids'[p] == kids[p]
    requires nodes'[p].child == nodes[p].child && nodes'[p].lastChild == nodes[p].lastChild
          && nodes'[p].kind == nodes[p].kind
    requires forall k :: 0 <= k < |kids[p]| ==> ChildOk(nodes', p, kids[p], k)
    ensures FatherOk(nodes', kids', p)
  {
  }

  /** The siblings around place n are children of f. */
  lemma Neighbours(nodes: Nodes, kids: Kids, f: ElementId, n: nat)
    requires FatherOk(nodes, kids, f) && n <= |kids[f]|
    ensures f != 0
    ensures n > 0 ==> At(kids[f], n - 1) in nodes && nodes[At(kids[f], n - 1)].father == f
    ensures n < |kids[f]| ==> At(kids[f], n) in nodes && nodes[At(kids[f], n)].father == f
  {
    assert n > 0 ==> ChildOk(nodes, f, kids[f], n - 1);
    assert n < |kids[f]| ==> ChildOk(nodes, f, kids[f], n);
  }

  lemma SameEnds(nodes: Nodes, f: ElementId, elder: ElementId, younger: ElementId, x: ElementId, p: ElementId)
    requires f in nodes && x in nodes && p in nodes && p != f
    ensures var nodes' := Linked(nodes, f, elder, younger, x);
            p in nodes' && nodes'[p].child == nodes[p].child && nodes'[p].lastChild == nodes[p].lastChild
                && nodes'[p].kind == nodes[p].kind
  {
  }

  lemma LinkLinked(nodes: Nodes, kids: Kids, rank: Rank, f: ElementId, x: ElementId, n: nat, c: ElementId)
    requires CanHang(nodes, kids, rank, f, x) && n <= |kids[f]| && f != x && c in nodes
    ensures c in Linked(nodes, f, At(kids[f], n - 1), At(kids[f], n), x)
    ensures LinkedOk(Linked(nodes, f, At(kids[f], n - 1), At(kids[f], n), x), kids[f := InsertAt(kids[f], n, x)], c)
  {
    hide FatherOk, Acyclic, Under, InsertAt;
    assert LinkedOk(nodes, kids, c) && FatherOk(nodes, kids, f) && FatherOk(nodes, kids, c);
    Neighbours(nodes, kids, f, n);
    Neighbours(nodes, kids, c, 0);
    InsertedIn(kids[f], n, x);
  }

  lemma InsertedIn(s: seq<ElementId>, n: nat, x: ElementId)
    requires n <= |s|
    ensures x in InsertAt(s, n, x) && forall y :: y in s ==> y in InsertAt(s, n, x)
  {
    var t := InsertAt(s, n, x);
    assert t[n] == x;
    forall y | y in s
      ensures y in t
    {
      var i :| 0 <= i < |s| && s[i] == y;
      assert t[if i < n then i else i + 1] == y;
    }
  }

  /** Linking keeps the tree, and makes x element n of f's child list. */
  lemma LinkKeeps(nodes: Nodes, kids: Kids, rank: Rank, f: ElementId, x: ElementId, n: nat)
    requires CanHang(nodes, kids, rank, f, x) && n <= |kids[f]|
    ensures TreeOk(Linked(nodes, f, At(kids[f], n - 1), At(kids[f], n), x), kids[f := InsertAt(kids[f], n, x)],
          RankAfter(nodes, rank, f, x))
  {
    hide FatherOk, LinkedOk, Linked, InsertAt, RankAfter;
    var nodes' := Linked(nodes, f, At(kids[f], n - 1), At(kids[f], n), x);
    var kids' := kids[f := InsertAt(kids[f], n, x)];
    assert f != x;
    LinkedFathers(nodes, f, At(kids[f], n - 1), At(kids[f], n), x);
    LinkAcyclic(nodes, kids, rank, f, x, nodes');
    hide Acyclic;
    forall p | p in nodes'
      ensures FatherOk(nodes', kids', p) && LinkedOk(nodes', kids', p)
    {
      LinkLinked(nodes, kids, rank, f, x, n, p);
      if p == f {
        LinkFather(nodes, kids, rank, f, x, n);
      } else {
        LinkOther(nodes, kids, rank, f, x, n, p);
      }
    }
  }

  lemma LinkedFathers(nodes: Nodes, f: ElementId, elder: ElementId, younger: ElementId, x: ElementId)
    requires x in nodes
    ensures var nodes' := Linked(nodes, f, elder, younger, x);
            && (forall c :: c in nodes' <==> c in nodes) && nodes'[x].father == f
            && (forall c :: c in nodes && c != x ==> nodes'[c].father == nodes[c].father)
            && (forall c :: c in nodes ==> nodes'[c].text == nodes[c].text && nodes'[c].kind == nodes[c].kind)
  {
  }

  // ----- unlinking -----

  /** The links after x has gone from its place. */
  ghost function Unlinked(nodes: Nodes, x: ElementId): Nodes
    requires x in nodes
  {
    map c | c in nodes :: UnlinkedNode(nodes[c], c, x, nodes[x])
  }

  ghost function UnlinkedNode(m: Node, c: ElementId, x: ElementId, gone: Node): Node {
    if c == x then m.(father := 0, elder := 0, younger := 0)
    else m.(child := if c == gone.father && m.child == x then gone.younger else m.child,
            lastChild := if c == gone.father && m.lastChild == x then gone.elder else m.lastChild,
            younger := if c == gone.elder then gone.younger else m.younger,
            elder := if c == gone.younger then gone.elder else m.elder)
  }

  ghost function RemoveAt(s: seq<ElementId>, n: nat): seq<ElementId>
    requires n < |s|
  {
    s[..n] + s[n + 1..]
  }

  /** x is child n of its father. */
  ghost predicate ChildAt(nodes: Nodes, kids: Kids, rank: Rank, x: ElementId, n: nat) {
    && TreeOk(nodes, kids, rank) && x in nodes && nodes[x].father != 0 && nodes[x].father in nodes
    && nodes[x].father in kids
    && n < |kids[nodes[x].father]| && kids[nodes[x].father][n] == x
  }

  lemma PlaceOf(nodes: Nodes, kids: Kids, rank: Rank, x: ElementId) returns (n: nat)
    requires TreeOk(nodes, kids, rank) && x in nodes && nodes[x].father != 0
    ensures ChildAt(nodes, kids, rank, x, n)
  {
    FatherIn(nodes, kids, rank, x);
    n :| 0 <= n < |kids[nodes[x].father]| && kids[nodes[x].father][n] == x;
  }

  lemma UnlinkFacts(nodes: Nodes, kids: Kids, rank: Rank, x: ElementId, n: nat)
    requires ChildAt(nodes, kids, rank, x, n)
    ensures var (f, s) := (nodes[x].father, kids[nodes[x].father]);
            && f != x && x != 0 && nodes[x].elder == At(s, n - 1) && nodes[x].younger == At(s, n + 1)
            && (nodes[f].child == x <==> n == 0) && (nodes[f].lastChild == x <==> n == |s| - 1)
            && f !in s && FatherOk(nodes, kids, f) && 0 !in nodes
            && (nodes[x].elder in nodes <==> n > 0) && (nodes[x].younger in nodes <==> n + 1 < |s|)
            && (n > 0 ==> nodes[At(s, n - 1)].father == f) && (n + 1 < |s| ==> nodes[At(s, n + 1)].father == f)
            && nodes[x].elder != f && nodes[x].younger != f
  {
    var f := nodes[x].father;
    assert FatherOk(nodes, kids, f);
    FatherIn(nodes, kids, rank, x);
    NotListed(nodes, kids, rank, f, f);
    assert ChildOk(nodes, f, kids[f], n);
    assert n > 0 ==> ChildOk(nodes, f, kids[f], n - 1);
    assert n + 1 < |kids[f]| ==> ChildOk(nodes, f, kids[f], n + 1);
    NoZero(nodes, kids, rank);
  }

  lemma NoZero(nodes: Nodes, kids: Kids, rank: Rank)
    requires TreeOk(nodes, kids, rank)
    ensures 0 !in nodes
  {
    assert 0 in nodes ==> FatherOk(nodes, kids, 0);
  }

  lemma UnlinkChild(nodes: Nodes, kids: Kids, rank: Rank, x: ElementId, n: nat, k: nat)
    requires ChildAt(nodes, kids, rank, x, n) && k < |kids[nodes[x].father]| - 1
    ensures ChildOk(Unlinked(nodes, x), nodes[x].father, RemoveAt(kids[nodes[x].father], n), k)
  {
    hide Acyclic, LinkedOk;
    UnlinkFacts(nodes, kids, rank, x, n);
    var f, s := nodes[x].father, kids[nodes[x].father];
    assert ChildOk(nodes, f, s, if k < n then k else k + 1);
    assert s[if k < n then k else k + 1] != x;
  }

  lemma UnlinkFather(nodes: Nodes, kids: Kids, rank: Rank, x: ElementId, n: nat)
    requires ChildAt(nodes, kids, rank, x, n)
    ensures FatherOk(Unlinked(nodes, x), kids[nodes[x].father := RemoveAt(kids[nodes[x].father], n)], nodes[x].father)
  {
    hide TreeOk, ChildOk, Unlinked, RemoveAt, At;
    UnlinkFacts(nodes, kids, rank, x, n);
    var f, s := nodes[x].father, kids[nodes[x].father];
    var nodes', s' := Unlinked(nodes, x), RemoveAt(s, n);
    RemovedList(s, n);
    UnlinkedEnds(nodes, x, f);
    forall k | 0 <= k < |s'|
      ensures ChildOk(nodes', f, s', k)
    {
      UnlinkChild(nodes, kids, rank, x, n, k);
    }
  }

  lemma RemovedList(s: seq<ElementId>, n: nat)
    requires n < |s| && forall j, k :: 0 <= j < k < |s| ==> s[j] != s[k]
    ensures var t := RemoveAt(s, n);
            && |t| == |s| - 1 && (forall j, k :: 0 <= j < k < |t| ==> t[j] != t[k])
            && At(t, 0) == (if n == 0 then At(s, n + 1) else At(s, 0))
            && At(t, |t| - 1) == (if n == |s| - 1 then At(s, n - 1) else At(s, |s| - 1))
  {
    var t := RemoveAt(s, n);
    forall j | 0 <= j < |t|
      ensures t[j] == s[if j < n then j else j + 1]
    {
    }
  }

  lemma UnlinkedEnds(nodes: Nodes, x: ElementId, f: ElementId)
    requires x in nodes && f in nodes && f == nodes[x].father && f != x && nodes[x].elder != f && nodes[x].younger != f
    ensures var nodes' := Unlinked(nodes, x);
            && f in nodes' && nodes'[f].kind == nodes[f].kind
            && nodes'[f].child == (if nodes[f].child == x then nodes[x].younger else nodes[f].child)
            && nodes'[f].lastChild == (if nodes[f].lastChild == x then nodes[x].elder else nodes[f].lastChild)
  {
  }

  lemma UnlinkOther(nodes: Nodes, kids: Kids, rank: Rank, x: ElementId, n: nat, p: ElementId)
    requires ChildAt(nodes, kids, rank, x, n) && p in nodes && p != nodes[x].father
    ensures FatherOk(Unlinked(nodes, x), kids[nodes[x].father := RemoveAt(kids[nodes[x].father], n)], p)
  {
    UnlinkFacts(nodes, kids, rank, x, n);
    var f := nodes[x].father;
    var nodes' := Unlinked(nodes, x);
    assert FatherOk(nodes, kids, p);
    hide FatherOk, LinkedOk, Acyclic;
    forall k | 0 <= k < |kids[p]|
      ensures ChildOk(nodes', p, kids[p], k)
    {
      UnlinkElsewhere(nodes, kids, rank, x, n, p, k);
    }
    FatherAgain(nodes, nodes', kids, kids[f := RemoveAt(kids[f], n)], p);
  }

  lemma UnlinkElsewhere(nodes: Nodes, kids: Kids, rank: Rank, x: ElementId, n: nat, p: ElementId, k: nat)
    requires ChildAt(nodes, kids, rank, x, n) && p in nodes && p != nodes[x].father && p in kids && k < |kids[p]|
    ensures ChildOk(Unlinked(nodes, x), p, kids[p], k)
  {
    UnlinkFacts(nodes, kids, rank, x, n);
    assert FatherOk(nodes, kids, p);
    assert ChildOk(nodes, p, kids[p], k);
  }

  lemma UnlinkLinked(nodes: Nodes, kids: Kids, rank: Rank, x: ElementId, n: nat, c: ElementId)
    requires ChildAt(nodes, kids, rank, x, n) && c in nodes
    ensures c in Unlinked(nodes, x)
          && LinkedOk(Unlinked(nodes, x), kids[nodes[x].father := RemoveAt(kids[nodes[x].father], n)], c)
  {
    hide FatherOk, Acyclic, ChildOk;
    UnlinkFacts(nodes, kids, rank, x, n);
    assert LinkedOk(nodes, kids, c);
    StillIn(kids[nodes[x].father], n, c);
    if nodes[c].father == 0 {
      NotListed(nodes, kids, rank, nodes[x].father, c);
    }
  }

  lemma StillIn(s: seq<ElementId>, n: nat, c: ElementId)
    requires n < |s|
    ensures c in s && c != s[n] ==> c in RemoveAt(s, n)
  {
    if c in s && c != s[n] {
      var k :| 0 <= k < |s| && s[k] == c;
      assert RemoveAt(s, n)[if k < n then k else k - 1] == c;
    }
  }

  lemma UnlinkedFathers(nodes: Nodes, x: ElementId)
    requires x in nodes
    ensures var nodes' := Unlinked(nodes, x);
            && (forall c :: c in nodes' <==> c in nodes) && nodes'[x].father == 0
            && (forall c :: c in nodes && c != x ==> nodes'[c].father == nodes[c].father)
            && (forall c :: c in nodes ==> nodes'[c].text == nodes[c].text && nodes'[c].kind == nodes[c].kind)
  {
  }

  /** Unlinking keeps the tree: x leaves its father's child list and is detached. */
  lemma UnlinkKeeps(nodes: Nodes, kids: Kids, rank: Rank, x: ElementId, n: nat)
    requires ChildAt(nodes, kids, rank, x, n)
    ensures TreeOk(Unlinked(nodes, x), kids[nodes[x].father := RemoveAt(kids[nodes[x].father], n)], rank)
          && Detached(Unlinked(nodes, x), x)
  {
    hide FatherOk, LinkedOk, Unlinked, Acyclic;
    UnlinkedFathers(nodes, x);
    UnlinkAcyclic(nodes, rank, x);
    var f := nodes[x].father;
    var nodes', kids' := Unlinked(nodes, x), kids[f := RemoveAt(kids[f], n)];
    forall p | p in nodes'
      ensures FatherOk(nodes', kids', p) && LinkedOk(nodes', kids', p)
    {
      UnlinkLinked(nodes, kids, rank, x, n, p);
      if p == f {
        UnlinkFather(nodes, kids, rank, x, n);
      } else {
        UnlinkOther(nodes, kids, rank, x, n, p);
      }
    }
  }

  lemma UnlinkAcyclic(nodes: Nodes, rank: Rank, x: ElementId)
    requires Acyclic(nodes, rank) && x in nodes
    ensures Acyclic(Unlinked(nodes, x), rank)
  {
    UnlinkedFathers(nodes, x);
  }

  // ----- creating and destroying detached elements -----

  lemma CreateKeeps(nodes: Nodes, kids: Kids, rank: Rank, x: ElementId, kind: Kind, text: string)
    requires TreeOk(nodes, kids, rank) && x !in nodes && x != 0
    ensures TreeOk(nodes[x := Node(kind, 0, 0, 0, 0, 0, text)], kids[x := []], rank[x := 0])
  {
    var nodes', kids', rank' := nodes[x := Node(kind, 0, 0, 0, 0, 0, text)], kids[x := []], rank[x := 0];
    forall c | c in nodes && nodes[c].father != 0
      ensures nodes[c].father != x
    {
      FatherIn(nodes, kids, rank, c);
    }
    forall p | p in nodes'
      ensures FatherOk(nodes', kids', p) && LinkedOk(nodes', kids', p)
    {
      if p != x {
        SameLinks(nodes, kids, nodes', kids', p);
      }
    }
    hide FatherOk, LinkedOk;
  }

  /** An element whose links and children, and those of its children, stay as they are. */
  lemma SameLinks(nodes: Nodes, kids: Kids, nodes': Nodes, kids': Kids, p: ElementId)
    requires p in nodes && FatherOk(nodes, kids, p) && LinkedOk(nodes, kids, p)
    requires kids.Keys <= kids'.Keys && forall q :: q in kids ==> kids'[q] == kids[q]
    requires nodes.Keys <= nodes'.Keys
    requires forall c :: c in nodes ==> nodes'[c] == nodes[c].(text := nodes'[c].text)
    ensures FatherOk(nodes', kids', p) && LinkedOk(nodes', kids', p)
  {
    forall k | 0 <= k < |kids[p]|
      ensures ChildOk(nodes', p, kids'[p], k)
    {
      assert ChildOk(nodes, p, kids[p], k);
    }
  }

  /** A detached element without children can be freed. */
  lemma DestroyKeeps(nodes: Nodes, kids: Kids, rank: Rank, x: ElementId)
    requires TreeOk(nodes, kids, rank) && Detached(nodes, x) && kids[x] == []
    ensures TreeOk(nodes - {x}, kids - {x}, rank)
  {
    var nodes', kids' := nodes - {x}, kids - {x};
    forall p | p in nodes'
      ensures FatherOk(nodes', kids', p) && LinkedOk(nodes', kids', p)
    {
      assert FatherOk(nodes, kids, p) && LinkedOk(nodes, kids, p);
      NotListed(nodes, kids, rank, p, x);
      forall k | 0 <= k < |kids[p]|
        ensures ChildOk(nodes', p, kids[p], k)
      {
        assert ChildOk(nodes, p, kids[p], k);
      }
      if nodes[p].father != 0 {
        FatherIn(nodes, kids, rank, p);
      }
    }
  }

  /** A new text replaces the old one. */
  lemma RetextKeeps(nodes: Nodes, kids: Kids, rank: Rank, x: ElementId, text: string)
    requires TreeOk(nodes, kids, rank) && x in nodes
    ensures TreeOk(nodes[x := nodes[x].(text := text)], kids, rank)
  {
    hide FatherOk, LinkedOk;
    var nodes' := nodes[x := nodes[x].(text := text)];
    forall p | p in nodes'
      ensures FatherOk(nodes', kids, p) && LinkedOk(nodes', kids, p)
    {
      SameLinks(nodes, kids, nodes', kids, p);
    }
  }
}
