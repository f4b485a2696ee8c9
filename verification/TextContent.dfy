/** ElementRef::toString: walking a subtree without recursion. */
module TextContent {
  import opened DomTree
  import opened DocumentWalk

  /** The texts of the text nodes of a node sequence, one after the other. */
  ghost function Texts(d: Doc, s: seq<NodeRef>): string {
    if s == [] then "" else NodeText(d, s[0]) + Texts(d, s[1..])
  }

  /** Attributes, comments and processing instructions add nothing. */
  ghost function NodeText(d: Doc, r: NodeRef): string {
    if r.ElementNode? && r.element in d.nodes && d.nodes[r.element].kind.Text? then d.nodes[r.element].text else ""
  }

  lemma {:induction false} TextsJoin(d: Doc, s: seq<NodeRef>, t: seq<NodeRef>)
    ensures Texts(d, s + t) == Texts(d, s) + Texts(d, t)
  {
    if s == [] {
      assert s + t == t;
    } else {
      assert (s + t)[0] == s[0] && (s + t)[1..] == s[1..] + t;
      TextsJoin(d, s[1..], t);
      Assoc(NodeText(d, s[0]), Texts(d, s[1..]), Texts(d, t));
    }
  }

  lemma Assoc(a: string, b: string, c: string)
    ensures a + (b + c) == (a + b) + c
  {
  }

  lemma {:induction false} NoTexts(d: Doc, s: seq<NodeRef>)
    requires forall k :: 0 <= k < |s| ==> s[k].AttributeNode?
    ensures Texts(d, s) == ""
  {
    if s != [] {
      NoTexts(d, s[1..]);
    }
  }

  lemma HeadTexts(d: Doc, p: ElementId)
    requires DocOk(d) && p in d.nodes
    ensures Texts(d, Head(d, p)) == NodeText(d, ElementNode(p))
  {
    hide DocOk, Select;
    InDoc(d, p);
    var tail := AttrNodes(p, Select(d, d.lists[p], true)) + AttrNodes(p, Select(d, d.lists[p], false));
    assert Head(d, p) == [ElementNode(p)] + tail;
    NoTexts(d, tail);
    assert Head(d, p)[1..] == tail;
  }

  // ----- what the walk has still to see -----

  /** The nodes below me that come after the subtree of c. */
  ghost function Later(d: Doc, me: ElementId, c: ElementId): seq<NodeRef>
    requires DocOk(d) && c in d.nodes && me in d.nodes && c != me && Over(d, me, c)
    decreases d.rank[c]
  {
    LaterFacts(d, me, c);
    var f := d.nodes[c].father;
    var k :| 0 <= k < |d.kids[f]| && d.kids[f][k] == c;
    PreorderFrom(d, f, k + 1) + (if f == me then [] else Later(d, me, f))
  }

  lemma LaterFacts(d: Doc, me: ElementId, c: ElementId)
    requires DocOk(d) && c in d.nodes && me in d.nodes && c != me && Over(d, me, c)
    ensures var f := d.nodes[c].father;
            f != 0 && f in d.nodes && f in d.kids && c in d.kids[f] && Over(d, me, f) && f in d.rank && c in d.rank
                && d.rank[f] < d.rank[c]
  {
    OverRank(d, me, c);
    FatherIn(d.nodes, d.kids, d.rank, c);
  }

  lemma LaterIs(d: Doc, me: ElementId, f: ElementId, k: nat)
    requires DocOk(d) && me in d.nodes && f in d.nodes && Over(d, me, f) && k < |d.kids[f]|
    ensures var c := d.kids[f][k];
            && c in d.nodes && c != me && Over(d, me, c) && d.nodes[c].father == f
            && Later(d, me, c) == PreorderFrom(d, f, k + 1) + (if f == me then [] else Later(d, me, f))
  {
    hide DocOk, Under, PreorderFrom, Preorder;
    InDoc(d, f);
    KidFacts(d, f, k);
    var c := d.kids[f][k];
    OverTrans(d, me, f, c);
    if c == me {
      OverRank(d, me, f);
    }
    forall j | 0 <= j < |d.kids[f]| && d.kids[f][j] == c
      ensures j == k
    {
      SameKid(d, f, j, k);
    }
  }

  /** Entering the first child. */
  lemma Enter(d: Doc, me: ElementId, c: ElementId)
    requires DocOk(d) && me in d.nodes && c in d.nodes && Over(d, me, c) && !d.nodes[c].kind.Text?
          && d.nodes[c].child != 0
    ensures var y := d.nodes[c].child;
            && y in d.nodes && y != me && Over(d, me, y) && d.nodes[y].father == c
            && (var rest := if c == me then [] else Later(d, me, c);
                var todo := Preorder(d, y) + Later(d, me, y);
                Texts(d, Preorder(d, c) + rest) == Texts(d, todo) && |todo| < |Preorder(d, c) + rest|)
  {
    hide DocOk, Under, Head, Select;
    KidsOf(d, c);
    LaterIs(d, me, c, 0);
    KidFacts(d, c, 0);
    InDoc(d, c);
    var y := d.nodes[c].child;
    var rest := if c == me then [] else Later(d, me, c);
    var todo := Preorder(d, y) + Later(d, me, y);
    assert PreorderFrom(d, c, 0) == Preorder(d, y) + PreorderFrom(d, c, 1);
    assert Preorder(d, c) + rest == Head(d, c) + todo;
    TextsJoin(d, Head(d, c), todo);
    HeadTexts(d, c);
    HeadMembers(d, c, ElementNode(c));
  }

  lemma KidsOf(d: Doc, c: ElementId)
    requires DocOk(d) && c in d.nodes
    ensures c in d.kids && (d.nodes[c].child == 0 <==> d.kids[c] == [])
    ensures d.kids[c] != [] ==> d.kids[c][0] == d.nodes[c].child
    ensures d.nodes[c].kind.Text? ==> d.kids[c] == []
  {
    assert FatherOk(d.nodes, d.kids, c);
    assert d.kids[c] != [] ==> ChildOk(d.nodes, c, d.kids[c], 0);
  }

  /** Passing an element without children. */
  lemma Pass(d: Doc, me: ElementId, c: ElementId)
    requires DocOk(d) && me in d.nodes && c in d.nodes && Over(d, me, c) && c != me
          && (d.nodes[c].kind.Text? || d.nodes[c].child == 0)
    ensures Texts(d, Preorder(d, c) + Later(d, me, c))
          == (if d.nodes[c].kind.Text? then d.nodes[c].text else "") + Texts(d, Later(d, me, c))
    ensures |Later(d, me, c)| < |Preorder(d, c) + Later(d, me, c)|
  {
    hide DocOk, Under, Head, Later;
    KidsOf(d, c);
    InDoc(d, c);
    assert Preorder(d, c) == Head(d, c);
    TextsJoin(d, Head(d, c), Later(d, me, c));
    HeadTexts(d, c);
    HeadMembers(d, c, ElementNode(c));
  }

  /** After the last child comes what is after the father. */
  lemma Leave(d: Doc, me: ElementId, c: ElementId)
    requires DocOk(d) && me in d.nodes && c in d.nodes && Over(d, me, c) && c != me && d.nodes[c].younger == 0
    ensures var f := d.nodes[c].father;
            && f in d.nodes && Over(d, me, f) && f in d.rank && c in d.rank && d.rank[f] < d.rank[c]
            && Later(d, me, c) == if f == me then [] else Later(d, me, f)
  {
    hide Under;
    LaterFacts(d, me, c);
    var f := d.nodes[c].father;
    var k := PlaceOf(d.nodes, d.kids, d.rank, c);
    UnlinkFacts(d.nodes, d.kids, d.rank, c, k);
    LaterIs(d, me, f, k);
    assert PreorderFrom(d, f, k + 1) == [];
  }

  /** After a child comes the next one. */
  lemma GoOn(d: Doc, me: ElementId, c: ElementId)
    requires DocOk(d) && me in d.nodes && c in d.nodes && Over(d, me, c) && c != me && d.nodes[c].younger != 0
    ensures var y := d.nodes[c].younger;
            y in d.nodes && y != me && Over(d, me, y) && Later(d, me, c) == Preorder(d, y) + Later(d, me, y)
  {
    hide DocOk, Under, Later, Preorder;
    LaterFacts(d, me, c);
    var f, k := PlaceBefore(d, c);
    LaterIs(d, me, f, k);
    LaterIs(d, me, f, k + 1);
  }

  lemma PlaceBefore(d: Doc, c: ElementId) returns (f: ElementId, k: nat)
    requires DocOk(d) && c in d.nodes && d.nodes[c].father != 0 && d.nodes[c].younger != 0
    ensures f == d.nodes[c].father && f in d.nodes && f in d.kids && k + 1 < |d.kids[f]|
    ensures d.kids[f][k] == c && d.kids[f][k + 1] == d.nodes[c].younger
  {
    hide FatherOk, LinkedOk, Acyclic;
    f := d.nodes[c].father;
    k := PlaceOf(d.nodes, d.kids, d.rank, c);
    UnlinkFacts(d.nodes, d.kids, d.rank, c, k);
  }

  // ----- the walk -----

  /** The texts of all text nodes at and below an element, in document order; textual nodes give their own text, and
      hollow ones an exception. */
  method ToString(nodes: Nodes, me: ElementId, ghost d: Doc) returns (ok: bool, result: string)
    requires DocOk(d) && d.nodes == nodes && me in nodes
    ensures ok <==> !Hollow(nodes[me].kind)
    ensures ok ==> result == if !Textual(nodes[me].kind) then Texts(d, Preorder(d, me)) else nodes[me].text
  {
    hide DocOk, Under, Texts, Later, Preorder, Head;
    if Textual(nodes[me].kind) || Hollow(nodes[me].kind) {
      return Textual(nodes[me].kind), nodes[me].text;
    }
    ok := true;
    OverSelf(d, me);
    var child := nodes[me].child;
    if child == 0 {
      NoChild(d, me);
      return true, "";
    }
    Enter(d, me, me);
    assert Preorder(d, me) + [] == Preorder(d, me);
    if nodes[child].kind.Text? && nodes[child].younger == 0 {
      OneText(d, me, child);
      return true, nodes[child].text;
    }
    result := "";
    while true
      invariant ok
      invariant child in nodes && child != me && Over(d, me, child)
      invariant result + Texts(d, Preorder(d, child) + Later(d, me, child)) == Texts(d, Preorder(d, me))
      decreases |Preorder(d, child) + Later(d, me, child)|
    {
      if nodes[child].kind.Text? {
        Pass(d, me, child);
        Assoc(result, nodes[child].text, Texts(d, Later(d, me, child)));
        result := result + nodes[child].text;
      } else if nodes[child].child != 0 {
        Enter(d, me, child);
        child := nodes[child].child;
        continue;
      } else {
        Pass(d, me, child);
      }
      ghost var todo := |Later(d, me, child)|;
      while nodes[child].younger == 0
        invariant child in nodes && child != me && Over(d, me, child) && |Later(d, me, child)| == todo
        invariant result + Texts(d, Later(d, me, child)) == Texts(d, Preorder(d, me))
        decreases if child in d.rank then d.rank[child] else 0
      {
        Leave(d, me, child);
        child := nodes[child].father;
        if child == me {
          Ended(d, result);
          return;
        }
      }
      GoOn(d, me, child);
      child := nodes[child].younger;
    }
  }

  lemma Ended(d: Doc, s: string)
    ensures s + Texts(d, []) == s
  {
  }

  lemma NoChild(d: Doc, me: ElementId)
    requires DocOk(d) && me in d.nodes && !Textual(d.nodes[me].kind) && d.nodes[me].child == 0
    ensures Texts(d, Preorder(d, me)) == ""
  {
    hide DocOk, Under, Head;
    KidsOf(d, me);
    InDoc(d, me);
    assert Preorder(d, me) == Head(d, me);
    HeadTexts(d, me);
  }

  /** The shortcut for a single text child. */
  lemma OneText(d: Doc, me: ElementId, c: ElementId)
    requires DocOk(d) && me in d.nodes && c in d.nodes && c == d.nodes[me].child && c != me && Over(d, me, c)
    requires d.nodes[c].kind.Text? && d.nodes[c].younger == 0 && d.nodes[c].father == me
    ensures Texts(d, Preorder(d, c) + Later(d, me, c)) == d.nodes[c].text
  {
    hide DocOk, Under, Preorder, Head, Later;
    Pass(d, me, c);
    Leave(d, me, c);
    Ended(d, d.nodes[c].text);
  }
}
