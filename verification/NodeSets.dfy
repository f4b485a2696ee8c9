/** Node sets that are filled in document order. */
module NodeSets {
  import opened DocumentOrder
  import opened DomTree
  import opened DocumentWalk

  ghost predicate AllPresent(d: Doc, s: seq<NodeRef>)
    requires DocOk(d)
  {
    forall k :: 0 <= k < |s| ==> Present(d, s[k])
  }

  ghost predicate Sorted(d: Doc, s: seq<NodeRef>)
    requires DocOk(d)
  {
    AllPresent(d, s) && forall i, j :: 0 <= i < j < |s| ==> Before(d, s[i], s[j])
  }

  // ----- what pushing means -----

  /** r at its place, once. */
  ghost function Pushed(d: Doc, s: seq<NodeRef>, r: NodeRef): seq<NodeRef>
    requires DocOk(d)
  {
    if s == [] then [r]
    else if s[0] == r then s
    else if Before(d, r, s[0]) then [r] + s
    else [s[0]] + Pushed(d, s[1..], r)
  }

  ghost function PushedAll(d: Doc, refs: seq<NodeRef>): seq<NodeRef>
    requires DocOk(d)
  {
    if refs == [] then [] else Pushed(d, PushedAll(d, refs[..|refs| - 1]), refs[|refs| - 1])
  }

  lemma {:induction false} PushedMembers(d: Doc, s: seq<NodeRef>, r: NodeRef, x: NodeRef)
    requires DocOk(d)
    ensures x in Pushed(d, s, r) <==> x in s || x == r
  {
    hide DocOk, Before;
    if s != [] {
      assert s == [s[0]] + s[1..];
      PushedMembers(d, s[1..], r, x);
    }
  }

  lemma {:induction false} PushedSorted(d: Doc, s: seq<NodeRef>, r: NodeRef)
    requires DocOk(d) && Sorted(d, s) && Present(d, r)
    ensures Sorted(d, Pushed(d, s, r))
  {
    hide DocOk, Before, Present;
    if s != [] && s[0] != r {
      TotalOrder(d, s[0], r) by {
        PresentMeans(d, s[0]);
        PresentMeans(d, r);
      }
      if Before(d, r, s[0]) {
        forall j | 0 <= j < |s|
          ensures Before(d, r, s[j])
        {
          if j > 0 {
            OrderTrans(d, r, s[0], s[j]);
          }
        }
      } else {
        PushedSorted(d, s[1..], r);
        var rest := Pushed(d, s[1..], r);
        forall j | 0 <= j < |rest|
          ensures Before(d, s[0], rest[j])
        {
          PushedMembers(d, s[1..], r, rest[j]);
          if rest[j] != r {
            var k :| 0 <= k < |s[1..]| && s[1..][k] == rest[j];
            assert s[k + 1] == rest[j];
          }
        }
      }
    }
  }

  lemma PresentMeans(d: Doc, r: NodeRef)
    requires DocOk(d) && Present(d, r)
    ensures In(d, r) && Over(d, d.root, r.element)
  {
  }

  /** Pushing nodes in any order onto an empty set gives a sorted set of exactly these nodes. */
  lemma {:induction false} PushedAllSorted(d: Doc, refs: seq<NodeRef>)
    requires DocOk(d) && AllPresent(d, refs)
    ensures Sorted(d, PushedAll(d, refs)) && forall x :: x in PushedAll(d, refs) <==> x in refs
  {
    hide DocOk, Before, Present;
    if refs != [] {
      var before, r := refs[..|refs| - 1], refs[|refs| - 1];
      PushedAllSorted(d, before);
      PushedSorted(d, PushedAll(d, before), r);
      forall x
        ensures x in PushedAll(d, refs) <==> x in refs
      {
        PushedMembers(d, PushedAll(d, before), r, x);
        assert refs == before + [r];
      }
    }
  }

  lemma NoneTwice(d: Doc, s: seq<NodeRef>)
    requires DocOk(d) && Sorted(d, s)
    ensures forall i, j :: 0 <= i < j < |s| ==> s[i] != s[j]
  {
    hide DocOk, Before, Present;
    forall i, j | 0 <= i < j < |s|
      ensures s[i] != s[j]
    {
      PresentMeans(d, s[i]);
      TotalOrder(d, s[i], s[i]);
    }
  }

  /** A sorted set is determined by its members. */
  lemma {:induction false} SortedUnique(d: Doc, s: seq<NodeRef>, t: seq<NodeRef>)
    requires DocOk(d) && Sorted(d, s) && Sorted(d, t) && forall x :: x in s <==> x in t
    ensures s == t
    decreases |s|
  {
    hide DocOk, Before, Present;
    if s == [] {
      if t != [] {
        HasMember(t);
      }
    } else {
      assert s[0] in t;
      SameFirst(d, s, t);
      NoneTwice(d, s);
      NoneTwice(d, t);
      forall x
        ensures x in s[1..] <==> x in t[1..]
      {
        TailMembers(s, x);
        TailMembers(t, x);
      }
      SortedUnique(d, s[1..], t[1..]);
      assert s == [s[0]] + s[1..] && t == [t[0]] + t[1..];
    }
  }

  lemma HasMember(t: seq<NodeRef>)
    requires t != []
    ensures exists x :: x in t
  {
    assert t[0] in t;
  }

  lemma TailMembers(s: seq<NodeRef>, x: NodeRef)
    requires s != [] && forall i, j :: 0 <= i < j < |s| ==> s[i] != s[j]
    ensures x in s[1..] <==> x in s && x != s[0]
  {
    assert s == [s[0]] + s[1..];
    assert forall k :: 0 <= k < |s[1..]| ==> s[1..][k] == s[k + 1];
  }

  lemma SameFirst(d: Doc, s: seq<NodeRef>, t: seq<NodeRef>)
    requires DocOk(d) && Sorted(d, s) && Sorted(d, t) && (forall x :: x in s <==> x in t) && s != [] && t != []
    ensures s[0] == t[0]
  {
    hide DocOk, Before, Present;
    assert s[0] in t && t[0] in s;
    var i :| 0 <= i < |s| && s[i] == t[0];
    var j :| 0 <= j < |t| && t[j] == s[0];
    if i > 0 && j > 0 {
      PresentMeans(d, s[0]);
      PresentMeans(d, t[0]);
      TotalOrder(d, s[0], t[0]);
    }
  }

  /** The order of the pushes does not matter. */
  lemma AnyOrder(d: Doc, refs: seq<NodeRef>, refs': seq<NodeRef>)
    requires DocOk(d) && AllPresent(d, refs) && forall x :: x in refs <==> x in refs'
    ensures PushedAll(d, refs) == PushedAll(d, refs')
  {
    hide DocOk, Before, Present, Pushed;
    forall k | 0 <= k < |refs'|
      ensures Present(d, refs'[k])
    {
      assert refs'[k] in refs;
    }
    PushedAllSorted(d, refs);
    PushedAllSorted(d, refs');
    SortedUnique(d, PushedAll(d, refs), PushedAll(d, refs'));
  }

  // ----- the node set -----

  method IsBefore(nodes: Nodes, attrs: Attrs, a: NodeRef, b: NodeRef, ghost d: Doc) returns (r: bool)
    requires DocOk(d) && d.nodes == nodes && d.attrs == attrs && Present(d, a) && Present(d, b) && a != b
    ensures r <==> Before(d, a, b)
  {
    hide DocOk, Before, Present;
    match a
    case ElementNode(me) => r := ElementIsBefore(nodes, me, b, d);
    case AttributeNode(e, attr) => r := AttributeIsBefore(nodes, attrs, e, attr, b, d);
  }

  class NodeSet {
    var list: seq<NodeRef>

    constructor ()
      ensures list == []
    {
      list := [];
    }

    /** insertNodeInDocumentOrder: false when the node belongs behind the last one. */
    method InsertNodeInDocumentOrder(nodes: Nodes, attrs: Attrs, nodeRef: NodeRef, ghost d: Doc) returns (done: bool)
      requires DocOk(d) && d.nodes == nodes && d.attrs == attrs && list != [] && Sorted(d, list) && Present(d, nodeRef)
      modifies this
      ensures done ==> list == Pushed(d, old(list), nodeRef)
      ensures !done ==> list == old(list) && list + [nodeRef] == Pushed(d, old(list), nodeRef)
    {
      hide DocOk, Before, Present;
      var last := list[|list| - 1];
      if nodeRef == last {
        AlreadyThere(d, list, |list| - 1);
        return true;
      }
      var isBefore := IsBefore(nodes, attrs, last, nodeRef, d);
      if isBefore {
        Behind(d, list, nodeRef);
        return false;
      }
      var iter := 0;
      while iter < |list|
        invariant iter <= |list| && list == old(list)
        invariant forall k :: 0 <= k < iter ==> list[k] != nodeRef && !Before(d, nodeRef, list[k])
      {
        if nodeRef == list[iter] {
          AlreadyThere(d, list, iter);
          return true;
        }
        isBefore := IsBefore(nodes, attrs, nodeRef, list[iter], d);
        if isBefore {
          PushedAt(d, list, nodeRef, iter);
          list := list[..iter] + [nodeRef] + list[iter..];
          return true;
        }
        iter := iter + 1;
      }
      PresentMeans(d, nodeRef);
      PresentMeans(d, last);
      TotalOrder(d, last, nodeRef);
      assert false;
    }

    /** pushBack: sorted sets stay sorted, without duplicates, when order is asked for. */
    method PushBack(nodes: Nodes, attrs: Attrs, nodeRef: NodeRef, insertInDocumentOrder: bool, ghost d: Doc)
      requires DocOk(d) && d.nodes == nodes && d.attrs == attrs && Present(d, nodeRef)
      requires insertInDocumentOrder ==> Sorted(d, list)
      modifies this
      ensures list == if insertInDocumentOrder then Pushed(d, old(list), nodeRef) else old(list) + [nodeRef]
      ensures insertInDocumentOrder ==> Sorted(d, list) && forall x :: x in list <==> x in old(list) || x == nodeRef
    {
      hide DocOk, Before, Present, Pushed;
      EmptyPush(d, nodeRef);
      if insertInDocumentOrder {
        PushedSorted(d, list, nodeRef);
        forall x
          ensures x in Pushed(d, list, nodeRef) <==> x in list || x == nodeRef
        {
          PushedMembers(d, list, nodeRef, x);
        }
      }
      if insertInDocumentOrder && list != [] {
        var done := InsertNodeInDocumentOrder(nodes, attrs, nodeRef, d);
        if done {
          return;
        }
      }
      list := list + [nodeRef];
    }
  }

  lemma EmptyPush(d: Doc, r: NodeRef)
    requires DocOk(d)
    ensures Pushed(d, [], r) == [r] == [] + [r]
  {
  }

  lemma {:induction false} AlreadyThere(d: Doc, s: seq<NodeRef>, k: nat)
    requires DocOk(d) && Sorted(d, s) && k < |s|
    ensures Pushed(d, s, s[k]) == s
  {
    hide DocOk, Before, Present;
    if k > 0 {
      AlreadyThere(d, s[1..], k - 1);
      PresentMeans(d, s[0]);
      PresentMeans(d, s[k]);
      TotalOrder(d, s[0], s[k]);
      assert s == [s[0]] + s[1..];
    }
  }

  lemma {:induction false} PushedAt(d: Doc, s: seq<NodeRef>, r: NodeRef, k: nat)
    requires DocOk(d) && k <= |s| && (k < |s| ==> s[k] != r && Before(d, r, s[k]))
    requires forall i :: 0 <= i < k ==> s[i] != r && !Before(d, r, s[i])
    ensures Pushed(d, s, r) == s[..k] + [r] + s[k..]
  {
    hide DocOk, Before;
    if k > 0 {
      PushedAt(d, s[1..], r, k - 1);
      assert s[..k] == [s[0]] + s[1..][..k - 1] && s[k..] == s[1..][k - 1..];
    }
  }

  /** Behind the last node means behind all. */
  lemma Behind(d: Doc, s: seq<NodeRef>, r: NodeRef)
    requires DocOk(d) && Sorted(d, s) && Present(d, r) && s != [] && Before(d, s[|s| - 1], r)
    ensures Pushed(d, s, r) == s + [r]
  {
    hide DocOk, Before, Present;
    forall i | 0 <= i < |s|
      ensures s[i] != r && !Before(d, r, s[i])
    {
      if i < |s| - 1 {
        OrderTrans(d, s[i], s[|s| - 1], r);
      }
      PresentMeans(d, s[i]);
      PresentMeans(d, r);
      TotalOrder(d, s[i], r);
    }
    PushedAt(d, s, r, |s|);
  }
}
