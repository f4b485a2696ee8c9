/** SKMultiMapRef: each hash of a skip list leads to a chain of chunks of values. */
module MultiMap {
  import opened SkipOrder
  import opened SkipList

  const MAX_NUMBER := 30  // SKMapList::maxNumber
  const CLEARED := 0xdeadbeef

  type ListPtr = nat

  /** SKMapList: only the first `number` values count. */
  datatype Chunk = Chunk(nextList: ListPtr, values: seq<nat>, number: nat)

  // ----- chains of chunks -----

  ghost predicate ChunkOk(lists: map<ListPtr, Chunk>, chain: seq<ListPtr>, k: nat)
    requires k < |chain|
  {
    && chain[k] != 0 && chain[k] in lists
    && |lists[chain[k]].values| == MAX_NUMBER && 1 <= lists[chain[k]].number <= MAX_NUMBER
    && lists[chain[k]].nextList == if k + 1 < |chain| then chain[k + 1] else 0
  }

  /** A chain from its first chunk to the null pointer, every chunk holding between 1 and maxNumber values. */
  ghost predicate ChainOk(lists: map<ListPtr, Chunk>, chain: seq<ListPtr>) {
    && (forall k :: 0 <= k < |chain| ==> ChunkOk(lists, chain, k))
    && (forall j, k :: 0 <= j < k < |chain| ==> chain[j] != chain[k])
  }

  ghost function Part(lists: map<ListPtr, Chunk>, p: ListPtr): seq<nat> {
    if p in lists && lists[p].number <= |lists[p].values| then lists[p].values[..lists[p].number] else []
  }

  ghost function Values(lists: map<ListPtr, Chunk>, chain: seq<ListPtr>): seq<nat> {
    if chain == [] then [] else Part(lists, chain[0]) + Values(lists, chain[1..])
  }

  lemma {:induction false} ValuesSplit(lists: map<ListPtr, Chunk>, a: seq<ListPtr>, b: seq<ListPtr>)
    ensures Values(lists, a + b) == Values(lists, a) + Values(lists, b)
  {
    if a == [] {
      assert a + b == b;
    } else {
      assert (a + b)[1..] == a[1..] + b;
      ValuesSplit(lists, a[1..], b);
    }
  }

  lemma {:induction false} ValuesFrame(lists: map<ListPtr, Chunk>, lists': map<ListPtr, Chunk>, chain: seq<ListPtr>)
    requires forall p :: p in chain ==> Part(lists', p) == Part(lists, p)
    ensures Values(lists', chain) == Values(lists, chain)
  {
    if chain != [] {
      ValuesFrame(lists, lists', chain[1..]);
    }
  }

  /** Around chunk k. */
  lemma ValuesAround(lists: map<ListPtr, Chunk>, chain: seq<ListPtr>, k: nat)
    requires k < |chain|
    ensures Values(lists, chain) == Values(lists, chain[..k]) + Part(lists, chain[k]) + Values(lists, chain[k + 1..])
  {
    assert chain == chain[..k] + ([chain[k]] + chain[k + 1..]);
    ValuesSplit(lists, chain[..k], [chain[k]] + chain[k + 1..]);
    ValuesSplit(lists, [chain[k]], chain[k + 1..]);
    assert Values(lists, [chain[k]]) == Part(lists, chain[k]) + [];
  }

  // ----- all chains together -----

  ghost predicate Apart(a: seq<ListPtr>, b: seq<ListPtr>) {
    forall p :: p in a ==> p !in b
  }

  /** Each hash of the skip list leads to the first chunk of its chain; chains do not share chunks,
      and no chunk is lost. */
  ghost predicate MultiOk(lists: map<ListPtr, Chunk>, heads: map<nat, nat>, chains: map<nat, seq<ListPtr>>) {
    && (forall h :: h in chains <==> h in heads)
    && (forall h :: h in chains ==> HeadOk(lists, heads, chains, h))
    && AllApart(chains)
    && (forall p :: p in lists ==> Chained(chains, p))
  }

  ghost predicate HeadOk(lists: map<ListPtr, Chunk>, heads: map<nat, nat>, chains: map<nat, seq<ListPtr>>, h: nat) {
    h in chains && h in heads && |chains[h]| > 0 && heads[h] == chains[h][0] && ChainOk(lists, chains[h])
  }

  ghost predicate AllApart(chains: map<nat, seq<ListPtr>>) {
    forall g, h :: g in chains && h in chains && g != h ==> Apart(chains[g], chains[h])
  }

  ghost predicate Chained(chains: map<nat, seq<ListPtr>>, p: ListPtr) {
    exists h :: h in chains && p in chains[h]
  }

  /** The multimap: from hashes to non-empty sequences of values. */
  ghost function View(lists: map<ListPtr, Chunk>, chains: map<nat, seq<ListPtr>>): map<nat, seq<nat>> {
    map h | h in chains :: Values(lists, chains[h])
  }

  lemma NeverEmpty(lists: map<ListPtr, Chunk>, heads: map<nat, nat>, chains: map<nat, seq<ListPtr>>, h: nat)
    requires MultiOk(lists, heads, chains) && h in chains
    ensures |View(lists, chains)[h]| > 0
  {
    assert HeadOk(lists, heads, chains, h);
    assert ChunkOk(lists, chains[h], 0);
  }

  /** The sequence without the first occurrence of v. */
  ghost function Without(s: seq<nat>, v: nat): seq<nat> {
    if s == [] then [] else if s[0] == v then s[1..] else [s[0]] + Without(s[1..], v)
  }

  lemma {:induction false} WithoutAt(s: seq<nat>, i: nat, v: nat)
    requires i < |s| && s[i] == v && v !in s[..i]
    ensures Without(s, v) == s[..i] + s[i + 1..]
  {
    if i > 0 {
      assert s[0] in s[..i];
      assert forall x :: x in s[1..][..i - 1] ==> x in s[..i];
      WithoutAt(s[1..], i - 1, v);
    }
  }

  // ----- the steps -----

  /** Changing chunks of one chain only, to another well-formed chain. */
  lemma ChangeChain(lists: map<ListPtr, Chunk>, lists': map<ListPtr, Chunk>, heads: map<nat, nat>,
      heads': map<nat, nat>, chains: map<nat, seq<ListPtr>>, h: nat, chain: seq<ListPtr>)
    requires MultiOk(lists, heads, chains) && |chain| > 0 && ChainOk(lists', chain) && heads' == heads[h := chain[0]]
    requires forall p :: p in chain ==> p !in lists || (h in chains && p in chains[h])
    requires forall p :: p in lists' ==> p in chain || (p in lists && !(h in chains && p in chains[h]))
    requires forall p :: p in lists && !(h in chains && p in chains[h]) ==> p in lists' && lists'[p] == lists[p]
    ensures MultiOk(lists', heads', chains[h := chain])
    ensures View(lists', chains[h := chain]) == View(lists, chains)[h := Values(lists', chain)]
  {
    hide ChainOk, Values, Apart, Chained, AllApart, View, HeadOk;
    var chains' := chains[h := chain];
    forall g | g in chains && g != h
      ensures HeadOk(lists', heads', chains', g) && Values(lists', chains[g]) == Values(lists, chains[g])
    {
      OtherChain(lists, lists', heads, chains, h, g);
      SameHead(lists, lists', heads, heads', chains, chains', g);
    }
    NewHead(lists', heads', chains', h);
    ChangeApart(lists, heads, chains, h, chain);
    ChangeCovers(lists, lists', heads, chains, h, chain);
    ChangeView(lists, lists', chains, h, chain);
  }

  lemma SameHead(lists: map<ListPtr, Chunk>, lists': map<ListPtr, Chunk>, heads: map<nat, nat>, heads': map<nat, nat>,
      chains: map<nat, seq<ListPtr>>, chains': map<nat, seq<ListPtr>>, g: nat)
    requires HeadOk(lists, heads, chains, g) && g in heads' && g in chains' && heads'[g] == heads[g]
          && chains'[g] == chains[g]
    requires ChainOk(lists', chains'[g])
    ensures HeadOk(lists', heads', chains', g)
  {
    hide ChainOk;
  }

  lemma NewHead(lists: map<ListPtr, Chunk>, heads: map<nat, nat>, chains: map<nat, seq<ListPtr>>, h: nat)
    requires h in heads && h in chains && |chains[h]| > 0 && heads[h] == chains[h][0] && ChainOk(lists, chains[h])
    ensures HeadOk(lists, heads, chains, h)
  {
  }

  lemma ChangeView(lists: map<ListPtr, Chunk>, lists': map<ListPtr, Chunk>, chains: map<nat, seq<ListPtr>>, h: nat,
      chain: seq<ListPtr>)
    requires forall g :: g in chains && g != h ==> Values(lists', chains[g]) == Values(lists, chains[g])
    ensures View(lists', chains[h := chain]) == View(lists, chains)[h := Values(lists', chain)]
  {
    hide Values;
  }

  lemma ChangeCovers(lists: map<ListPtr, Chunk>, lists': map<ListPtr, Chunk>, heads: map<nat, nat>,
      chains: map<nat, seq<ListPtr>>, h: nat, chain: seq<ListPtr>)
    requires MultiOk(lists, heads, chains)
    requires forall p :: p in lists' ==> p in chain || (p in lists && !(h in chains && p in chains[h]))
    ensures forall p :: p in lists' ==> Chained(chains[h := chain], p)
  {
    hide ChainOk, Apart;
    forall p | p in lists'
      ensures Chained(chains[h := chain], p)
    {
      if p in chain {
        assert p in chains[h := chain][h];
      } else {
        assert Chained(chains, p);
        var g :| g in chains && p in chains[g];
        assert g in chains[h := chain] && p in chains[h := chain][g];
      }
    }
  }

  lemma ChangeApart(lists: map<ListPtr, Chunk>, heads: map<nat, nat>, chains: map<nat, seq<ListPtr>>, h: nat,
      chain: seq<ListPtr>)
    requires MultiOk(lists, heads, chains)
    requires forall p :: p in chain ==> p !in lists || (h in chains && p in chains[h])
    ensures AllApart(chains[h := chain])
  {
    hide ChainOk;
    forall g | g in chains && g != h
      ensures Apart(chains[g], chain) && Apart(chain, chains[g])
    {
      assert h in chains ==> Apart(chains[g], chains[h]);
      assert HeadOk(lists, heads, chains, g);
      forall p | p in chains[g]
        ensures p !in chain
      {
        ChainInLists(lists, chains[g], p);
      }
    }
  }

  lemma ChainInLists(lists: map<ListPtr, Chunk>, chain: seq<ListPtr>, p: ListPtr)
    requires ChainOk(lists, chain) && p in chain
    ensures p in lists && p != 0
  {
    var k :| 0 <= k < |chain| && chain[k] == p;
    assert ChunkOk(lists, chain, k);
  }

  lemma OtherChain(lists: map<ListPtr, Chunk>, lists': map<ListPtr, Chunk>, heads: map<nat, nat>,
      chains: map<nat, seq<ListPtr>>, h: nat, g: nat)
    requires MultiOk(lists, heads, chains) && g in chains && g != h
    requires HeadOk(lists, heads, chains, g)
    requires forall p :: p in lists && !(h in chains && p in chains[h]) ==> p in lists' && lists'[p] == lists[p]
    ensures ChainOk(lists', chains[g]) && Values(lists', chains[g]) == Values(lists, chains[g])
  {
    forall k | 0 <= k < |chains[g]|
      ensures ChunkOk(lists', chains[g], k)
      ensures Part(lists', chains[g][k]) == Part(lists, chains[g][k])
    {
      assert ChunkOk(lists, chains[g], k);
      assert h in chains ==> Apart(chains[g], chains[h]);
    }
    ValuesFrame(lists, lists', chains[g]);
  }

  /** Removing a chain with all its chunks. */
  lemma RemoveChain(lists: map<ListPtr, Chunk>, lists': map<ListPtr, Chunk>, heads: map<nat, nat>,
      chains: map<nat, seq<ListPtr>>, h: nat)
    requires MultiOk(lists, heads, chains) && h in chains
    requires forall p :: p in lists' <==> p in lists && p !in chains[h]
    requires forall p :: p in lists' ==> lists'[p] == lists[p]
    ensures MultiOk(lists', heads - {h}, chains - {h})
    ensures View(lists', chains - {h}) == View(lists, chains) - {h}
  {
    hide ChainOk, Values, Apart, HeadOk, Chained;
    forall g | g in chains && g != h
      ensures HeadOk(lists', heads - {h}, chains - {h}, g) && Values(lists', chains[g]) == Values(lists, chains[g])
    {
      StillHead(lists, lists', heads, chains, h, g);
    }
    forall p | p in lists'
      ensures Chained(chains - {h}, p)
    {
      StillChained(chains, h, p);
    }
  }

  lemma StillHead(lists: map<ListPtr, Chunk>, lists': map<ListPtr, Chunk>, heads: map<nat, nat>,
      chains: map<nat, seq<ListPtr>>, h: nat, g: nat)
    requires MultiOk(lists, heads, chains) && h in chains && g in chains && g != h
    requires forall p :: p in lists' <==> p in lists && p !in chains[h]
    requires forall p :: p in lists' ==> lists'[p] == lists[p]
    ensures HeadOk(lists', heads - {h}, chains - {h}, g) && Values(lists', chains[g]) == Values(lists, chains[g])
  {
    hide ChainOk, Values, Apart, Chained;
    assert HeadOk(lists, heads, chains, g);
    OtherChain(lists, lists', heads, chains, h, g);
  }

  lemma StillChained(chains: map<nat, seq<ListPtr>>, h: nat, p: ListPtr)
    requires h in chains && p !in chains[h] && Chained(chains, p)
    ensures Chained(chains - {h}, p)
  {
    var g :| g in chains && p in chains[g];
    assert g in chains - {h} && p in (chains - {h})[g];
  }

  /** A value is appended in the last chunk. */
  lemma AppendInChunk(lists: map<ListPtr, Chunk>, lists': map<ListPtr, Chunk>, chain: seq<ListPtr>, value: nat)
    requires ChainOk(lists, chain) && |chain| > 0
    requires var p := chain[|chain| - 1];
             && p in lists && lists[p].number < |lists[p].values| == MAX_NUMBER
             && lists' == lists[p :=
                     lists[p].(values := lists[p].values[lists[p].number := value], number := lists[p].number + 1)]
    ensures ChainOk(lists', chain) && Values(lists', chain) == Values(lists, chain) + [value]
  {
    hide Values;
    var n := |chain| - 1;
    forall k | 0 <= k < |chain|
      ensures ChunkOk(lists', chain, k)
    {
      assert ChunkOk(lists, chain, k);
    }
    ValuesAround(lists, chain, n);
    ValuesAround(lists', chain, n);
    ValuesFrame(lists, lists', chain[..n]);
    NoValues(lists, lists', chain[n + 1..]);
    LastPart(lists, lists', chain[n], value);
    Appended(Values(lists, chain[..n]), Part(lists, chain[n]), value);
  }

  lemma NoValues(lists: map<ListPtr, Chunk>, lists': map<ListPtr, Chunk>, chain: seq<ListPtr>)
    requires chain == []
    ensures Values(lists, chain) == [] == Values(lists', chain)
  {
  }

  lemma Appended(a: seq<nat>, b: seq<nat>, value: nat)
    ensures a + (b + [value]) + [] == a + b + [] + [value]
  {
  }

  lemma LastPart(lists: map<ListPtr, Chunk>, lists': map<ListPtr, Chunk>, p: ListPtr, value: nat)
    requires p in lists && lists[p].number < |lists[p].values|
    requires lists'
          == lists[p := lists[p].(values := lists[p].values[lists[p].number := value], number := lists[p].number + 1)]
    ensures Part(lists', p) == Part(lists, p) + [value]
  {
  }

  /** A new chunk is linked behind the last one. */
  lemma AppendChunk(lists: map<ListPtr, Chunk>, lists': map<ListPtr, Chunk>, chain: seq<ListPtr>, q: ListPtr,
      value: nat)
    requires ChainOk(lists, chain) && |chain| > 0 && q != 0 && q !in lists
    requires var p := chain[|chain| - 1];
             p in lists && lists'
                 == lists[q := Chunk(0, seq(MAX_NUMBER, i => if i == 0 then value else 0), 1)][p :=
                   lists[p].(nextList := q)]
    ensures ChainOk(lists', chain + [q]) && Values(lists', chain + [q]) == Values(lists, chain) + [value]
  {
    hide ChunkOk, Values, Part;
    forall k | 0 <= k < |chain| + 1
      ensures ChunkOk(lists', chain + [q], k)
      ensures k < |chain| ==> (chain + [q])[k] != q && Part(lists', chain[k]) == Part(lists, chain[k])
    {
      AppendedChunk(lists, lists', chain, q, value, k);
    }
    ValuesSplit(lists', chain, [q]);
    ValuesFrame(lists, lists', chain);
    SingleValue(lists', q, value);
  }

  lemma AppendedChunk(lists: map<ListPtr, Chunk>, lists': map<ListPtr, Chunk>, chain: seq<ListPtr>, q: ListPtr,
      value: nat, k: nat)
    requires ChainOk(lists, chain) && |chain| > 0 && q != 0 && q !in lists && k <= |chain|
    requires var p := chain[|chain| - 1];
             p in lists && lists'
                 == lists[q := Chunk(0, seq(MAX_NUMBER, i => if i == 0 then value else 0), 1)][p :=
                   lists[p].(nextList := q)]
    ensures ChunkOk(lists', chain + [q], k)
    ensures k < |chain| ==> (chain + [q])[k] != q && Part(lists', chain[k]) == Part(lists, chain[k])
  {
    if k < |chain| {
      assert ChunkOk(lists, chain, k);
    }
  }

  lemma SingleValue(lists: map<ListPtr, Chunk>, q: ListPtr, value: nat)
    requires q in lists && lists[q] == Chunk(0, seq(MAX_NUMBER, i => if i == 0 then value else 0), 1)
    ensures Values(lists, [q]) == [value]
  {
    assert Values(lists, [q]) == [value] + [];
  }

  // ----- erasing -----

  ghost predicate FirstAt(lists: map<ListPtr, Chunk>, chain: seq<ListPtr>, k: nat, idx: nat, value: nat) {
    && k < |chain| && chain[k] in lists && idx < lists[chain[k]].number <= |lists[chain[k]].values|
    && lists[chain[k]].values[idx] == value && value !in lists[chain[k]].values[..idx]
    && value !in Values(lists, chain[..k])
  }

  lemma WithoutFirst(lists: map<ListPtr, Chunk>, chain: seq<ListPtr>, k: nat, idx: nat, value: nat)
    requires FirstAt(lists, chain, k, idx, value)
    ensures var part := Part(lists, chain[k]);
            Without(Values(lists, chain), value)
              == Values(lists, chain[..k]) + (part[..idx] + part[idx + 1..]) + Values(lists, chain[k + 1..])
  {
    hide Values, Without;
    ValuesAround(lists, chain, k);
    WithoutMiddle(Values(lists, chain[..k]), Part(lists, chain[k]), Values(lists, chain[k + 1..]), idx, value);
  }

  lemma WithoutMiddle(a: seq<nat>, part: seq<nat>, b: seq<nat>, idx: nat, value: nat)
    requires idx < |part| && part[idx] == value && value !in a && value !in part[..idx]
    ensures Without(a + part + b, value) == a + (part[..idx] + part[idx + 1..]) + b
  {
    hide Without;
    var s, i := a + part + b, |a| + idx;
    assert s[..i] == a + part[..idx] && s[i + 1..] == part[idx + 1..] + b;
    WithoutAt(s, i, value);
    assert s[..i] + s[i + 1..] == a + (part[..idx] + part[idx + 1..]) + b;
  }

  /** The values behind it move one place to the left. */
  lemma EraseInChunk(lists: map<ListPtr, Chunk>, lists': map<ListPtr, Chunk>, chain: seq<ListPtr>, k: nat, idx: nat,
      value: nat)
    requires ChainOk(lists, chain) && FirstAt(lists, chain, k, idx, value) && lists[chain[k]].number > 1
          && idx < |Part(lists, chain[k])|
    requires chain[k] in lists' && lists' == lists[chain[k] := lists'[chain[k]]]
    requires var (x, y) := (lists[chain[k]], lists'[chain[k]]);
             && y.nextList == x.nextList && y.number == x.number - 1 && |y.values| == |x.values|
             && y.values[..y.number] == x.values[..idx] + x.values[idx + 1..x.number]
    ensures ChainOk(lists', chain) && Values(lists', chain) == Without(Values(lists, chain), value)
  {
    hide Values, Without, ChunkOk;
    forall j | 0 <= j < |chain|
      ensures ChunkOk(lists', chain, j)
      ensures j != k ==> Part(lists', chain[j]) == Part(lists, chain[j])
    {
      ShrunkChunk(lists, lists', chain, k, j);
    }
    WithoutFirst(lists, chain, k, idx, value);
    ValuesAround(lists', chain, k);
    ValuesFrame(lists, lists', chain[..k]);
    ValuesFrame(lists, lists', chain[k + 1..]);
    ShrunkPart(lists, lists', chain, k, idx);
  }

  lemma ShrunkChunk(lists: map<ListPtr, Chunk>, lists': map<ListPtr, Chunk>, chain: seq<ListPtr>, k: nat, j: nat)
    requires ChainOk(lists, chain) && k < |chain| && j < |chain| && chain[k] in lists && chain[k] in lists'
    requires lists' == lists[chain[k] := lists'[chain[k]]] && lists[chain[k]].number > 1
    requires var (x, y) := (lists[chain[k]], lists'[chain[k]]);
             y.nextList == x.nextList && y.number == x.number - 1 && |y.values| == |x.values|
    ensures ChunkOk(lists', chain, j)
    ensures j != k ==> Part(lists', chain[j]) == Part(lists, chain[j])
  {
    assert ChunkOk(lists, chain, j);
  }

  lemma ShrunkPart(lists: map<ListPtr, Chunk>, lists': map<ListPtr, Chunk>, chain: seq<ListPtr>, k: nat, idx: nat)
    requires ChainOk(lists, chain) && k < |chain| && chain[k] in lists && chain[k] in lists'
          && idx < lists[chain[k]].number <= |lists[chain[k]].values|
    requires var (x, y) := (lists[chain[k]], lists'[chain[k]]);
             && y.number == x.number - 1 && |y.values| == |x.values|
             && y.values[..y.number] == x.values[..idx] + x.values[idx + 1..x.number]
    ensures idx < |Part(lists, chain[k])|
    ensures Part(lists', chain[k]) == Part(lists, chain[k])[..idx] + Part(lists, chain[k])[idx + 1..]
  {
  }

  /** A chunk with one value is unlinked from its predecessor. */
  lemma UnlinkChunk(lists: map<ListPtr, Chunk>, chain: seq<ListPtr>, k: nat, value: nat)
    requires ChainOk(lists, chain) && FirstAt(lists, chain, k, 0, value) && lists[chain[k]].number == 1 && k > 0
          && chain[k - 1] in lists
    ensures var lists' :=
          lists[chain[k - 1] := lists[chain[k - 1]].(nextList := lists[chain[k]].nextList)] - {chain[k]};
            && ChainOk(lists', chain[..k] + chain[k + 1..])
            && Values(lists', chain[..k] + chain[k + 1..]) == Without(Values(lists, chain), value)
  {
    hide ChunkOk, Values, Part;
    var lists' := lists[chain[k - 1] := lists[chain[k - 1]].(nextList := lists[chain[k]].nextList)] - {chain[k]};
    var chain' := chain[..k] + chain[k + 1..];
    forall j | 0 <= j < |chain'|
      ensures ChunkOk(lists', chain', j)
      ensures Part(lists', chain'[j]) == Part(lists, chain'[j])
    {
      UnlinkedChunk(lists, chain, k, j);
    }
    WithoutFirst(lists, chain, k, 0, value);
    OneValue(lists, chain, k);
    ValuesFrame(lists, lists', chain');
    ValuesSplit(lists, chain[..k], chain[k + 1..]);
  }

  lemma OneValue(lists: map<ListPtr, Chunk>, chain: seq<ListPtr>, k: nat)
    requires ChainOk(lists, chain) && k < |chain| && chain[k] in lists && lists[chain[k]].number == 1
    ensures |Part(lists, chain[k])| == 1
  {
    assert ChunkOk(lists, chain, k);
  }

  lemma UnlinkedChunk(lists: map<ListPtr, Chunk>, chain: seq<ListPtr>, k: nat, j: nat)
    requires ChainOk(lists, chain) && 0 < k < |chain| && j < |chain| - 1 && chain[k] in lists && chain[k - 1] in lists
    ensures var lists' :=
          lists[chain[k - 1] := lists[chain[k - 1]].(nextList := lists[chain[k]].nextList)] - {chain[k]};
            var chain' := chain[..k] + chain[k + 1..];
            ChunkOk(lists', chain', j) && Part(lists', chain'[j]) == Part(lists, chain'[j])
  {
    assert ChunkOk(lists, chain, k);
    assert ChunkOk(lists, chain, if j < k then j else j + 1);
  }

  /** The first chunk goes, and the chain starts at the second. */
  lemma DropFirstChunk(lists: map<ListPtr, Chunk>, chain: seq<ListPtr>, value: nat)
    requires ChainOk(lists, chain) && FirstAt(lists, chain, 0, 0, value) && lists[chain[0]].number == 1
    ensures ChainOk(lists - {chain[0]}, chain[1..])
          && Values(lists - {chain[0]}, chain[1..]) == Without(Values(lists, chain), value)
  {
    var lists', chain' := lists - {chain[0]}, chain[1..];
    forall j | 0 <= j < |chain'|
      ensures ChunkOk(lists', chain', j)
      ensures Part(lists', chain'[j]) == Part(lists, chain'[j])
    {
      assert ChunkOk(lists, chain, j + 1);
    }
    WithoutFirst(lists, chain, 0, 0, value);
    ValuesFrame(lists, lists', chain');
  }

  // ----- the layout in chunks -----

  ghost function Parts(lists: map<ListPtr, Chunk>, chain: seq<ListPtr>): seq<seq<nat>> {
    seq(|chain|, k requires 0 <= k < |chain| => Part(lists, chain[k]))
  }

  ghost function LayoutOf(lists: map<ListPtr, Chunk>, chains: map<nat, seq<ListPtr>>): map<nat, seq<seq<nat>>> {
    map h | h in chains :: Parts(lists, chains[h])
  }

  ghost function Flat(parts: seq<seq<nat>>): seq<nat> {
    if parts == [] then [] else parts[0] + Flat(parts[1..])
  }

  /** The sequence of a hash is what its chunks hold, one after the other. */
  lemma {:induction false} FlatParts(lists: map<ListPtr, Chunk>, chain: seq<ListPtr>)
    ensures Flat(Parts(lists, chain)) == Values(lists, chain)
  {
    if chain != [] {
      FlatParts(lists, chain[1..]);
      assert Parts(lists, chain)[1..] == Parts(lists, chain[1..]);
    }
  }

  /** A value goes to the last chunk, and only if that is full to a new one. */
  ghost function Filled(parts: seq<seq<nat>>, value: nat): seq<seq<nat>> {
    if parts == [] || |parts[|parts| - 1]| == MAX_NUMBER then parts + [[value]]
    else parts[|parts| - 1 := parts[|parts| - 1] + [value]]
  }

  /** The first occurrence of a value goes from its chunk, and an empty chunk goes too. */
  ghost function Cleared(parts: seq<seq<nat>>, value: nat): seq<seq<nat>> {
    if parts == [] then []
    else if value !in parts[0] then [parts[0]] + Cleared(parts[1..], value)
    else if |parts[0]| == 1 then parts[1..]
    else [Without(parts[0], value)] + parts[1..]
  }

  lemma {:induction false} ClearedAt(parts: seq<seq<nat>>, k: nat, value: nat)
    requires k < |parts| && value in parts[k] && forall j :: 0 <= j < k ==> value !in parts[j]
    ensures Cleared(parts, value) == if |parts[k]| == 1 then parts[..k] + parts[k + 1..]
                                     else parts[k := Without(parts[k], value)]
  {
    if k > 0 {
      ClearedAt(parts[1..], k - 1, value);
    }
  }

  /** In front of the chunk that holds a value first, none holds it. */
  lemma NotBefore(lists: map<ListPtr, Chunk>, chain: seq<ListPtr>, k: nat, idx: nat, value: nat)
    requires FirstAt(lists, chain, k, idx, value)
    ensures value in Part(lists, chain[k]) && forall j :: 0 <= j < k ==> value !in Part(lists, chain[j])
    ensures Without(Part(lists, chain[k]), value) == Part(lists, chain[k])[..idx] + Part(lists, chain[k])[idx + 1..]
  {
    var part := Part(lists, chain[k]);
    assert part[idx] == value && part[..idx] == lists[chain[k]].values[..idx];
    WithoutAt(part, idx, value);
    forall j | 0 <= j < k
      ensures value !in Part(lists, chain[j])
    {
      ValuesAround(lists, chain[..k], j);
    }
  }

  /** Changing chunks of one chain changes the layout of its hash. */
  lemma ChangeLayout(lists: map<ListPtr, Chunk>, lists': map<ListPtr, Chunk>, heads: map<nat, nat>,
      chains: map<nat, seq<ListPtr>>, h: nat, chain: seq<ListPtr>)
    requires MultiOk(lists, heads, chains)
    requires forall p :: p in lists && !(h in chains && p in chains[h]) ==> p in lists' && lists'[p] == lists[p]
    ensures LayoutOf(lists', chains[h := chain]) == LayoutOf(lists, chains)[h := Parts(lists', chain)]
    ensures LayoutOf(lists', chains - {h}) == LayoutOf(lists, chains) - {h}
  {
    hide ChainOk, MultiOk, AllApart;
    forall g | g in chains && g != h
      ensures Parts(lists', chains[g]) == Parts(lists, chains[g])
    {
      OtherParts(lists, lists', heads, chains, h, g);
    }
  }

  lemma OtherParts(lists: map<ListPtr, Chunk>, lists': map<ListPtr, Chunk>, heads: map<nat, nat>,
      chains: map<nat, seq<ListPtr>>, h: nat, g: nat)
    requires MultiOk(lists, heads, chains) && g in chains && g != h
    requires forall p :: p in lists && !(h in chains && p in chains[h]) ==> p in lists' && lists'[p] == lists[p]
    ensures Parts(lists', chains[g]) == Parts(lists, chains[g])
  {
    hide ChainOk;
    assert HeadOk(lists, heads, chains, g);
    assert h in chains ==> Apart(chains[g], chains[h]);
    forall k | 0 <= k < |chains[g]|
      ensures Part(lists', chains[g][k]) == Part(lists, chains[g][k])
    {
      ChainInLists(lists, chains[g], chains[g][k]);
    }
  }

  lemma MyLayout(lists: map<ListPtr, Chunk>, chains: map<nat, seq<ListPtr>>, h: nat)
    ensures h in LayoutOf(lists, chains) <==> h in chains
    ensures h in chains ==> LayoutOf(lists, chains)[h] == Parts(lists, chains[h])
  {
  }

  lemma NewLayout(lists: map<ListPtr, Chunk>, q: ListPtr, value: nat)
    requires q in lists && lists[q] == Chunk(0, seq(MAX_NUMBER, i => if i == 0 then value else 0), 1)
    ensures Parts(lists, [q]) == [[value]]
  {
    assert Part(lists, q) == [value];
  }

  lemma FilledChunk(lists: map<ListPtr, Chunk>, lists': map<ListPtr, Chunk>, chain: seq<ListPtr>, value: nat)
    requires ChainOk(lists, chain) && |chain| > 0
    requires var p := chain[|chain| - 1];
             && p in lists && lists[p].number < |lists[p].values| == MAX_NUMBER
             && lists' == lists[p :=
                     lists[p].(values := lists[p].values[lists[p].number := value], number := lists[p].number + 1)]
    ensures Parts(lists', chain) == Filled(Parts(lists, chain), value)
  {
    hide ChunkOk;
    LastPart(lists, lists', chain[|chain| - 1], value);
    assert forall k :: 0 <= k < |chain| - 1 ==> chain[k] != chain[|chain| - 1];
  }

  lemma FilledNew(lists: map<ListPtr, Chunk>, lists': map<ListPtr, Chunk>, chain: seq<ListPtr>, q: ListPtr, value: nat)
    requires ChainOk(lists, chain) && |chain| > 0 && q !in lists
    requires var p := chain[|chain| - 1];
             && p in lists && lists[p].number == |lists[p].values| == MAX_NUMBER
             && lists' == lists[q := Chunk(0, seq(MAX_NUMBER, i => if i == 0 then value else 0), 1)][p :=
                  lists[p].(nextList := q)]
    ensures Parts(lists', chain + [q]) == Filled(Parts(lists, chain), value)
  {
    forall k | 0 <= k < |chain|
      ensures Part(lists', chain[k]) == Part(lists, chain[k])
    {
      assert ChunkOk(lists, chain, k);
    }
    assert Part(lists', q) == [value];
  }

  lemma ClearedInChunk(lists: map<ListPtr, Chunk>, lists': map<ListPtr, Chunk>, chain: seq<ListPtr>, k: nat, idx: nat,
      value: nat)
    requires ChainOk(lists, chain) && FirstAt(lists, chain, k, idx, value) && lists[chain[k]].number > 1
    requires chain[k] in lists' && lists' == lists[chain[k] := lists'[chain[k]]]
    requires var (x, y) := (lists[chain[k]], lists'[chain[k]]);
             && y.number == x.number - 1 && |y.values| == |x.values|
             && y.values[..y.number] == x.values[..idx] + x.values[idx + 1..x.number]
    ensures Parts(lists', chain) == Cleared(Parts(lists, chain), value)
  {
    hide Without, ChunkOk, Values, Cleared, Part;
    NotBefore(lists, chain, k, idx, value);
    ShrunkPart(lists, lists', chain, k, idx);
    OnePart(lists, lists', chain, k);
    MoreThanOne(lists, chain, k);
    hide ChainOk, FirstAt;
    ClearedAt(Parts(lists, chain), k, value);
  }

  lemma MoreThanOne(lists: map<ListPtr, Chunk>, chain: seq<ListPtr>, k: nat)
    requires ChainOk(lists, chain) && k < |chain| && chain[k] in lists && lists[chain[k]].number > 1
    ensures |Part(lists, chain[k])| > 1
  {
    assert ChunkOk(lists, chain, k);
  }

  lemma OnePart(lists: map<ListPtr, Chunk>, lists': map<ListPtr, Chunk>, chain: seq<ListPtr>, k: nat)
    requires ChainOk(lists, chain) && k < |chain| && chain[k] in lists'
    requires lists' == lists[chain[k] := lists'[chain[k]]]
    ensures Parts(lists', chain) == Parts(lists, chain)[k := Part(lists', chain[k])]
  {
    hide ChunkOk;
    forall j | 0 <= j < |chain| && j != k
      ensures Part(lists', chain[j]) == Part(lists, chain[j])
    {
      assert chain[j] != chain[k];
    }
  }

  lemma ClearedChunk(lists: map<ListPtr, Chunk>, lists': map<ListPtr, Chunk>, chain: seq<ListPtr>, k: nat, value: nat)
    requires ChainOk(lists, chain) && FirstAt(lists, chain, k, 0, value) && lists[chain[k]].number == 1
    requires forall p :: p in chain && p != chain[k] ==> Part(lists', p) == Part(lists, p)
    ensures Parts(lists', chain[..k] + chain[k + 1..]) == Cleared(Parts(lists, chain), value)
  {
    hide Without, ChunkOk, Values, Part, Cleared;
    NotBefore(lists, chain, k, 0, value);
    OneValue(lists, chain, k);
    PartsLess(lists, lists', chain, k);
    hide ChainOk, FirstAt;
    ClearedAt(Parts(lists, chain), k, value);
  }

  lemma PartsLess(lists: map<ListPtr, Chunk>, lists': map<ListPtr, Chunk>, chain: seq<ListPtr>, k: nat)
    requires ChainOk(lists, chain) && k < |chain|
    requires forall p :: p in chain && p != chain[k] ==> Part(lists', p) == Part(lists, p)
    ensures Parts(lists', chain[..k] + chain[k + 1..]) == Parts(lists, chain)[..k] + Parts(lists, chain)[k + 1..]
  {
    hide ChunkOk, Part;
    forall j | 0 <= j < |chain| && j != k
      ensures Part(lists', chain[j]) == Part(lists, chain[j])
    {
      assert chain[j] != chain[k];
    }
  }

  // ----- the places of a chain -----

  /** Index idx of chunk k, counted over the whole chain. */
  ghost function Index(lists: map<ListPtr, Chunk>, chain: seq<ListPtr>, k: nat, idx: nat): nat
    requires k <= |chain|
  {
    |Values(lists, chain[..k])| + idx
  }

  lemma IndexInValues(lists: map<ListPtr, Chunk>, chain: seq<ListPtr>, k: nat, idx: nat)
    requires ChainOk(lists, chain) && k < |chain| && chain[k] in lists && idx < lists[chain[k]].number
    ensures Index(lists, chain, k, idx) < |Values(lists, chain)| && idx < |lists[chain[k]].values|
    ensures Values(lists, chain)[Index(lists, chain, k, idx)] == lists[chain[k]].values[idx]
  {
    assert ChunkOk(lists, chain, k);
    ValuesAround(lists, chain, k);
    assert Part(lists, chain[k])[idx] == lists[chain[k]].values[idx];
  }

  /** Behind the last value of a chunk comes the first of the next one, or the end. */
  lemma IndexCarries(lists: map<ListPtr, Chunk>, chain: seq<ListPtr>, k: nat)
    requires ChainOk(lists, chain) && k < |chain|
    ensures chain[k] in lists && Index(lists, chain, k + 1, 0) == Index(lists, chain, k, lists[chain[k]].number)
    ensures k + 1 == |chain| ==> Index(lists, chain, k + 1, 0) == |Values(lists, chain)|
  {
    assert ChunkOk(lists, chain, k);
    assert chain[..k + 1] == chain[..k] + [chain[k]];
    ValuesSplit(lists, chain[..k], [chain[k]]);
    assert Values(lists, [chain[k]]) == Part(lists, chain[k]) + [];
    assert k + 1 == |chain| ==> chain[..k + 1] == chain;
  }

  class MultiMapRef {
    const skMap: SkipMap
    var lists: map<ListPtr, Chunk>
    ghost var chains: map<nat, seq<ListPtr>>

    ghost predicate Valid()
      reads this, skMap
    {
      skMap.Valid() && MultiOk(lists, skMap.Map(), chains)
    }

    /** The multimap: from hashes to non-empty sequences of values. */
    ghost function Contents(): map<nat, seq<nat>>
      reads this
    {
      View(lists, chains)
    }

    /** The values as they lie in chunks. */
    ghost function Layout(): map<nat, seq<seq<nat>>>
      reads this
    {
      LayoutOf(lists, chains)
    }

    constructor (maxLevel: nat)
      requires 1 <= maxLevel <= TRACE_LEVELS
      ensures Valid() && fresh(skMap) && Contents() == map[] && Layout() == map[]
    {
      skMap := new SkipMap(maxLevel);
      lists, chains := map[], map[];
    }

    method NewListPtr() returns (p: ListPtr)
      ensures p != 0 && p !in lists
    {
      UnusedExists(lists.Keys);
      p :| p != 0 && p !in lists;
    }
  }

  class MultiIterator {
    const multi: MultiMapRef
    const iter: SkipIterator
    var currentListPtr: ListPtr
    var currentIndex: nat
    var myHash: nat

    ghost predicate Valid()
      reads this, multi, multi.skMap, iter
    {
      multi.Valid() && iter.skMapRef == multi.skMap && iter.Valid()
    }

    /** The state that findHash leaves. */
    ghost predicate FoundHash()
      requires Valid()
      reads this, multi, multi.skMap, iter, iter.trace
    {
      && iter.Positioned(myHash) && currentIndex == 0
      && currentListPtr == if myHash in multi.chains && |multi.chains[myHash]| > 0 then multi.chains[myHash][0] else 0
    }

    /** Where a value can be inserted: at any chunk of the hash, or where a new hash belongs. */
    ghost predicate Ready()
      requires Valid()
      reads this, multi, multi.skMap, iter, iter.trace
    {
      && iter.Positioned(myHash)
      && if myHash in multi.chains && |multi.chains[myHash]| > 0 then currentListPtr in multi.chains[myHash]
            else currentListPtr == 0
    }

    constructor (multi: MultiMapRef, hash: nat)
      requires multi.Valid()
      ensures Valid() && this.multi == multi && myHash == hash && FoundHash() && fresh(iter) && fresh(iter.trace)
    {
      this.multi := multi;
      iter := new SkipIterator(multi.skMap);
      currentListPtr, currentIndex, myHash := 0, 0, hash;
      new;
      FindHash(hash);
    }

    /** findHash with findList */
    method FindHash(hash: nat)
      requires Valid()
      modifies this, iter`currentItemPtr, iter.trace
      ensures Valid() && myHash == hash && FoundHash()
    {
      hide SkipOk, Below, Last, ChainOk, AllApart, MultiOk, View;
      currentListPtr, currentIndex, myHash := 0, 0, hash;
      iter.FindClosest(hash);
      iter.Found(hash);
      if iter.currentItemPtr != 0 {
        currentListPtr := iter.GetValue();
        var found := iter.GetHash();
        if currentListPtr != 0 && found != myHash {
          currentListPtr, currentIndex := 0, 0;
        }
      }
      HeadOfHash(multi.lists, multi.skMap.Map(), multi.chains, hash);
    }

    /** The values of the requested hash; none if the hash is not there. */
    ghost function MyValues(): seq<nat>
      reads this, multi, multi.skMap
    {
      if myHash in multi.Contents() then multi.Contents()[myHash] else []
    }

    ghost function MyParts(): seq<seq<nat>>
      reads this, multi, multi.skMap
    {
      if myHash in multi.Layout() then multi.Layout()[myHash] else []
    }

    /** insert: the value goes to the end of the sequence of the hash. The iterator can insert again, unless the hash
        came before all others: then it is left unpositioned, and another insert would fail an assertion. */
    method Insert(value: nat)
      requires Valid() && Ready()
      modifies this, iter`currentItemPtr, multi, multi.skMap
      ensures Valid() && myHash == old(myHash)
      ensures multi.Contents() == old(multi.Contents())[myHash := old(MyValues()) + [value]]
      ensures multi.Layout() == old(multi.Layout())[myHash := Filled(old(MyParts()), value)]
      ensures if old(iter.currentItemPtr == 0 && multi.skMap.head != 0) then iter.currentItemPtr == 0 else Ready()
    {
      hide SkipOk, Below, Last, ChainOk, AllApart, MultiOk, Values, LayoutOf, Parts, View;
      iter.Found(myHash);
      HeadOfHash(multi.lists, multi.skMap.Map(), multi.chains, myHash);
      HashInView(multi.lists, multi.chains, myHash);
      var isNew := iter.currentItemPtr == 0;
      if !isNew {
        var hash := iter.GetHash();
        isNew := hash != myHash;
      }
      if isNew {
        assert MyValues() + [value] == [value];
        MyLayout(multi.lists, multi.chains, myHash);
        assert [] + [[value]] == [[value]];
        InsertNewHash(value);
      } else {
        var currentList, k := LastChunk();
        if multi.lists[currentListPtr].number == MAX_NUMBER {
          InsertNewChunk(value, k);
        } else {
          InsertInChunk(value, k);
        }
      }
    }

    /** A new hash gets a chunk with one value. */
    method InsertNewHash(value: nat)
      requires Valid() && Ready() && myHash !in multi.skMap.Map()
      modifies this, iter`currentItemPtr, multi, multi.skMap
      ensures Valid() && myHash == old(myHash)
      ensures multi.Contents() == old(multi.Contents())[myHash := [value]]
      ensures multi.Layout() == old(multi.Layout())[myHash := [[value]]]
      ensures if old(iter.currentItemPtr == 0 && multi.skMap.head != 0) then iter.currentItemPtr == 0 else Ready()
    {
      hide SkipOk, Below, Last, ChainOk, ChunkOk, HeadOk, AllApart, MultiOk, Values, Part, View,
           LayoutOf, Parts;
      ghost var lists, heads, chains := multi.lists, multi.skMap.Map(), multi.chains;
      iter.Found(myHash);
      currentListPtr := multi.NewListPtr();
      multi.lists := multi.lists[currentListPtr := Chunk(0, seq(MAX_NUMBER, i => if i == 0 then value else 0), 1)];
      iter.Insert(myHash, currentListPtr);
      ghost var chain := [currentListPtr];
      NewChain(lists, multi.lists, currentListPtr, value);
      KeysOfHeads(lists, heads, chains);
      ChangeChain(lists, multi.lists, heads, multi.skMap.Map(), chains, myHash, chain);
      ChangeLayout(lists, multi.lists, heads, chains, myHash, chain);
      NewLayout(multi.lists, currentListPtr, value);
      multi.chains := chains[myHash := chain];
    }

    /** The loop to the last chunk of the hash. */
    method LastChunk() returns (currentList: Chunk, ghost k: nat)
      requires Valid() && myHash in multi.chains && |multi.chains[myHash]| > 0
            && ChainOk(multi.lists, multi.chains[myHash])
      requires currentListPtr in multi.chains[myHash]
      modifies `currentListPtr
      ensures k == |multi.chains[myHash]| - 1 && currentListPtr == multi.chains[myHash][k]
            && currentListPtr in multi.lists
      ensures currentList == multi.lists[currentListPtr] && ChunkOk(multi.lists, multi.chains[myHash], k)
    {
      hide SkipOk, AllApart, MultiOk;
      ghost var chain := multi.chains[myHash];
      k :| 0 <= k < |chain| && chain[k] == currentListPtr;
      assert ChunkOk(multi.lists, chain, k);
      NoNullChunk(multi.lists, chain);
      currentList := multi.lists[currentListPtr];
      while currentList.nextList != 0
        invariant k < |chain| && currentListPtr == chain[k] && currentListPtr in multi.lists
              && currentList == multi.lists[currentListPtr]
        invariant ChunkOk(multi.lists, chain, k)
        decreases |chain| - k
      {
        currentListPtr := currentList.nextList;
        k := k + 1;
        assert ChunkOk(multi.lists, chain, k);
        currentList := multi.lists[currentListPtr];
      }
    }

    /** erase(value), for a value that is there: its first occurrence goes, the others keep their order,
        and the hash goes with its last value. */
    method Erase(value: nat)
      requires Valid() && FoundHash() && value in MyValues()
      modifies this, iter`currentItemPtr, multi, multi.skMap
      ensures Valid() && myHash == old(myHash)
      ensures multi.Contents() == if |old(MyValues())| == 1 then old(multi.Contents()) - {myHash}
                                  else old(multi.Contents())[myHash := Without(old(MyValues()), value)]
      ensures multi.Layout() == if |old(MyValues())| == 1 then old(multi.Layout()) - {myHash}
                                else old(multi.Layout())[myHash := Cleared(old(MyParts()), value)]
    {
      hide SkipOk, Below, Last, ChainOk, AllApart, MultiOk, Values, Without;
      iter.Found(myHash);
      HeadOfHash(multi.lists, multi.skMap.Map(), multi.chains, myHash);
      var lastListPtr, idx;
      ghost var k;
      lastListPtr, idx, k := Search(value);
      var currentList := multi.lists[currentListPtr];
      FoundChunk(multi.lists, multi.chains[myHash], k, value);
      if currentList.number > 1 {
        EraseFromChunk(value, idx, k);
      } else if lastListPtr != 0 {
        EraseChunk(value, lastListPtr, k);
      } else if currentList.nextList != 0 {
        EraseFirstChunk(value);
      } else {
        EraseHash(value);
      }
    }

    /** The search of erase: the first occurrence of the value, and the chunk before. */
    method Search(value: nat) returns (lastListPtr: ListPtr, idx: nat, ghost k: nat)
      requires Valid() && myHash in multi.chains && |multi.chains[myHash]| > 0
            && ChainOk(multi.lists, multi.chains[myHash])
      requires currentListPtr == multi.chains[myHash][0] && value in Values(multi.lists, multi.chains[myHash])
      modifies `currentListPtr
      ensures FirstAt(multi.lists, multi.chains[myHash], k, idx, value) && currentListPtr == multi.chains[myHash][k]
      ensures lastListPtr == if k > 0 then multi.chains[myHash][k - 1] else 0
    {
      hide SkipOk, AllApart, MultiOk, Values;
      ghost var lists, chain := multi.lists, multi.chains[myHash];
      lastListPtr, idx, k := 0, 0, 0;
      NoNullChunk(lists, chain);
      SearchStart(lists, chain, value);
      while true
        invariant k < |chain| && currentListPtr == chain[k]
        invariant lastListPtr == if k > 0 then chain[k - 1] else 0
        invariant value !in Values(lists, chain[..k])
        decreases |chain| - k
      {
        assert ChunkOk(lists, chain, k);
        var currentList := multi.lists[currentListPtr];
        idx := 0;
        while idx < currentList.number && currentList.values[idx] != value
          invariant idx <= currentList.number && value !in currentList.values[..idx]
        {
          idx := idx + 1;
        }
        if idx < currentList.number {
          return;
        }
        SearchOn(lists, chain, k, value);
        lastListPtr := currentListPtr;
        currentListPtr := currentList.nextList;
        k := k + 1;
      }
    }

    /** All values behind it move one place to the left. */
    method EraseFromChunk(value: nat, idx: nat, ghost k: nat)
      requires Valid() && myHash in multi.chains && FirstAt(multi.lists, multi.chains[myHash], k, idx, value)
      requires ChainOk(multi.lists, multi.chains[myHash]) && currentListPtr == multi.chains[myHash][k]
            && multi.lists[currentListPtr].number > 1
      modifies multi
      ensures Valid()
      ensures multi.Contents() == old(multi.Contents())[myHash := Without(old(MyValues()), value)]
      ensures multi.Layout() == old(multi.Layout())[myHash := Cleared(old(MyParts()), value)]
    {
      hide SkipOk, ChainOk, AllApart, MultiOk, Values, Without, LayoutOf, Parts, Cleared, View, FirstAt;
      ghost var lists, heads, chains := multi.lists, multi.skMap.Map(), multi.chains;
      ghost var chain := chains[myHash];
      MyChain(lists, chains, myHash);
      MyLayout(lists, chains, myHash);
      FoundIn(lists, chain, k, idx, value);
      ShiftLeft(idx);
      ClearedInChunk(lists, multi.lists, chain, k, idx, value);
      ChangeLayout(lists, multi.lists, heads, chains, myHash, chain);
      EraseInChunk(lists, multi.lists, chain, k, idx, value);
      HeadOfHash(lists, heads, chains, myHash);
      assert heads[myHash := chain[0]] == heads;
      ChangeChain(lists, multi.lists, heads, heads, chains, myHash, chain);
      multi.chains := chains[myHash := chain];
    }

    /** The loop that moves the values behind idx. */
    method ShiftLeft(idx: nat)
      requires currentListPtr in multi.lists
            && idx < multi.lists[currentListPtr].number <= |multi.lists[currentListPtr].values|
      modifies multi`lists
      ensures currentListPtr in multi.lists
            && multi.lists == old(multi.lists)[currentListPtr := multi.lists[currentListPtr]]
      ensures var x, y := old(multi.lists[currentListPtr]), multi.lists[currentListPtr];
              && y.nextList == x.nextList && y.number == x.number - 1 && |y.values| == |x.values|
              && y.values[..y.number] == x.values[..idx] + x.values[idx + 1..x.number]
    {
      hide Shifted;
      ghost var lists, x := multi.lists, multi.lists[currentListPtr];
      ShiftNone(x.values, idx);
      var i := idx;
      while i < multi.lists[currentListPtr].number - 1
        invariant idx <= i <= x.number - 1
        invariant currentListPtr in multi.lists && multi.lists == lists[currentListPtr := multi.lists[currentListPtr]]
        invariant multi.lists[currentListPtr] == x.(values := multi.lists[currentListPtr].values)
        invariant |multi.lists[currentListPtr].values| == |x.values|
        invariant Shifted(x.values, multi.lists[currentListPtr].values, idx, i)
      {
        var list := multi.lists[currentListPtr];
        ShiftOne(x.values, list.values, idx, i);
        multi.lists := multi.lists[currentListPtr := list.(values := list.values[i := list.values[i + 1]])];
        i := i + 1;
      }
      var list := multi.lists[currentListPtr];
      multi.lists :=
          multi.lists[currentListPtr :=
            list.(values := list.values[list.number - 1 := CLEARED], number := list.number - 1)];
      ShiftedPart(x.values, list.values, x.number, idx);
    }

    /** A chunk with one value is unlinked and freed; where the iterator stands then is read from freed memory. */
    method EraseChunk(value: nat, lastListPtr: ListPtr, ghost k: nat)
      requires Valid() && myHash in multi.chains && FirstAt(multi.lists, multi.chains[myHash], k, 0, value) && k > 0
      requires ChainOk(multi.lists, multi.chains[myHash]) && currentListPtr == multi.chains[myHash][k]
            && multi.lists[currentListPtr].number == 1
      requires lastListPtr == multi.chains[myHash][k - 1] && lastListPtr in multi.lists
      modifies `currentListPtr, `currentIndex, multi
      ensures Valid()
      ensures multi.Contents() == old(multi.Contents())[myHash := Without(old(MyValues()), value)]
      ensures multi.Layout() == old(multi.Layout())[myHash := Cleared(old(MyParts()), value)]
    {
      hide SkipOk, ChainOk, AllApart, MultiOk, Values, Without, LayoutOf, Parts, Part, Cleared, View, FirstAt;
      ghost var lists, heads, chains := multi.lists, multi.skMap.Map(), multi.chains;
      ghost var chain := chains[myHash];
      MyChain(lists, chains, myHash);
      MyLayout(lists, chains, myHash);
      FoundIn(lists, chain, k, 0, value);
      ChainApart(lists, chain);
      multi.lists :=
          multi.lists[lastListPtr := multi.lists[lastListPtr].(nextList := multi.lists[currentListPtr].nextList)];
      multi.lists := multi.lists - {currentListPtr};
      UnlinkChunk(lists, chain, k, value);
      UnlinkedParts(lists, chain, k, value);
      HeadOfHash(lists, heads, chains, myHash);
      ghost var chain' := chain[..k] + chain[k + 1..];
      assert chain'[0] == chain[0] && heads[myHash := chain[0]] == heads;
      ChainParts(chain, k);
      ChangeChain(lists, multi.lists, heads, heads, chains, myHash, chain');
      ChangeLayout(lists, multi.lists, heads, chains, myHash, chain');
      multi.chains := chains[myHash := chain'];
      currentListPtr, currentIndex := *, 0;
    }

    /** The first chunk goes: the skip list leads to the second. */
    method EraseFirstChunk(value: nat)
      requires Valid() && iter.Positioned(myHash) && myHash in multi.chains
            && FirstAt(multi.lists, multi.chains[myHash], 0, 0, value)
      requires ChainOk(multi.lists, multi.chains[myHash]) && currentListPtr == multi.chains[myHash][0]
      requires multi.lists[currentListPtr].number == 1 && multi.lists[currentListPtr].nextList != 0
      modifies `currentListPtr, `currentIndex, multi, multi.skMap
      ensures Valid()
      ensures multi.Contents() == old(multi.Contents())[myHash := Without(old(MyValues()), value)]
      ensures multi.Layout() == old(multi.Layout())[myHash := Cleared(old(MyParts()), value)]
    {
      hide SkipOk, Below, Last, ChainOk, AllApart, MultiOk, Values, Without, View, FirstAt, MapOf, LayoutOf, Parts,
        Cleared;
      ghost var lists, heads, chains := multi.lists, multi.skMap.Map(), multi.chains;
      ghost var chain := chains[myHash];
      HeadOfHash(lists, heads, chains, myHash);
      MyChain(lists, chains, myHash);
      iter.Found(myHash);
      NoNullChunk(lists, chain);
      NextChunk(lists, chain, 0);
      iter.SetValue(multi.lists[currentListPtr].nextList, iter.Place(myHash));
      multi.lists := multi.lists - {currentListPtr};
      FirstChunkGone(lists, heads, chains, myHash, value);
      MyLayout(lists, chains, myHash);
      FirstPartGone(lists, heads, chains, myHash, value);
      multi.chains := chains[myHash := chain[1..]];
      currentListPtr, currentIndex := *, 0;
    }

    /** The only chunk goes, and the hash with it. */
    method EraseHash(value: nat)
      requires Valid() && iter.Positioned(myHash) && myHash in multi.chains
            && FirstAt(multi.lists, multi.chains[myHash], 0, 0, value)
      requires ChainOk(multi.lists, multi.chains[myHash]) && currentListPtr == multi.chains[myHash][0]
      requires multi.lists[currentListPtr].number == 1 && multi.lists[currentListPtr].nextList == 0
      modifies `currentListPtr, `currentIndex, iter`currentItemPtr, multi, multi.skMap
      ensures Valid() && |old(MyValues())| == 1
      ensures multi.Contents() == old(multi.Contents()) - {myHash} && multi.Layout() == old(multi.Layout()) - {myHash}
    {
      hide SkipOk, Below, Last, ChainOk, AllApart, MultiOk, Values, LayoutOf, Parts, View;
      ghost var lists, heads, chains := multi.lists, multi.skMap.Map(), multi.chains;
      ghost var chain := chains[myHash];
      MyChain(lists, chains, myHash);
      HeadOfHash(lists, heads, chains, myHash);
      iter.Found(myHash);
      OnlyChunk(lists, chain);
      multi.lists := multi.lists - {currentListPtr};
      iter.Erase(myHash);
      RemoveChain(lists, multi.lists, heads, chains, myHash);
      ChangeLayout(lists, multi.lists, heads, chains, myHash, chain);
      multi.chains := chains - {myHash};
      currentListPtr, currentIndex := 0, 0;
    }

    /** The loop `for (; iter; iter++)` after findHash visits the whole sequence of the hash, in order. */
    method Enumerate() returns (values: seq<nat>)
      requires Valid() && FoundHash()
      modifies `currentListPtr, `currentIndex
      ensures values == MyValues()
    {
      hide SkipOk, ChainOk, AllApart, MultiOk, Values, Below, Last;
      HeadOfHash(multi.lists, multi.skMap.Map(), multi.chains, myHash);
      values := [];
      if currentListPtr == 0 {
        return;
      }
      ghost var chain, k: nat := multi.chains[myHash], 0;
      StartOfChain(multi.lists, chain);
      while currentListPtr != 0
        invariant k <= |chain| && Index(multi.lists, chain, k, currentIndex) == |values| <= |MyValues()|
        invariant values == MyValues()[..|values|]
        invariant if k < |chain|
                  then currentListPtr == chain[k] && currentListPtr in multi.lists && currentListPtr != 0
                      && currentIndex < multi.lists[currentListPtr].number
                  else currentListPtr == 0 && |values| == |MyValues()|
        decreases |MyValues()| - |values|
      {
        var value := GetValue(k);
        values := values + [value];
        k := Next(k);
        ChainNotNull(multi.lists, chain);
      }
    }

    /** getValue: the value at place i of the sequence. */
    method GetValue(ghost k: nat) returns (value: nat)
      requires Valid() && myHash in multi.chains && k < |multi.chains[myHash]|
            && currentListPtr == multi.chains[myHash][k]
      requires currentListPtr in multi.lists && currentIndex < multi.lists[currentListPtr].number
      ensures Index(multi.lists, multi.chains[myHash], k, currentIndex) < |MyValues()|
      ensures value == MyValues()[Index(multi.lists, multi.chains[myHash], k, currentIndex)]
    {
      hide SkipOk, ChainOk, AllApart, MultiOk, Values;
      HeadOfHash(multi.lists, multi.skMap.Map(), multi.chains, myHash);
      IndexInValues(multi.lists, multi.chains[myHash], k, currentIndex);
      value := multi.lists[currentListPtr].values[currentIndex];
    }

    /** operator++: on to the next place of the sequence, or off its end. */
    method Next(ghost k: nat) returns (ghost k': nat)
      requires Valid() && myHash in multi.chains && k < |multi.chains[myHash]|
            && currentListPtr == multi.chains[myHash][k]
      requires currentListPtr in multi.lists && currentIndex < multi.lists[currentListPtr].number
      modifies `currentListPtr, `currentIndex
      ensures k' <= |multi.chains[myHash]|
      ensures Index(multi.lists, multi.chains[myHash], k', currentIndex)
            == old(Index(multi.lists, multi.chains[myHash], k, currentIndex)) + 1
      ensures k' < |multi.chains[myHash]| ==>
                currentListPtr == multi.chains[myHash][k'] && currentListPtr in multi.lists
                && currentIndex < multi.lists[currentListPtr].number
      ensures k' == |multi.chains[myHash]| ==>
                currentListPtr == 0 && currentIndex == 0
                && Index(multi.lists, multi.chains[myHash], k', currentIndex) == |MyValues()|
    {
      hide SkipOk, AllApart, MultiOk, Values;
      HeadOfHash(multi.lists, multi.skMap.Map(), multi.chains, myHash);
      ghost var chain := multi.chains[myHash];
      assert ChunkOk(multi.lists, chain, k);
      IndexCarries(multi.lists, chain, k);
      k' := k;
      var currentList := multi.lists[currentListPtr];
      currentIndex := currentIndex + 1;
      if currentIndex >= currentList.number {
        k' := k + 1;
        assert k' < |chain| ==> ChunkOk(multi.lists, chain, k');
        currentListPtr := currentList.nextList;
        currentIndex := 0;
      }
    }

    /** The last chunk is full: a new one is linked behind it. */
    method InsertNewChunk(value: nat, ghost k: nat)
      requires Valid() && myHash in multi.chains && k == |multi.chains[myHash]| - 1
            && currentListPtr == multi.chains[myHash][k]
      requires currentListPtr in multi.lists && ChainOk(multi.lists, multi.chains[myHash])
      requires multi.lists[currentListPtr].number == |multi.lists[currentListPtr].values| == MAX_NUMBER
      modifies multi
      ensures Valid() && myHash in multi.chains && currentListPtr in multi.chains[myHash]
      ensures multi.Contents() == old(multi.Contents())[myHash := old(MyValues()) + [value]]
      ensures multi.Layout() == old(multi.Layout())[myHash := Filled(old(MyParts()), value)]
    {
      hide SkipOk, ChainOk, AllApart, MultiOk, Values, LayoutOf, Parts, Filled, View;
      ghost var lists, heads, chains := multi.lists, multi.skMap.Map(), multi.chains;
      ghost var chain := chains[myHash];
      MyChain(lists, chains, myHash);
      MyLayout(lists, chains, myHash);
      var newListPtr := multi.NewListPtr();
      multi.lists := multi.lists[newListPtr := Chunk(0, seq(MAX_NUMBER, i => if i == 0 then value else 0), 1)];
      multi.lists := multi.lists[currentListPtr := multi.lists[currentListPtr].(nextList := newListPtr)];
      AppendChunk(lists, multi.lists, chain, newListPtr, value);
      FilledNew(lists, multi.lists, chain, newListPtr, value);
      ChangeLayout(lists, multi.lists, heads, chains, myHash, chain + [newListPtr]);
      HeadOfHash(lists, heads, chains, myHash);
      ChangeChain(lists, multi.lists, heads, heads, chains, myHash, chain + [newListPtr]);
      multi.chains := chains[myHash := chain + [newListPtr]];
    }

    method InsertInChunk(value: nat, ghost k: nat)
      requires Valid() && myHash in multi.chains && k == |multi.chains[myHash]| - 1
            && currentListPtr == multi.chains[myHash][k]
      requires currentListPtr in multi.lists && ChainOk(multi.lists, multi.chains[myHash])
      requires multi.lists[currentListPtr].number < |multi.lists[currentListPtr].values| == MAX_NUMBER
      modifies multi
      ensures Valid() && myHash in multi.chains && currentListPtr in multi.chains[myHash]
      ensures multi.Contents() == old(multi.Contents())[myHash := old(MyValues()) + [value]]
      ensures multi.Layout() == old(multi.Layout())[myHash := Filled(old(MyParts()), value)]
    {
      hide SkipOk, ChainOk, AllApart, MultiOk, Values, LayoutOf, Parts, Filled, View;
      ghost var lists, heads, chains := multi.lists, multi.skMap.Map(), multi.chains;
      ghost var chain := chains[myHash];
      MyChain(lists, chains, myHash);
      MyLayout(lists, chains, myHash);
      var list := multi.lists[currentListPtr];
      multi.lists :=
          multi.lists[currentListPtr := list.(values := list.values[list.number := value], number := list.number + 1)];
      AppendInChunk(lists, multi.lists, chain, value);
      FilledChunk(lists, multi.lists, chain, value);
      ChangeLayout(lists, multi.lists, heads, chains, myHash, chain);
      HeadOfHash(lists, heads, chains, myHash);
      ChangeChain(lists, multi.lists, heads, heads, chains, myHash, chain);
      multi.chains := chains[myHash := chain];
    }
  }

  /** The values from idx up to i have moved one place to the left. */
  ghost predicate Shifted(x: seq<nat>, y: seq<nat>, idx: nat, i: nat) {
    && |y| == |x| && (idx <= i < |x| || idx == i == |x|)
    && (forall j :: 0 <= j < idx ==> y[j] == x[j])
    && (forall j :: idx <= j < i ==> y[j] == x[j + 1])
    && (forall j :: i <= j < |y| ==> y[j] == x[j])
  }

  lemma ShiftNone(x: seq<nat>, idx: nat)
    requires idx < |x|
    ensures Shifted(x, x, idx, idx)
  {
  }

  lemma ShiftOne(x: seq<nat>, y: seq<nat>, idx: nat, i: nat)
    requires Shifted(x, y, idx, i) && i + 1 < |y|
    ensures Shifted(x, y[i := y[i + 1]], idx, i + 1)
  {
  }

  lemma ShiftedPart(x: seq<nat>, y: seq<nat>, number: nat, idx: nat)
    requires idx < number <= |x| && Shifted(x, y, idx, number - 1)
    ensures y[number - 1 := CLEARED][..number - 1] == x[..idx] + x[idx + 1..number]
  {
    var z, w := y[number - 1 := CLEARED][..number - 1], x[..idx] + x[idx + 1..number];
    forall j | 0 <= j < number - 1
      ensures z[j] == w[j]
    {
      assert z[j] == y[j];
    }
  }

  lemma FoundChunk(lists: map<ListPtr, Chunk>, chain: seq<ListPtr>, k: nat, value: nat)
    requires ChainOk(lists, chain) && k < |chain|
    ensures chain[k] in lists && chain[k] != 0 && lists[chain[k]].number >= 1
    ensures k > 0 ==> chain[k - 1] in lists && chain[k - 1] != 0
    ensures lists[chain[k]].number > 1 || k > 0 || lists[chain[k]].nextList != 0 ==> |Values(lists, chain)| != 1
  {
    hide Values;
    assert ChunkOk(lists, chain, k);
    ChunkCounts(lists, chain, k);
    if k > 0 {
      assert ChunkOk(lists, chain, k - 1);
      TwoChunks(lists, chain, k - 1);
    }
    if k + 1 < |chain| {
      TwoChunks(lists, chain, k);
    }
  }

  lemma ChunkCounts(lists: map<ListPtr, Chunk>, chain: seq<ListPtr>, k: nat)
    requires ChainOk(lists, chain) && k < |chain|
    ensures chain[k] in lists && 1 <= lists[chain[k]].number <= |Values(lists, chain)|
  {
    assert ChunkOk(lists, chain, k);
    ValuesAround(lists, chain, k);
  }

  lemma TwoChunks(lists: map<ListPtr, Chunk>, chain: seq<ListPtr>, k: nat)
    requires ChainOk(lists, chain) && k + 1 < |chain|
    ensures |Values(lists, chain)| >= 2
  {
    assert ChunkOk(lists, chain, k) && ChunkOk(lists, chain, k + 1);
    ValuesAround(lists, chain, k);
    ValuesAround(lists, chain[k + 1..], 0);
    assert chain[k + 1..][0] == chain[k + 1];
  }

  lemma SearchStart(lists: map<ListPtr, Chunk>, chain: seq<ListPtr>, value: nat)
    ensures value !in Values(lists, chain[..0])
  {
  }

  /** The search goes on behind chunk k, and there is a next chunk if the value is in the chain. */
  lemma SearchOn(lists: map<ListPtr, Chunk>, chain: seq<ListPtr>, k: nat, value: nat)
    requires ChainOk(lists, chain) && k < |chain| && value in Values(lists, chain)
          && value !in Values(lists, chain[..k])
    requires chain[k] in lists && lists[chain[k]].number <= |lists[chain[k]].values|
          && value !in lists[chain[k]].values[..lists[chain[k]].number]
    ensures value !in Values(lists, chain[..k + 1]) && k + 1 < |chain|
  {
    assert chain[..k + 1] == chain[..k] + [chain[k]];
    ValuesSplit(lists, chain[..k], [chain[k]]);
    assert Values(lists, [chain[k]]) == Part(lists, chain[k]) + [];
    TakeAll(chain, k + 1);
  }

  lemma TakeAll(chain: seq<ListPtr>, n: nat)
    requires n <= |chain|
    ensures n == |chain| ==> chain[..n] == chain
  {
  }

  lemma ChainNotNull(lists: map<ListPtr, Chunk>, chain: seq<ListPtr>)
    requires ChainOk(lists, chain)
    ensures forall k :: 0 <= k < |chain| ==> chain[k] != 0
  {
    NoNullChunk(lists, chain);
  }

  lemma StartOfChain(lists: map<ListPtr, Chunk>, chain: seq<ListPtr>)
    requires ChainOk(lists, chain) && |chain| > 0
    ensures chain[0] in lists && lists[chain[0]].number > 0 && Index(lists, chain, 0, 0) == 0
  {
    assert ChunkOk(lists, chain, 0);
  }

  lemma FirstChunkGone(lists: map<ListPtr, Chunk>, heads: map<nat, nat>, chains: map<nat, seq<ListPtr>>, h: nat,
      value: nat)
    requires MultiOk(lists, heads, chains) && h in chains && FirstAt(lists, chains[h], 0, 0, value)
          && ChainOk(lists, chains[h])
    requires lists[chains[h][0]].number == 1 && |chains[h]| > 1
    ensures MultiOk(lists - {chains[h][0]}, heads[h := chains[h][1]], chains[h := chains[h][1..]])
    ensures View(lists - {chains[h][0]}, chains[h := chains[h][1..]])
          == View(lists, chains)[h := Without(Values(lists, chains[h]), value)]
  {
    hide ChainOk, AllApart, MultiOk, Values, Without, View, FirstAt;
    var chain := chains[h];
    DropFirstChunk(lists, chain, value);
    assert chain[..0] + chain[1..] == chain[1..];
    ChainApart(lists, chain);
    ChainParts(chain, 0);
    ChangeChain(lists, lists - {chain[0]}, heads, heads[h := chain[1]], chains, h, chain[1..]);
  }

  lemma ChainApart(lists: map<ListPtr, Chunk>, chain: seq<ListPtr>)
    requires ChainOk(lists, chain)
    ensures forall i, j :: 0 <= i < j < |chain| ==> chain[i] != chain[j]
  {
  }

  lemma MyChain(lists: map<ListPtr, Chunk>, chains: map<nat, seq<ListPtr>>, h: nat)
    requires h in chains
    ensures h in View(lists, chains) && View(lists, chains)[h] == Values(lists, chains[h])
  {
  }

  lemma HashInView(lists: map<ListPtr, Chunk>, chains: map<nat, seq<ListPtr>>, h: nat)
    ensures h in View(lists, chains) <==> h in chains
  {
  }

  lemma FoundIn(lists: map<ListPtr, Chunk>, chain: seq<ListPtr>, k: nat, idx: nat, value: nat)
    requires FirstAt(lists, chain, k, idx, value)
    ensures k < |chain| && chain[k] in lists && idx < lists[chain[k]].number <= |lists[chain[k]].values|
    ensures idx < |Part(lists, chain[k])|
  {
  }

  lemma UnlinkedParts(lists: map<ListPtr, Chunk>, chain: seq<ListPtr>, k: nat, value: nat)
    requires ChainOk(lists, chain) && FirstAt(lists, chain, k, 0, value) && lists[chain[k]].number == 1 && k > 0
          && chain[k - 1] in lists
    ensures var lists' :=
          lists[chain[k - 1] := lists[chain[k - 1]].(nextList := lists[chain[k]].nextList)] - {chain[k]};
            Parts(lists', chain[..k] + chain[k + 1..]) == Cleared(Parts(lists, chain), value)
  {
    hide ChainOk, Cleared, FirstAt, Parts;
    FoundIn(lists, chain, k, 0, value);
    ClearedChunk(lists, lists[chain[k - 1] := lists[chain[k - 1]].(nextList := lists[chain[k]].nextList)] - {chain[k]},
        chain, k, value);
  }

  lemma FirstPartGone(lists: map<ListPtr, Chunk>, heads: map<nat, nat>, chains: map<nat, seq<ListPtr>>, h: nat,
      value: nat)
    requires MultiOk(lists, heads, chains) && h in chains && FirstAt(lists, chains[h], 0, 0, value)
          && ChainOk(lists, chains[h]) && lists[chains[h][0]].number == 1
    ensures LayoutOf(lists - {chains[h][0]}, chains[h := chains[h][1..]])
         == LayoutOf(lists, chains)[h := Cleared(Parts(lists, chains[h]), value)]
  {
    hide ChainOk, MultiOk, Cleared, FirstAt, LayoutOf, Parts;
    var chain := chains[h];
    FoundIn(lists, chain, 0, 0, value);
    ClearedChunk(lists, lists - {chain[0]}, chain, 0, value);
    assert chain[..0] + chain[1..] == chain[1..];
    ChangeLayout(lists, lists - {chain[0]}, heads, chains, h, chain[1..]);
  }

  lemma NextChunk(lists: map<ListPtr, Chunk>, chain: seq<ListPtr>, k: nat)
    requires ChainOk(lists, chain) && k < |chain| && chain[k] in lists && lists[chain[k]].nextList != 0
    ensures k + 1 < |chain| && lists[chain[k]].nextList == chain[k + 1]
  {
    assert ChunkOk(lists, chain, k);
  }

  lemma OnlyChunk(lists: map<ListPtr, Chunk>, chain: seq<ListPtr>)
    requires ChainOk(lists, chain) && |chain| > 0 && chain[0] in lists && lists[chain[0]].number == 1
          && lists[chain[0]].nextList == 0
    ensures chain == [chain[0]] && |Values(lists, chain)| == 1
  {
    assert ChunkOk(lists, chain, 0);
    NoNullChunk(lists, chain);
    assert Values(lists, chain) == Part(lists, chain[0]) + [];
  }

  lemma ChainParts(chain: seq<ListPtr>, k: nat)
    requires k < |chain| && forall i, j :: 0 <= i < j < |chain| ==> chain[i] != chain[j]
    ensures forall p :: p in chain[..k] + chain[k + 1..] <==> p in chain && p != chain[k]
  {
    forall p | p in chain && p != chain[k]
      ensures p in chain[..k] + chain[k + 1..]
    {
      var j :| 0 <= j < |chain| && chain[j] == p;
      assert (chain[..k] + chain[k + 1..])[if j < k then j else j - 1] == p;
    }
  }

  lemma NewChain(lists: map<ListPtr, Chunk>, lists': map<ListPtr, Chunk>, p: ListPtr, value: nat)
    requires p != 0 && p !in lists
          && lists' == lists[p := Chunk(0, seq(MAX_NUMBER, i => if i == 0 then value else 0), 1)]
    ensures ChainOk(lists', [p]) && Values(lists', [p]) == [value]
  {
    assert ChunkOk(lists', [p], 0);
    assert Values(lists', [p]) == Part(lists', p) + [];
  }

  lemma NoNullChunk(lists: map<ListPtr, Chunk>, chain: seq<ListPtr>)
    requires ChainOk(lists, chain)
    ensures forall k :: 0 <= k < |chain| ==> chain[k] != 0 && chain[k] in lists
  {
    forall k | 0 <= k < |chain|
      ensures chain[k] != 0 && chain[k] in lists
    {
      assert ChunkOk(lists, chain, k);
    }
  }

  lemma KeysOfHeads(lists: map<ListPtr, Chunk>, heads: map<nat, nat>, chains: map<nat, seq<ListPtr>>)
    requires MultiOk(lists, heads, chains)
    ensures forall h :: h in chains <==> h in heads
  {
  }

  lemma HeadOfHash(lists: map<ListPtr, Chunk>, heads: map<nat, nat>, chains: map<nat, seq<ListPtr>>, h: nat)
    requires MultiOk(lists, heads, chains)
    ensures h in chains <==> h in heads
    ensures h in chains ==> |chains[h]| > 0 && heads[h] == chains[h][0] != 0 && ChainOk(lists, chains[h])
  {
    if h in chains {
      assert HeadOk(lists, heads, chains, h);
      assert ChunkOk(lists, chains[h], 0);
    }
  }
}
