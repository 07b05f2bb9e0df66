/** The segregated free lists as a linked structure, apart from how it is stored in memory.

    `nodes` maps the address of each listed block to its links, its list and a rank. Ranks fall along
    `next`, so the lists are acyclic; links are mutually inverse, so a block with no predecessor is the
    head of its list. Address 0 is NULL. */
module FreeLists {
  import opened Buckets

  datatype Node = Node(prev: int, next: int, list: int, rank: int)

  ghost predicate PrevOk(nodes: map<int, Node>, heads: seq<int>, a: int)
    requires a in nodes
  {
    var p := nodes[a].prev;
    if p == 0 then 0 <= nodes[a].list < |heads| && heads[nodes[a].list] == a
    else p in nodes && nodes[p].list == nodes[a].list && nodes[a].rank < nodes[p].rank && nodes[p].next == a
  }

  ghost predicate NextOk(nodes: map<int, Node>, a: int)
    requires a in nodes
  {
    var s := nodes[a].next;
    s != 0 ==>
      s in nodes && nodes[s].list == nodes[a].list && nodes[s].rank < nodes[a].rank && nodes[s].prev == a
  }

  ghost predicate NodeOk(nodes: map<int, Node>, heads: seq<int>, stamp: int, a: int)
    requires a in nodes
  {
    && a != 0 && 0 <= nodes[a].list < LISTMAX && 0 <= nodes[a].rank < stamp
    && PrevOk(nodes, heads, a)
    && NextOk(nodes, a)
  }

  ghost predicate HeadOk(nodes: map<int, Node>, heads: seq<int>, k: int)
    requires 0 <= k < |heads|
  {
    heads[k] != 0 ==> heads[k] in nodes && nodes[heads[k]].list == k && nodes[heads[k]].prev == 0
  }

  ghost predicate AllNodesOk(nodes: map<int, Node>, heads: seq<int>, stamp: int) {
    forall a {:trigger NodeOk(nodes, heads, stamp, a)} :: a in nodes ==> NodeOk(nodes, heads, stamp, a)
  }

  ghost predicate AllHeadsOk(nodes: map<int, Node>, heads: seq<int>) {
    |heads| == LISTMAX &&
    forall k {:trigger HeadOk(nodes, heads, k)} :: 0 <= k < LISTMAX ==> HeadOk(nodes, heads, k)
  }

  ghost predicate Linked(nodes: map<int, Node>, heads: seq<int>, stamp: int) {
    0 <= stamp && AllNodesOk(nodes, heads, stamp) && AllHeadsOk(nodes, heads)
  }

  /** The structure after pushing `b` on the front of list `k`. */
  ghost function Pushed(nodes: map<int, Node>, h: int, stamp: int, b: int, k: int): map<int, Node> {
    var joined := if h in nodes then nodes[h := nodes[h].(prev := b)] else nodes;
    joined[b := Node(0, h, k, stamp)]
  }

  lemma PushLinked(nodes: map<int, Node>, heads: seq<int>, stamp: int, b: int, k: int)
    requires Linked(nodes, heads, stamp)
    requires b !in nodes && b != 0 && 0 <= k < LISTMAX
    ensures Linked(Pushed(nodes, heads[k], stamp, b, k), heads[k := b], stamp + 1)
  {
    var h := heads[k];
    var nodes', heads' := Pushed(nodes, h, stamp, b, k), heads[k := b];
    assert HeadOk(nodes, heads, k);
    forall a {:trigger NodeOk(nodes', heads', stamp + 1, a)} | a in nodes'
      ensures NodeOk(nodes', heads', stamp + 1, a)
    {
      PushNodeOk(nodes, heads, stamp, b, k, a);
    }
    forall j {:trigger HeadOk(nodes', heads', j)} | 0 <= j < LISTMAX ensures HeadOk(nodes', heads', j) {
      assert HeadOk(nodes, heads, j);
    }
    assert AllNodesOk(nodes', heads', stamp + 1);
  }

  lemma PushNodeOk(nodes: map<int, Node>, heads: seq<int>, stamp: int, b: int, k: int, a: int)
    requires Linked(nodes, heads, stamp)
    requires b !in nodes && b != 0 && 0 <= k < LISTMAX
    requires a in Pushed(nodes, heads[k], stamp, b, k)
    ensures NodeOk(Pushed(nodes, heads[k], stamp, b, k), heads[k := b], stamp + 1, a)
  {
    var h := heads[k];
    assert HeadOk(nodes, heads, k);
    if h != 0 {
      assert NodeOk(nodes, heads, stamp, h);
    }
    if a != b {
      assert NodeOk(nodes, heads, stamp, a);
      assert nodes[a].next != 0 ==> nodes[a].next != h;
    }
  }

  /** The structure and the heads after unlinking `b`. */
  ghost function Unlinked(nodes: map<int, Node>, b: int): map<int, Node>
    requires b in nodes
  {
    var p, s := nodes[b].prev, nodes[b].next;
    var left := if p in nodes then nodes[p := nodes[p].(next := s)] else nodes;
    var both := if s in left then left[s := left[s].(prev := p)] else left;
    both - {b}
  }

  ghost function HeadsWithout(nodes: map<int, Node>, heads: seq<int>, b: int): seq<int>
    requires b in nodes && 0 <= nodes[b].list < |heads|
  {
    if nodes[b].prev != 0 then heads else heads[nodes[b].list := nodes[b].next]
  }

  lemma UnlinkLinked(nodes: map<int, Node>, heads: seq<int>, stamp: int, b: int)
    requires Linked(nodes, heads, stamp)
    requires b in nodes
    ensures 0 <= nodes[b].list < |heads|
    ensures Linked(Unlinked(nodes, b), HeadsWithout(nodes, heads, b), stamp)
  {
    assert NodeOk(nodes, heads, stamp, b);
    var nodes', heads' := Unlinked(nodes, b), HeadsWithout(nodes, heads, b);
    forall a {:trigger NodeOk(nodes', heads', stamp, a)} | a in nodes' ensures NodeOk(nodes', heads', stamp, a) {
      UnlinkNodeOk(nodes, heads, stamp, b, a);
    }
    forall j {:trigger HeadOk(nodes', heads', j)} | 0 <= j < LISTMAX ensures HeadOk(nodes', heads', j) {
      UnlinkHeadOk(nodes, heads, stamp, b, j);
    }
    assert AllNodesOk(nodes', heads', stamp);
  }

  lemma UnlinkedKeys(nodes: map<int, Node>, b: int)
    requires b in nodes
    ensures Unlinked(nodes, b).Keys == nodes.Keys - {b}
  {
    var p, s := nodes[b].prev, nodes[b].next;
    var left := if p in nodes then nodes[p := nodes[p].(next := s)] else nodes;
    var both := if s in left then left[s := left[s].(prev := p)] else left;
    assert left.Keys == nodes.Keys;
    assert both.Keys == nodes.Keys;
  }

  lemma PushedKeys(nodes: map<int, Node>, h: int, stamp: int, b: int, k: int)
    ensures Pushed(nodes, h, stamp, b, k).Keys == nodes.Keys + {b}
  {
  }

  lemma UnlinkNodeOk(nodes: map<int, Node>, heads: seq<int>, stamp: int, b: int, a: int)
    requires Linked(nodes, heads, stamp)
    requires b in nodes && a in nodes && a != b
    ensures 0 <= nodes[b].list < |heads|
    ensures NodeOk(Unlinked(nodes, b), HeadsWithout(nodes, heads, b), stamp, a)
  {
    hide HeadOk;
    assert NodeOk(nodes, heads, stamp, b);
    assert NodeOk(nodes, heads, stamp, a);
    if nodes[a].prev != 0 {
      assert NodeOk(nodes, heads, stamp, nodes[a].prev);
    }
    if nodes[a].next != 0 {
      assert NodeOk(nodes, heads, stamp, nodes[a].next);
    }
    if nodes[b].prev != 0 {
      assert NodeOk(nodes, heads, stamp, nodes[b].prev);
    }
    if nodes[b].next != 0 {
      assert NodeOk(nodes, heads, stamp, nodes[b].next);
    }
  }

  lemma UnlinkHeadOk(nodes: map<int, Node>, heads: seq<int>, stamp: int, b: int, j: int)
    requires Linked(nodes, heads, stamp)
    requires b in nodes && 0 <= j < LISTMAX
    ensures 0 <= nodes[b].list < |heads|
    ensures HeadOk(Unlinked(nodes, b), HeadsWithout(nodes, heads, b), j)
  {
    assert NodeOk(nodes, heads, stamp, b);
    assert HeadOk(nodes, heads, j);
    if nodes[b].next != 0 {
      assert NodeOk(nodes, heads, stamp, nodes[b].next);
    }
  }

  // ------------------------------------------------------------------------------------------
  // Walking a list from its head

  /** The addresses met by following `next` from `a`. */
  ghost function Chain(nodes: map<int, Node>, heads: seq<int>, stamp: int, a: int): (c: seq<int>)
    requires Linked(nodes, heads, stamp)
    requires a == 0 || a in nodes
    ensures a in c <==> a != 0
    decreases if a in nodes then nodes[a].rank + 1 else 0
  {
    if a == 0 then []
    else
      assert NodeOk(nodes, heads, stamp, a);
      assert nodes[a].next != 0 ==> NodeOk(nodes, heads, stamp, nodes[a].next);
      assert 0 in nodes ==> NodeOk(nodes, heads, stamp, 0);
      [a] + Chain(nodes, heads, stamp, nodes[a].next)
  }

  /** A walk stays in one list, its ranks fall, and consecutive blocks point at each other. */
  lemma {:induction false} ChainOrdered(nodes: map<int, Node>, heads: seq<int>, stamp: int, a: int)
    requires Linked(nodes, heads, stamp)
    requires a in nodes
    ensures var c := Chain(nodes, heads, stamp, a);
      && c != [] && c[0] == a
      && (forall i :: 0 <= i < |c| ==>
            c[i] in nodes && nodes[c[i]].list == nodes[a].list && nodes[c[i]].rank <= nodes[a].rank)
      && (forall i, j :: 0 <= i < j < |c| ==> nodes[c[i]].rank > nodes[c[j]].rank)
      && (forall i :: 0 < i < |c| ==> nodes[c[i - 1]].next == c[i] && nodes[c[i]].prev == c[i - 1])
      && nodes[c[|c| - 1]].next == 0
    decreases nodes[a].rank
  {
    assert NodeOk(nodes, heads, stamp, a);
    var s := nodes[a].next;
    if s != 0 {
      assert NodeOk(nodes, heads, stamp, s);
      ChainOrdered(nodes, heads, stamp, s);
      var c, d := Chain(nodes, heads, stamp, a), Chain(nodes, heads, stamp, s);
      assert c == [a] + d;
      assert forall i :: 0 < i < |c| ==> c[i] == d[i - 1];
    }
  }

  lemma {:induction false} ChainClosed(nodes: map<int, Node>, heads: seq<int>, stamp: int, a: int, x: int)
    requires Linked(nodes, heads, stamp)
    requires a == 0 || a in nodes
    requires x in Chain(nodes, heads, stamp, a)
    ensures x in nodes
    ensures nodes[x].next != 0 ==> nodes[x].next in Chain(nodes, heads, stamp, a)
    decreases if a in nodes then nodes[a].rank + 1 else 0
  {
    assert NodeOk(nodes, heads, stamp, a);
    if x != a {
      ChainClosed(nodes, heads, stamp, nodes[a].next, x);
    } else if nodes[a].next != 0 {
      assert nodes[a].next in Chain(nodes, heads, stamp, nodes[a].next);
    }
  }

  /** Every listed block is met by the walk from the head of its list. */
  lemma {:induction false} Reached(nodes: map<int, Node>, heads: seq<int>, stamp: int, x: int)
    requires Linked(nodes, heads, stamp)
    requires x in nodes
    ensures 0 <= nodes[x].list < |heads|
    ensures var h := heads[nodes[x].list]; h in nodes && x in Chain(nodes, heads, stamp, h)
    decreases stamp - nodes[x].rank
  {
    assert NodeOk(nodes, heads, stamp, x);
    var p := nodes[x].prev;
    if p != 0 {
      assert NodeOk(nodes, heads, stamp, p);
      Reached(nodes, heads, stamp, p);
      ChainClosed(nodes, heads, stamp, heads[nodes[x].list], p);
    }
  }

  /** The walk of list `k` meets the blocks of that list, each exactly once, and nothing else. */
  lemma ListComplete(nodes: map<int, Node>, heads: seq<int>, stamp: int, k: int)
    requires Linked(nodes, heads, stamp)
    requires 0 <= k < LISTMAX
    ensures heads[k] == 0 || heads[k] in nodes
    ensures var c := Chain(nodes, heads, stamp, heads[k]);
      && (forall x :: x in c <==> x in nodes && nodes[x].list == k)
      && (forall i, j :: 0 <= i < j < |c| ==> c[i] != c[j])
  {
    assert HeadOk(nodes, heads, k);
    var h := heads[k];
    if h != 0 {
      ChainOrdered(nodes, heads, stamp, h);
    }
    forall x | x in nodes && nodes[x].list == k ensures x in Chain(nodes, heads, stamp, h) {
      Reached(nodes, heads, stamp, x);
    }
  }

  // ------------------------------------------------------------------------------------------
  // The order of the lists

  /** List `k`, from its head. */
  ghost function ListOf(nodes: map<int, Node>, heads: seq<int>, stamp: int, k: int): seq<int>
    requires Linked(nodes, heads, stamp) && 0 <= k < LISTMAX
  {
    assert HeadOk(nodes, heads, k);
    Chain(nodes, heads, stamp, heads[k])
  }

  function Without(s: seq<int>, b: int): seq<int> {
    if s == [] then [] else (if s[0] == b then [] else [s[0]]) + Without(s[1..], b)
  }

  lemma {:induction false} WithoutAbsent(s: seq<int>, b: int)
    requires b !in s
    ensures Without(s, b) == s
  {
    if s != [] {
      WithoutAbsent(s[1..], b);
    }
  }

  ghost predicate NextKept(nodes: map<int, Node>, nodes': map<int, Node>, x: int)
    requires x in nodes
  {
    x in nodes' && nodes'[x].next == nodes[x].next
  }

  /** Walks only follow the next links. */
  lemma {:induction false} ChainKept(nodes: map<int, Node>, heads: seq<int>, stamp: int,
                                     nodes': map<int, Node>, heads': seq<int>, stamp': int, a: int)
    requires Linked(nodes, heads, stamp) && Linked(nodes', heads', stamp')
    requires forall x {:trigger NextKept(nodes, nodes', x)} :: x in nodes ==> NextKept(nodes, nodes', x)
    requires a == 0 || (a in nodes && NextKept(nodes, nodes', a))
    ensures Chain(nodes', heads', stamp', a) == Chain(nodes, heads, stamp, a)
    decreases if a in nodes then nodes[a].rank + 1 else 0
  {
    if a != 0 {
      assert NodeOk(nodes, heads, stamp, a);
      var s := nodes[a].next;
      assert s != 0 ==> NodeOk(nodes, heads, stamp, s) && NextKept(nodes, nodes', s);
      assert 0 in nodes ==> NodeOk(nodes, heads, stamp, 0);
      ChainKept(nodes, heads, stamp, nodes', heads', stamp', s);
    }
  }

  /** Pushing puts the block in front of its list and leaves the order of all lists as it was. */
  lemma PushOrder(nodes: map<int, Node>, heads: seq<int>, stamp: int, b: int, k: int, j: int)
    requires Linked(nodes, heads, stamp) && b !in nodes && b != 0 && 0 <= k < LISTMAX && 0 <= j < LISTMAX
    requires Linked(Pushed(nodes, heads[k], stamp, b, k), heads[k := b], stamp + 1)
    ensures ListOf(Pushed(nodes, heads[k], stamp, b, k), heads[k := b], stamp + 1, j) ==
      (if j == k then [b] else []) + ListOf(nodes, heads, stamp, j)
  {
    var nodes', heads' := Pushed(nodes, heads[k], stamp, b, k), heads[k := b];
    assert HeadOk(nodes, heads, j);
    ChainKept(nodes, heads, stamp, nodes', heads', stamp + 1, heads[j]);
    if j == k {
      assert heads'[j] == b && nodes'[b].next == heads[k];
      assert NodeOk(nodes', heads', stamp + 1, b);
    }
  }

  /** What a walk over `b` meets behind it, and one over any other block from it on. */
  lemma {:induction false} UnlinkChain(nodes: map<int, Node>, heads: seq<int>, stamp: int, b: int, a: int)
    requires Linked(nodes, heads, stamp) && b in nodes && 0 <= nodes[b].list < |heads|
    requires Linked(Unlinked(nodes, b), HeadsWithout(nodes, heads, b), stamp)
    requires a == 0 || a in nodes
    ensures var c := if a == b then nodes[b].next else a;
      && (c == 0 || c in Unlinked(nodes, b))
      && Chain(Unlinked(nodes, b), HeadsWithout(nodes, heads, b), stamp, c) ==
         Without(Chain(nodes, heads, stamp, a), b)
    decreases if a in nodes then nodes[a].rank + 1 else 0
  {
    assert NodeOk(nodes, heads, stamp, b);
    if a != 0 {
      var nodes', s := Unlinked(nodes, b), nodes[a].next;
      assert NodeOk(nodes, heads, stamp, a);
      assert s != 0 ==> NodeOk(nodes, heads, stamp, s);
      assert 0 in nodes ==> NodeOk(nodes, heads, stamp, 0);
      UnlinkedKeys(nodes, b);
      UnlinkChain(nodes, heads, stamp, b, s);
      assert Chain(nodes, heads, stamp, a) == [a] + Chain(nodes, heads, stamp, s);
      if a != b {
        assert nodes'[a].next == if s == b then nodes[b].next else s;
      } else {
        assert s != b;
      }
    }
  }

  /** Unlinking takes the block out and leaves the order of what remains as it was. */
  lemma UnlinkOrder(nodes: map<int, Node>, heads: seq<int>, stamp: int, b: int, j: int)
    requires Linked(nodes, heads, stamp) && b in nodes && 0 <= nodes[b].list < |heads| && 0 <= j < LISTMAX
    requires Linked(Unlinked(nodes, b), HeadsWithout(nodes, heads, b), stamp)
    ensures ListOf(Unlinked(nodes, b), HeadsWithout(nodes, heads, b), stamp, j) ==
      Without(ListOf(nodes, heads, stamp, j), b)
  {
    assert HeadOk(nodes, heads, j);
    assert NodeOk(nodes, heads, stamp, b);
    UnlinkChain(nodes, heads, stamp, b, heads[j]);
  }
}
