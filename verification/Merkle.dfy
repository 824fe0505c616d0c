/** The shared graph of nodes and names: what its two tables must satisfy for
    rows to stand for trees, and what each row operation does to that. */
module Merkle {
  import opened Trees
  import opened Digests

  type Id = nat

  /** The key of the nodes table. */
  datatype NodeKey = NodeKey(sum: Sum, dir: bool)

  /** The key of the names table. */
  datatype Edge = Edge(parent: Id, name: string)

  type Nodes = map<NodeKey, Id>
  type Names = map<Edge, Id>

  /** The tree each stored row stands for. */
  type Meanings = map<Id, Tree>

  ghost function KeyOf(h: Hash, t: Tree): NodeKey
  {
    NodeKey(Digest(h, t), t.Dir?)
  }

  /** Each row has a tree, and the row's key is that tree's digest and kind. */
  ghost predicate Keyed(h: Hash, nodes: Nodes, den: Meanings)
  {
    && 0 !in den
    && (forall id :: id in den ==> Storable(den[id]) && KeyOf(h, den[id]) in nodes && nodes[KeyOf(h, den[id])] == id)
    && (forall k :: k in nodes ==> nodes[k] in den && KeyOf(h, den[nodes[k]]) == k)
  }

  /** Every edge is a true one: it names a child of the parent's tree. */
  ghost predicate TrueEdges(names: Names, den: Meanings)
  {
    forall e :: e in names ==>
      && e.parent in den && den[e.parent].Dir? && e.name in den[e.parent].children
      && names[e] in den && den[names[e]] == den[e.parent].children[e.name]
  }

  /** All the children of row `id` have their edges. */
  ghost predicate Complete(names: Names, den: Meanings, id: Id)
    requires id in den
  {
    den[id].Dir? ==> forall n :: n in den[id].children ==> Edge(id, n) in names
  }

  /** The tables are sound, and only the rows on the recursion stack may still
      miss some of their edges. */
  ghost predicate Graph(h: Hash, nodes: Nodes, names: Names, den: Meanings, stack: set<Id>)
  {
    && Keyed(h, nodes, den)
    && TrueEdges(names, den)
    && forall id :: id in den && id !in stack ==> Complete(names, den, id)
  }

  /** Row `id` and everything reachable from it spell out exactly `t`. */
  ghost predicate Represents(h: Hash, nodes: Nodes, names: Names, id: Id, t: Tree)
    decreases t
  {
    && KeyOf(h, t) in nodes && nodes[KeyOf(h, t)] == id
    && (forall n :: Edge(id, n) in names <==> t.Dir? && n in t.children)
    && (t.Dir? ==> forall n :: n in t.children && Edge(id, n) in names ==>
                     Represents(h, nodes, names, names[Edge(id, n)], t.children[n]))
  }

  /** In a finished graph, unfolding a row gives back exactly its tree. */
  lemma {:induction false} GraphRepresents(h: Hash, nodes: Nodes, names: Names, den: Meanings, id: Id)
    requires Graph(h, nodes, names, den, {}) && id in den
    ensures Represents(h, nodes, names, id, den[id])
    decreases den[id]
  {
    var t := den[id];
    assert Complete(names, den, id);
    forall n ensures Edge(id, n) in names <==> t.Dir? && n in t.children {
      assert Edge(id, n).parent == id && Edge(id, n).name == n;
    }
    if t.Dir? {
      forall n | n in t.children ensures Represents(h, nodes, names, names[Edge(id, n)], t.children[n]) {
        assert Edge(id, n) in names && Edge(id, n).parent == id && Edge(id, n).name == n;
        GraphRepresents(h, nodes, names, den, names[Edge(id, n)]);
      }
    }
  }

  // ----- when keys tell trees apart -----

  /** Different trees among `told` have different keys. */
  ghost predicate KeysTell(h: Hash, told: iset<Tree>)
  {
    forall t, u :: t in told && u in told && KeyOf(h, t) == KeyOf(h, u) ==> t == u
  }

  /** All rows stand for trees among `told`. */
  ghost predicate Stocked(den: Meanings, told: iset<Tree>)
  {
    forall id :: id in den ==> den[id] in told
  }

  /** All parts of `t` are among `told`. */
  ghost predicate PartsIn(t: Tree, told: iset<Tree>)
  {
    forall u :: IsPart(u, t) ==> u in told
  }

  lemma PartsOfPart(t: Tree, told: iset<Tree>, n: string)
    requires PartsIn(t, told) && t.Dir? && n in t.children
    ensures PartsIn(t.children[n], told)
  {
    forall u | IsPart(u, t.children[n]) ensures u in told {
      var p :| Get(t.children[n], p) == Some(u);
      assert ([n] + p)[1..] == p;
      assert Get(t, [n] + p) == Some(u);
    }
  }

  lemma WholeIn(t: Tree, told: iset<Tree>)
    requires PartsIn(t, told)
    ensures t in told
  {
    assert Get(t, []) == Some(t);
  }

  lemma StillStocked(den: Meanings, den': Meanings, t: Tree, told: iset<Tree>, nodes: Nodes, names: Names,
                     nodes': Nodes, names': Names)
    requires Stocked(den, told) && OnlyParts(den, den', t) && PartsIn(t, told)
    requires GraphGrows(nodes, names, den, nodes', names', den')
    ensures Stocked(den', told)
  {
    hide IsPart;
  }

  /** Trees with plain names are told apart by a collision-free hash. */
  lemma PlainTreesAreTold(h: Hash)
    requires CollisionFree(h)
    ensures KeysTell(h, PlainTrees())
  {
    hide Digest, AllNames;
    forall t, u | PlainNames(t) && PlainNames(u) && KeyOf(h, t) == KeyOf(h, u) ensures t == u {
      DigestIdentifies(h, t, u);
    }
  }

  /** Each row id is that of one key. */
  ghost predicate RowIds(nodes: Nodes)
  {
    forall k, l :: k in nodes && l in nodes && nodes[k] == nodes[l] ==> k == l
  }

  /** A row unfolds to one tree only. */
  lemma {:induction false} RowTellsTree(h: Hash, nodes: Nodes, names: Names, id: Id, t: Tree, u: Tree)
    requires RowIds(nodes) && Represents(h, nodes, names, id, t) && Represents(h, nodes, names, id, u)
    ensures t == u
    decreases t
  {
    hide *;
    RowShows(h, nodes, names, id, t);
    RowShows(h, nodes, names, id, u);
    OneKey(nodes, KeyOf(h, t), KeyOf(h, u));
    KeySays(h, t, u);
    if t.Dir? {
      SameNames(names, id, t, u);
      forall n | n in t.children ensures t.children[n] == u.children[n] {
        RowTellsTree(h, nodes, names, names[Edge(id, n)], t.children[n], u.children[n]);
      }
      assert t.children == u.children;
    }
  }

  /** What it means that a row unfolds to a tree. */
  lemma RowShows(h: Hash, nodes: Nodes, names: Names, id: Id, t: Tree)
    requires Represents(h, nodes, names, id, t)
    ensures KeyOf(h, t) in nodes && nodes[KeyOf(h, t)] == id
    ensures forall n :: Edge(id, n) in names <==> t.Dir? && n in t.children
    ensures t.Dir? ==> forall n :: n in t.children ==> Represents(h, nodes, names, names[Edge(id, n)], t.children[n])
  {
    hide KeyOf;
  }

  lemma OneKey(nodes: Nodes, k: NodeKey, l: NodeKey)
    requires RowIds(nodes) && k in nodes && l in nodes && nodes[k] == nodes[l]
    ensures k == l
  {
  }

  lemma KeySays(h: Hash, t: Tree, u: Tree)
    requires KeyOf(h, t) == KeyOf(h, u)
    ensures t.Dir? == u.Dir? && (!t.Dir? ==> t == u)
  {
  }

  lemma SameNames(names: Names, id: Id, t: Tree, u: Tree)
    requires t.Dir? && u.Dir?
    requires forall n :: Edge(id, n) in names <==> n in t.children
    requires forall n :: Edge(id, n) in names <==> n in u.children
    ensures t.children.Keys == u.children.Keys
  {
    forall n ensures n in t.children <==> n in u.children {
      assert Edge(id, n) in names <==> n in t.children;
    }
  }

  /** What a row's tree holds, a row unfolds to. */
  lemma {:induction false} PartHasRow(h: Hash, nodes: Nodes, names: Names, id: Id, t: Tree, p: Path)
    requires Represents(h, nodes, names, id, t) && Get(t, p).Some?
    ensures var u := Get(t, p).value;
            KeyOf(h, u) in nodes && Represents(h, nodes, names, nodes[KeyOf(h, u)], u)
    decreases |p|
  {
    if p != [] {
      var n := p[0];
      assert Edge(id, n) in names;
      PartHasRow(h, nodes, names, names[Edge(id, n)], t.children[n], p[1..]);
    }
  }

  /** `u` is one of the trees, or a part of one. */
  ghost predicate IsPartOfSome(u: Tree, den: Meanings)
  {
    exists id :: id in den && IsPart(u, den[id])
  }

  /** And no tables at all can hold different trees that share a key: if each row of
      `den` unfolds to its tree, then keys tell these trees and all their parts apart. */
  lemma OnlyIfTold(h: Hash, nodes: Nodes, names: Names, den: Meanings)
    requires RowIds(nodes) && forall id :: id in den ==> Represents(h, nodes, names, id, den[id])
    ensures KeysTell(h, iset u | IsPartOfSome(u, den))
  {
    hide Represents, KeyOf, RowIds;
    var told := iset u | IsPartOfSome(u, den);
    forall t, u | t in told && u in told && KeyOf(h, t) == KeyOf(h, u) ensures t == u {
      var i :| i in den && IsPart(t, den[i]);
      var p :| Get(den[i], p) == Some(t);
      PartHasRow(h, nodes, names, i, den[i], p);
      var j :| j in den && IsPart(u, den[j]);
      var q :| Get(den[j], q) == Some(u);
      PartHasRow(h, nodes, names, j, den[j], q);
      RowTellsTree(h, nodes, names, nodes[KeyOf(h, t)], t, u);
    }
  }

  /** A row whose key is that of `t` stands for `t`, if keys tell the trees apart. */
  lemma SameKeySameTree(h: Hash, told: iset<Tree>, nodes: Nodes, den: Meanings, t: Tree)
    requires KeysTell(h, told) && Stocked(den, told) && t in told
    requires Keyed(h, nodes, den) && KeyOf(h, t) in nodes
    ensures nodes[KeyOf(h, t)] in den && den[nodes[KeyOf(h, t)]] == t
  {
  }

  /** A row found under the key of a tree that is being added inside the rows
      of the stack is none of those rows, so all its edges are there. */
  lemma FoundIsComplete(h: Hash, told: iset<Tree>, nodes: Nodes, names: Names, den: Meanings, stack: set<Id>, t: Tree)
    requires KeysTell(h, told) && Stocked(den, told) && t in told
    requires Graph(h, nodes, names, den, stack) && KeyOf(h, t) in nodes && OnStack(den, t, stack)
    ensures var id := nodes[KeyOf(h, t)]; id in den && den[id] == t && id !in stack && id != 0
  {
    SameKeySameTree(h, told, nodes, den, t);
    var id := nodes[KeyOf(h, t)];
    if id in stack {
      var p :| p != [] && Get(t, p) == Some(t);
      NeverInsideItself(t, p);
    }
  }

  /** A new row joins the graph as one that still misses its edges. */
  lemma NewRow(h: Hash, nodes: Nodes, names: Names, den: Meanings, stack: set<Id>, t: Tree, id: Id)
    requires Graph(h, nodes, names, den, stack) && Storable(t)
    requires KeyOf(h, t) !in nodes && id != 0 && id !in nodes.Values
    ensures id !in den
    ensures Graph(h, nodes[KeyOf(h, t) := id], names, den[id := t], stack + {id})
  {
    hide KeyOf, Storable;
    NewRowKeyed(h, nodes, den, t, id);
    hide Keyed;
    var den' := den[id := t];
    forall i | i in den' && i !in stack + {id} ensures Complete(names, den', i) {
      assert Complete(names, den, i);
    }
  }

  lemma NewRowKeyed(h: Hash, nodes: Nodes, den: Meanings, t: Tree, id: Id)
    requires Keyed(h, nodes, den) && Storable(t)
    requires KeyOf(h, t) !in nodes && id != 0 && id !in nodes.Values
    ensures id !in den
    ensures Keyed(h, nodes[KeyOf(h, t) := id], den[id := t])
  {
    hide KeyOf, Storable;
    forall i | i in den ensures i in nodes.Values {
      assert nodes[KeyOf(h, den[i])] == i;
    }
    assert forall k :: k in nodes ==> nodes[k] in nodes.Values;
  }

  /** Adding a true edge, or finding it there already, keeps the graph; and an
      edge found there already leads to the same row. */
  lemma NewEdge(h: Hash, nodes: Nodes, names: Names, den: Meanings, stack: set<Id>, parent: Id, name: string, id: Id)
    requires Graph(h, nodes, names, den, stack)
    requires parent in den && id in den && den[parent].Dir? && name in den[parent].children
    requires den[parent].children[name] == den[id]
    ensures Edge(parent, name) in names ==> names[Edge(parent, name)] == id
    ensures Graph(h, nodes, if Edge(parent, name) in names then names else names[Edge(parent, name) := id], den, stack)
  {
    hide KeyOf, Storable;
    var e := Edge(parent, name);
    if e in names {
      assert den[names[e]] == den[id];
      assert nodes[KeyOf(h, den[names[e]])] == names[e] && nodes[KeyOf(h, den[id])] == id;
    } else {
      forall i | i in den && i !in stack ensures Complete(names[e := id], den, i) {
        assert Complete(names, den, i);
      }
    }
  }

  /** A row leaves the stack once all its edges are there. */
  lemma RowFinished(h: Hash, nodes: Nodes, names: Names, den: Meanings, stack: set<Id>, id: Id)
    requires Graph(h, nodes, names, den, stack + {id}) && id in den && Complete(names, den, id)
    ensures Graph(h, nodes, names, den, stack)
  {
  }

  /** The tables only ever gain rows. */
  ghost predicate GraphGrows(nodes: Nodes, names: Names, den: Meanings, nodes': Nodes, names': Names, den': Meanings)
  {
    && (forall k :: k in nodes ==> k in nodes' && nodes'[k] == nodes[k])
    && (forall e :: e in names ==> e in names' && names'[e] == names[e])
    && (forall i :: i in den ==> i in den' && den'[i] == den[i])
  }

  lemma GrowsInSteps(n0: Nodes, e0: Names, d0: Meanings, n1: Nodes, e1: Names, d1: Meanings,
                     n2: Nodes, e2: Names, d2: Meanings)
    requires GraphGrows(n0, e0, d0, n1, e1, d1) && GraphGrows(n1, e1, d1, n2, e2, d2)
    ensures GraphGrows(n0, e0, d0, n2, e2, d2)
  {
  }

  lemma GrowsByNothing(nodes: Nodes, names: Names, den: Meanings)
    ensures GraphGrows(nodes, names, den, nodes, names, den)
  {
  }

  lemma GrowsByEdge(nodes: Nodes, names: Names, den: Meanings, e: Edge, id: Id)
    requires e !in names
    ensures GraphGrows(nodes, names, den, nodes, names[e := id], den)
  {
  }

  lemma GrowsByRow(nodes: Nodes, names: Names, den: Meanings, k: NodeKey, id: Id, t: Tree)
    requires k !in nodes && id !in den
    ensures GraphGrows(nodes, names, den, nodes[k := id], names, den[id := t])
  {
  }

  /** What growth means for the rows and edges in hand. */
  lemma StillThere(n0: Nodes, e0: Names, d0: Meanings, n1: Nodes, e1: Names, d1: Meanings, id: Id, e: Edge)
    requires GraphGrows(n0, e0, d0, n1, e1, d1)
    ensures id in d0 ==> id in d1 && d1[id] == d0[id]
    ensures e in e0 ==> e in e1 && e1[e] == e0[e]
  {
  }

  /** The rows that are new in `den'` all stand for parts of `t`. */
  ghost predicate OnlyParts(den: Meanings, den': Meanings, t: Tree)
  {
    forall id :: id in den' && id !in den ==> IsPart(den'[id], t)
  }

  ghost predicate IsPart(u: Tree, t: Tree)
  {
    exists p :: Get(t, p) == Some(u)
  }

  lemma NoNewParts(den: Meanings, t: Tree)
    ensures OnlyParts(den, den, t)
  {
  }

  lemma WholeIsPart(den: Meanings, id: Id, t: Tree)
    ensures OnlyParts(den, den[id := t], t)
  {
    assert Get(t, []) == Some(t);
  }

  lemma PartsInSteps(n1: Nodes, e1: Names, n2: Nodes, e2: Names, den: Meanings, d1: Meanings, d2: Meanings, t: Tree)
    requires OnlyParts(den, d1, t) && OnlyParts(d1, d2, t) && GraphGrows(n1, e1, d1, n2, e2, d2)
    ensures OnlyParts(den, d2, t)
  {
    forall id | id in d2 && id !in den ensures IsPart(d2[id], t) {
      if id in d1 {
        assert IsPart(d1[id], t);
      }
    }
  }

  lemma PartsOfChild(den: Meanings, den': Meanings, t: Tree, n: string)
    requires t.Dir? && n in t.children && OnlyParts(den, den', t.children[n])
    ensures OnlyParts(den, den', t)
  {
    forall id | id in den' && id !in den ensures IsPart(den'[id], t) {
      var p :| Get(t.children[n], p) == Some(den'[id]);
      assert ([n] + p)[1..] == p;
      assert Get(t, [n] + p) == Some(den'[id]);
    }
  }

  /** The tree `t` is being added inside the rows of the stack. */
  ghost predicate OnStack(den: Meanings, t: Tree, stack: set<Id>)
  {
    forall a :: a in stack ==> a in den && Inside(t, den[a])
  }

  ghost predicate IsChild(den: Meanings, parent: Id, name: string, t: Tree)
  {
    parent in den && den[parent].Dir? && name in den[parent].children && den[parent].children[name] == t
  }

  lemma StackIsStored(den: Meanings, t: Tree, stack: set<Id>)
    requires OnStack(den, t, stack)
    ensures forall a :: a in stack ==> a in den
  {
  }

  lemma OneDeeper(den: Meanings, t: Tree, stack: set<Id>, id: Id, name: string)
    requires OnStack(den, t, stack) && id in den && den[id] == t && t.Dir? && name in t.children
    ensures OnStack(den, t.children[name], stack + {id}) && IsChild(den, id, name, t.children[name])
  {
    forall a | a in stack + {id} ensures Inside(t.children[name], den[a]) {
      InsideIsDeeper(t.children[name], name, t, den[a]);
    }
  }

  lemma StackGrows(n0: Nodes, e0: Names, d0: Meanings, n1: Nodes, e1: Names, d1: Meanings, t: Tree, stack: set<Id>)
    requires GraphGrows(n0, e0, d0, n1, e1, d1) && OnStack(d0, t, stack)
    ensures OnStack(d1, t, stack)
  {
  }

  lemma ChildGrows(n0: Nodes, e0: Names, d0: Meanings, n1: Nodes, e1: Names, d1: Meanings, parent: Id, name: string,
                   t: Tree)
    requires GraphGrows(n0, e0, d0, n1, e1, d1) && IsChild(d0, parent, name, t)
    ensures IsChild(d1, parent, name, t)
  {
  }

  /** Row `id` has an edge for each of the listed names. */
  ghost predicate HasEdges(names: Names, id: Id, ns: seq<string>)
  {
    forall j :: 0 <= j < |ns| ==> Edge(id, ns[j]) in names
  }

  lemma EdgesStay(n0: Nodes, e0: Names, d0: Meanings, n1: Nodes, e1: Names, d1: Meanings, id: Id, ns: seq<string>)
    requires GraphGrows(n0, e0, d0, n1, e1, d1) && HasEdges(e0, id, ns)
    ensures id in d0 ==> id in d1 && d1[id] == d0[id]
    ensures HasEdges(e1, id, ns)
  {
  }

  lemma OneMoreEdge(names: Names, id: Id, ns: seq<string>, i: nat)
    requires i < |ns| && HasEdges(names, id, ns[..i]) && Edge(id, ns[i]) in names
    ensures HasEdges(names, id, ns[..i + 1])
  {
  }

  /** What the loop over a directory's entries has gained after one more entry. */
  lemma AfterChild(n1: Nodes, e1: Names, d1: Meanings, n2: Nodes, e2: Names, d2: Meanings,
                   t: Tree, stack: set<Id>, id: Id, ns: seq<string>, i: nat)
    requires GraphGrows(n1, e1, d1, n2, e2, d2)
    requires OnStack(d1, t, stack) && id in d1 && d1[id] == t
    requires i < |ns| && HasEdges(e1, id, ns[..i]) && Edge(id, ns[i]) in e2
    ensures OnStack(d2, t, stack) && id in d2 && d2[id] == t && HasEdges(e2, id, ns[..i + 1])
  {
    hide GraphGrows, OnStack, HasEdges;
    StackGrows(n1, e1, d1, n2, e2, d2, t, stack);
    EdgesStay(n1, e1, d1, n2, e2, d2, id, ns[..i]);
    OneMoreEdge(e2, id, ns, i);
  }

  lemma AllEdgesThere(names: Names, den: Meanings, id: Id, ns: seq<string>)
    requires id in den && den[id].Dir? ==> forall n :: n in den[id].children ==> n in ns
    requires HasEdges(names, id, ns[..|ns|])
    ensures id in den ==> Complete(names, den, id)
  {
  }

  /** Whatever a stored tree holds has a row of its own. */
  lemma {:induction false} PartsAreStored(h: Hash, nodes: Nodes, names: Names, den: Meanings, id: Id, p: Path)
    requires Graph(h, nodes, names, den, {}) && id in den && Get(den[id], p).Some?
    ensures KeyOf(h, Get(den[id], p).value) in nodes
    decreases |p|
  {
    hide Digest, AllNames;
    if p != [] {
      assert Complete(names, den, id);
      var e := Edge(id, p[0]);
      assert e in names && e.parent == id && e.name == p[0];
      PartsAreStored(h, nodes, names, den, names[e], p[1..]);
    }
  }

  function MaxId(s: set<Id>): (m: Id)
    ensures forall i :: i in s ==> i <= m
    ensures s != {} ==> m in s
  {
    if s == {} then 0
    else
      LargestExists(s);
      LargestIsUnique(s);
      var m :| m in s && forall i :: i in s ==> i <= m;
      m
  }

  lemma {:induction false} LargestExists(s: set<Id>)
    requires s != {}
    ensures exists m :: m in s && forall i :: i in s ==> i <= m
    decreases |s|
  {
    var x :| x in s;
    if s != {x} {
      assert s - {x} != {};
      LargestExists(s - {x});
      var m :| m in s - {x} && forall i :: i in s - {x} ==> i <= m;
      var big := if x <= m then m else x;
      forall i | i in s ensures i <= big {
        assert i == x || i in s - {x};
      }
      assert big in s;
    }
  }

  lemma LargestIsUnique(s: set<Id>)
    ensures forall m, n :: m in s && n in s && (forall i :: i in s ==> i <= m) && (forall i :: i in s ==> i <= n) ==>
              m == n
  {
  }

  /** The row id a table gives its next row: one more than its largest. */
  function NextId(s: set<Id>): (id: Id)
    ensures id != 0 && id !in s
  {
    MaxId(s) + 1
  }
}
