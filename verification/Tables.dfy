/** The write side of the index: a transaction over the tables, with one method
    per statement of the program and the operations built from them. Driver
    errors are not modelled; constraint violations are. */
module Tables {
  import opened Trees
  import opened PathTree
  import opened Walks
  import opened States
  import opened Digests
  import opened IndexTree
  import opened Merkle
  import opened Objects

  datatype TxError = InvalidArgs | Constraint | InvalidState | Changed

  datatype Status = Fine | Refused(error: TxError)

  class Tx {
    var nodes: Nodes
    var names: Names
    var roots: Roots
    var invs: Invs
    var versions: Versions
    var content: Contents
    /** The tree each node row stands for. */
    ghost var den: Meanings
    /** The objects that are indexed. */
    ghost var lib: Library

    /** An empty index. */
    constructor Empty(ghost h: Hash)
      ensures Valid(h) && lib == map[] && roots == map[] && den == map[] && content == map[]
    {
      nodes, names, roots, invs, versions, content := map[], map[], map[], map[], map[], map[];
      den, lib := map[], map[];
    }

    /** A transaction over what is committed. */
    constructor Begin(committed: Tx)
      ensures SameAs(committed)
    {
      nodes, names, roots := committed.nodes, committed.names, committed.roots;
      invs, versions, content := committed.invs, committed.versions, committed.content;
      den, lib := committed.den, committed.lib;
    }

    ghost predicate SameAs(other: Tx)
      reads this, other
    {
      && nodes == other.nodes && names == other.names && roots == other.roots && invs == other.invs
      && versions == other.versions && content == other.content && den == other.den && lib == other.lib
    }

    lemma SameIsValid(other: Tx, h: Hash)
      requires SameAs(other)
      ensures Valid(h) <==> other.Valid(h)
    {
      hide Graph, Shown;
    }

    /** The object tables show the library; content rows may be missing for `pending`. */
    ghost predicate Shows(pending: set<string>)
      reads this
    {
      Shown(roots, invs, versions, content, nodes, den, lib, pending)
    }

    ghost predicate Valid(h: Hash)
      reads this
    {
      InGraph(h, {}) && Shows({})
    }

    ghost predicate InGraph(h: Hash, stack: set<Id>)
      reads this`nodes, this`names, this`den
    {
      Graph(h, nodes, names, den, stack)
    }

    lemma InGraphIs(h: Hash, stack: set<Id>)
      ensures InGraph(h, stack) <==> Graph(h, nodes, names, den, stack)
    {
    }

    /** The row for a digest and kind, inserted if it is missing. */
    method GetSetNode(sum: Sum, dir: bool, ghost h: Hash, ghost told: iset<Tree>, ghost t: Tree, ghost stack: set<Id>)
      returns (id: Id, isNew: bool)
      requires InGraph(h, stack) && KeysTell(h, told) && Stocked(den, told) && t in told && Storable(t)
      requires KeyOf(h, t) == NodeKey(sum, dir) && OnStack(den, t, stack)
      modifies this`nodes, this`den
      ensures isNew <==> NodeKey(sum, dir) !in old(nodes)
      ensures id in den && den[id] == t && id !in stack && id != 0
      ensures !isNew ==> nodes == old(nodes) && den == old(den) && id == old(nodes)[NodeKey(sum, dir)]
      ensures isNew ==> nodes == old(nodes)[NodeKey(sum, dir) := id] && OnlyParts(old(den), den, t)
      ensures GraphGrows(old(nodes), names, old(den), nodes, names, den)
      ensures InGraph(h, if isNew then stack + {id} else stack)
    {
      hide Keyed, TrueEdges, Complete, KeyOf, Storable, OnStack, GraphGrows, OnlyParts, KeysTell, Stocked;
      var key := NodeKey(sum, dir);
      GrowsByNothing(nodes, names, den);
      if key in nodes {
        FoundIsComplete(h, told, nodes, names, den, stack, t);
        return nodes[key], false;
      }
      id := NextId(nodes.Values);
      NewRow(h, nodes, names, den, stack, t, id);
      StackIsStored(den, t, stack);
      GrowsByRow(nodes, names, den, key, id, t);
      WholeIsPart(den, id, t);
      nodes, den := nodes[key := id], den[id := t];
      isNew := true;
    }

    /** `INSERT OR IGNORE`: an edge already there stays. */
    method InsertIgnoreName(nodeID: Id, parentID: Id, name: string)
      modifies this`names
      ensures names == if Edge(parentID, name) in old(names) then old(names)
                       else old(names)[Edge(parentID, name) := nodeID]
    {
      if Edge(parentID, name) !in names {
        names := names[Edge(parentID, name) := nodeID];
      }
    }

    /** Adds the tree below `tree` and, when there is a parent, the name that
        leads to it. It stops at a row that exists already: the claim is that
        everything below such a row exists too. */
    method AddPathtreeChild(tree: Node<Sum>, parentID: Id, name: string,
                            ghost h: Hash, ghost told: iset<Tree>, ghost root: Node<Sum>, ghost at: Layout<Sum>,
                            ghost s: Skeleton, ghost here: Path, ghost stack: set<Id>) returns (nodeID: Id)
      requires Ready(h, root, at, s) && here in at && at[here] == tree && here in s
      requires KeysTell(h, told) && Stocked(den, told) && PartsIn(TreeAt(s, here), told)
      requires InGraph(h, stack) && OnStack(den, TreeAt(s, here), stack)
      requires parentID != 0 ==> parentID in stack && IsChild(den, parentID, name, TreeAt(s, here))
      modifies this`nodes, this`names, this`den
      ensures InGraph(h, stack) && GraphGrows(old(nodes), old(names), old(den), nodes, names, den)
      ensures nodeID != 0 && nodeID in den && den[nodeID] == TreeAt(s, here)
      ensures OnlyParts(old(den), den, TreeAt(s, here)) && Stocked(den, told)
      ensures parentID != 0 ==> Edge(parentID, name) in names
      ensures parentID == 0 && KeyOf(h, TreeAt(s, here)) in old(nodes) ==>
                nodes == old(nodes) && names == old(names) && nodeID == nodes[KeyOf(h, TreeAt(s, here))]
      decreases Below(at, here), 2
    {
      hide *;
      ghost var t := TreeAt(s, here);
      ReadyNode(h, root, at, s, here);
      KeyIs(h, t, tree.Val, tree.children.Some?);
      NoNewParts(den, t);
      WholeIn(t, told);
      var isNew;
      nodeID, isNew := GetSetNode(tree.Val, tree.children.Some?, h, told, t, stack);
      StillStocked(old(den), den, t, told, old(nodes), names, nodes, names);
      ghost var stack' := if isNew then stack + {nodeID} else stack;
      StackGrows(old(nodes), names, old(den), nodes, names, den, t, stack);
      if parentID != 0 {
        ChildGrows(old(nodes), names, old(den), nodes, names, den, parentID, name, t);
        LinkName(h, stack', nodeID, parentID, name, t);
        GrowsInSteps(old(nodes), old(names), old(den), nodes, old(names), den, nodes, names, den);
      }
      if isNew {
        ghost var nodes1, names1, den1 := nodes, names, den;
        StackGrows(old(nodes), old(names), old(den), nodes, names, den, t, stack);
        AddChildren(tree, nodeID, h, told, root, at, s, here, stack);
        PartsInSteps(nodes1, names1, nodes, names, old(den), den1, den, t);
        GrowsInSteps(old(nodes), old(names), old(den), nodes1, names1, den1, nodes, names, den);
        StillThere(nodes1, names1, den1, nodes, names, den, nodeID, Edge(parentID, name));
      }
    }

    /** The loop of `AddPathtreeChild`: every entry of a directory whose row is new. */
    method AddChildren(tree: Node<Sum>, nodeID: Id,
                       ghost h: Hash, ghost told: iset<Tree>, ghost root: Node<Sum>, ghost at: Layout<Sum>,
                       ghost s: Skeleton, ghost here: Path, ghost stack: set<Id>)
      requires Ready(h, root, at, s) && here in at && at[here] == tree && here in s
      requires KeysTell(h, told) && Stocked(den, told) && PartsIn(TreeAt(s, here), told)
      requires nodeID != 0 && nodeID in den && den[nodeID] == TreeAt(s, here)
      requires InGraph(h, stack + {nodeID}) && OnStack(den, TreeAt(s, here), stack)
      modifies this`nodes, this`names, this`den
      ensures InGraph(h, stack) && GraphGrows(old(nodes), old(names), old(den), nodes, names, den)
      ensures OnlyParts(old(den), den, TreeAt(s, here)) && Stocked(den, told)
      decreases Below(at, here), 1
    {
      hide *;
      ReadyKids(h, root, at, s, here);
      var entries := tree.DirEntries();
      ghost var ns := EntryNames(entries);
      GrowsByNothing(nodes, names, den);
      NoNewParts(den, TreeAt(s, here));
      NothingFilled(h, stack, nodeID, TreeAt(s, here), ns);
      var i := 0;
      while i < |entries|
        invariant 0 <= i <= |entries|
        invariant Filling(h, stack, nodeID, TreeAt(s, here), ns, i)
        invariant GraphGrows(old(nodes), old(names), old(den), nodes, names, den)
        invariant OnlyParts(old(den), den, TreeAt(s, here)) && Stocked(den, told)
        invariant Ready(h, root, at, s) && forall n :: n in ns ==> n in tree.Kids()
      {
        assert ns[i] == entries[i].name && ns[i] in ns;
        ghost var nodes0, names0, den0 := nodes, names, den;
        AddEntry(tree.Kids()[entries[i].name], entries[i].name, nodeID, h, told, root, at, s, here, stack, ns, i);
        PartsInSteps(nodes0, names0, nodes, names, old(den), den0, den, TreeAt(s, here));
        GrowsInSteps(old(nodes), old(names), old(den), nodes0, names0, den0, nodes, names, den);
        i := i + 1;
      }
      RowLeaves(h, stack, nodeID, TreeAt(s, here), ns);
    }

    /** Row `id` stands for `t` and has got the names of its first `i` children. */
    ghost predicate Filling(h: Hash, stack: set<Id>, id: Id, t: Tree, ns: seq<string>, i: nat)
      reads this`nodes, this`names, this`den
    {
      && InGraph(h, stack + {id}) && id in den && den[id] == t && OnStack(den, t, stack)
      && i <= |ns| && HasEdges(names, id, ns[..i])
    }

    lemma NothingFilled(h: Hash, stack: set<Id>, id: Id, t: Tree, ns: seq<string>)
      requires InGraph(h, stack + {id}) && id in den && den[id] == t && OnStack(den, t, stack)
      ensures Filling(h, stack, id, t, ns, 0)
    {
      hide Graph, OnStack, InGraph;
    }

    lemma RowLeaves(h: Hash, stack: set<Id>, id: Id, t: Tree, ns: seq<string>)
      requires Filling(h, stack, id, t, ns, |ns|)
      requires t.Dir? ==> forall n :: n in t.children ==> n in ns
      ensures InGraph(h, stack)
    {
      hide Graph, OnStack, HasEdges, Complete;
      AllEdgesThere(names, den, id, ns);
      RowFinished(h, nodes, names, den, stack, id);
    }

    /** One turn of that loop. */
    method AddEntry(child: Node<Sum>, n: string, nodeID: Id,
                    ghost h: Hash, ghost told: iset<Tree>, ghost root: Node<Sum>, ghost at: Layout<Sum>,
                    ghost s: Skeleton, ghost here: Path, ghost stack: set<Id>, ghost ns: seq<string>, ghost i: nat)
      requires Ready(h, root, at, s) && here in at && here in s
      requires KeysTell(h, told) && Stocked(den, told) && PartsIn(TreeAt(s, here), told)
      requires n in at[here].Kids() && at[here].Kids()[n] == child && i < |ns| && ns[i] == n
      requires nodeID != 0 && Filling(h, stack, nodeID, TreeAt(s, here), ns, i)
      modifies this`nodes, this`names, this`den
      ensures Filling(h, stack, nodeID, TreeAt(s, here), ns, i + 1)
      ensures OnlyParts(old(den), den, TreeAt(s, here)) && Stocked(den, told)
      ensures GraphGrows(old(nodes), old(names), old(den), nodes, names, den)
      decreases Below(at, here), 0
    {
      hide *;
      ghost var t := TreeAt(s, here);
      ReadyChild(h, root, at, s, here, n);
      FillingParts(h, stack, nodeID, t, ns, i);
      OneDeeper(den, t, stack, nodeID, n);
      PartsOfPart(t, told, n);
      var _ := AddPathtreeChild(child, nodeID, n, h, told, root, at, s, here + [n], stack + {nodeID});
      AfterChild(old(nodes), old(names), old(den), nodes, names, den, t, stack, nodeID, ns, i);
      PartsOfChild(old(den), den, t, n);
      FillingParts(h, stack, nodeID, t, ns, i + 1);
    }

    lemma FillingParts(h: Hash, stack: set<Id>, id: Id, t: Tree, ns: seq<string>, i: nat)
      ensures Filling(h, stack, id, t, ns, i) <==>
              (InGraph(h, stack + {id}) && id in den && den[id] == t && OnStack(den, t, stack) && i <= |ns|
                && HasEdges(names, id, ns[..i]))
    {
      hide Graph, OnStack, HasEdges, InGraph;
    }

    /** Adds a version's tree. Unfolding the returned row gives back exactly that
        tree, and the rows of all trees added before still unfold to theirs. */
    method AddPathtreeNodes(tree: Node<Sum>, ghost h: Hash, ghost told: iset<Tree>, ghost at: Layout<Sum>,
                            ghost s: Skeleton)
      returns (nodeID: Id)
      requires Ready(h, tree, at, s) && [] in at && at[[]] == tree && [] in s
      requires InGraph(h, {}) && KeysTell(h, told) && Stocked(den, told) && PartsIn(TreeAt(s, []), told)
      modifies this`nodes, this`names, this`den
      ensures InGraph(h, {}) && GraphGrows(old(nodes), old(names), old(den), nodes, names, den)
      ensures nodeID in den && den[nodeID] == TreeAt(s, []) && Represents(h, nodes, names, nodeID, TreeAt(s, []))
      ensures OnlyParts(old(den), den, TreeAt(s, [])) && Stocked(den, told)
      ensures forall id :: id in old(den) ==> Represents(h, nodes, names, id, old(den)[id])
      ensures KeyOf(h, TreeAt(s, [])) in old(nodes) ==>
                nodes == old(nodes) && names == old(names) && nodeID == nodes[KeyOf(h, TreeAt(s, []))]
    {
      hide *;
      StackEmpty(den, TreeAt(s, []));
      nodeID := AddPathtreeChild(tree, 0, "", h, told, tree, at, s, [], {});
      InGraphIs(h, {});
      GraphRepresents(h, nodes, names, den, nodeID);
      OldRowsUnfold(h, old(nodes), old(names), old(den), nodes, names, den);
    }

    /** Declares an object root, or renews the time of one that is known. */
    method IndexObjectRoot(path: string, indexedAt: int, ghost h: Hash) returns (r: Status)
      requires Valid(h)
      modifies this`roots
      ensures Valid(h)
      ensures r == if path == "" then Refused(InvalidArgs) else Fine
      ensures roots == if path == "" then old(roots) else WithRoot(old(roots), path, indexedAt)
    {
      hide RootsShown, InvsShown, VersionsShown, ContentShown, ContentComplete, WithRoot;
      if path == "" {
        return Refused(InvalidArgs);
      }
      WithRootShown(roots, path, indexedAt, invs, lib);
      roots := WithRoot(roots, path, indexedAt);
      r := Fine;
    }

    /** Deletes the roots last indexed before `before`; the deletion cascades. */
    method RemoveObjectsBefore(before: int, ghost h: Hash)
      requires Valid(h)
      modifies this`roots, this`invs, this`versions, this`content, this`lib
      ensures Valid(h)
      ensures roots == RootsSince(old(roots), before) && lib == LibraryOf(old(lib), roots)
    {
      hide RootsShown, InvsShown, VersionsShown, ContentShown, ContentComplete, RootsSince, InvsOf, VersionsOf,
          ContentOf, LibraryOf;
      RemovalShown(roots, invs, versions, content, nodes, den, lib, before);
      roots := RootsSince(roots, before);
      invs := InvsOf(invs, roots);
      versions := VersionsOf(versions, invs);
      content := ContentOf(content, invs);
      lib := LibraryOf(lib, roots);
    }

    /** Adds a version row, or compares the version with the row already there. */
    method InsertVersion(n: nat, v: Version, invRow: Id, nodeID: Id, ghost h: Hash, ghost i: string) returns (r: Status)
      requires InGraph(h, {}) && Shows({i}) && i in lib && i in invs && invs[i].id == invRow
      requires NumOf(v.name) == n && PrefixFree(FilesOf(v.state))
      requires nodeID in den && den[nodeID] == StateTree(FilesOf(v.state))
      modifies this`versions, this`lib
      ensures Shows({i})
      ensures n in old(lib)[i].versions ==>
                versions == old(versions) && lib == old(lib) && (r.Fine? || r == Refused(Changed))
      ensures n in old(lib)[i].versions ==>
                (r.Fine? <==>
                 var before := old(lib)[i].versions[n];
                 && before.files == FilesOf(v.state) && before.message == v.message
                 && (exists k :: InSecond(before.created, k) && InSecond(v.created, k))
                 && (v.user.Some? ==> User(before.userName, before.userAddress) == v.user.value))
      ensures n !in old(lib)[i].versions ==> r == Fine && lib == WithVersion(old(lib), i, n, InfoOf(v))
    {
      hide RootsShown, InvsShown, ContentShown, ContentComplete, StateTree, PrefixFree, NumOf, Keyed, TrueEdges,
          Complete;
      var key := VersionKey(invRow, n);
      VersionRowThere(roots, invs, versions, den, lib, i, n);
      if key !in versions {
        WithVersionShown(roots, invs, versions, content, nodes, den, lib, i, n, RowOf(v, nodeID), InfoOf(v));
        versions := versions[key := RowOf(v, nodeID)];
        lib := WithVersion(lib, i, n, InfoOf(v));
        return Fine;
      }
      AgreesMeaning(lib[i].versions[n], v);
      var row := versions[key];
      SameNodeSameState(h, nodes, den, row.node, nodeID, lib[i].versions[n].files, FilesOf(v.state));
      if row.node != nodeID {
        return Refused(Changed);
      }
      if row.message != v.message {
        return Refused(Changed);
      }
      if Unix(row.created) != Unix(v.created) {
        return Refused(Changed);
      }
      if v.user.Some? {
        if row.userAddress != v.user.value.address {
          return Refused(Changed);
        }
        if row.userName != v.user.value.name {
          return Refused(Changed);
        }
      }
      r := Fine;
    }

    /** Writes the inventory row, new or renewed, unless another inventory sits at the root. */
    method UpsertInventory(inv: Inventory, rootId: Id, ghost path: string) returns (r: Status, row: Id)
      requires Shows({}) && inv.head in inv.versions && path in roots && roots[path].id == rootId
      modifies this`invs, this`lib
      ensures r == if RootTaken(old(invs), inv.id, rootId) then Refused(Constraint) else Fine
      ensures r.Refused? ==> invs == old(invs) && lib == old(lib)
      ensures r.Fine? ==>
                Shows({}) && invs == WithInv(old(invs), inv, rootId) && inv.id in invs && row == invs[inv.id].id
      ensures r.Fine? ==> lib == old(lib)[inv.id := Refreshed(old(lib), inv, path)]
    {
      hide Shown, Refreshed, RootTaken;
      row := 0;
      if RootTaken(invs, inv.id, rootId) {
        return Refused(Constraint), row;
      }
      WithInvShown(roots, invs, versions, content, nodes, den, lib, {}, inv, path);
      lib := lib[inv.id := Refreshed(lib, inv, path)];
      invs := WithInv(invs, inv, rootId);
      r, row := Fine, invs[inv.id].id;
    }

    /** One turn of the loop over the versions of an inventory. */
    method IndexVersion(h: Hash, n: nat, v: Version, invRow: Id, ghost told: iset<Tree>, ghost i: string)
      returns (r: Status)
      requires InGraph(h, {}) && Shows({i}) && i in lib && i in invs && invs[i].id == invRow
      requires KeysTell(h, told) && Stocked(den, told) && PartsIn(StateTree(FilesOf(v.state)), told)
      requires NumOf(v.name) == n && PrefixFree(FilesOf(v.state))
      modifies this`nodes, this`names, this`den, this`versions, this`lib
      ensures InGraph(h, {}) && Shows({i}) && GraphGrows(old(nodes), old(names), old(den), nodes, names, den)
      ensures OnlyParts(old(den), den, StateTree(FilesOf(v.state))) && Stocked(den, told)
      ensures r.Fine? <==> VersionAcceptable(old(lib), i, n, v)
      ensures r == if !AllValid(v.state) then Refused(InvalidState)
                   else if VersionDiffers(old(lib), i, n, v) then Refused(Changed) else Fine
      ensures r.Fine? ==> lib == if n in old(lib)[i].versions then old(lib) else WithVersion(old(lib), i, n, InfoOf(v))
      ensures r.Fine? && n in old(lib)[i].versions ==>
                nodes == old(nodes) && names == old(names) && versions == old(versions)
    {
      hide *;
      GrowsByNothing(nodes, names, den);
      AcceptableIs(lib, i, n, v);
      DiffersIs(lib, i, n, v);
      NoNewParts(den, StateTree(FilesOf(v.state)));
      var built, root;
      ghost var at;
      built, root, at := BuildPathTree(h, v.state);
      if built != Done {
        return Refused(InvalidState);
      }
      ghost var files := FilesOf(v.state);
      StateIsStorable(v.state);
      BuiltIsReady(h, root, at, files);
      if n in lib[i].versions && Agrees(lib[i].versions[n], v) {
        KnownStored(h, i, n, v);
      }
      ShowsIs({i});
      var nodeID := AddPathtreeNodes(root, h, told, at, SkeletonOf(files));
      ShownAsGraphGrows(roots, invs, versions, content, lib, {i}, old(nodes), old(names), old(den), nodes, names, den);
      ShowsIs({i});
      if n in lib[i].versions {
        AgreesMeaning(lib[i].versions[n], v);
      }
      r := InsertVersion(n, v, invRow, nodeID, h, i);
    }

    /** The loop over the versions of an inventory, in any order. */
    method IndexVersions(h: Hash, inv: Inventory, invRow: Id, ghost told: iset<Tree>, ghost lib0: Library,
                         ghost path: string)
      returns (r: Status)
      requires InGraph(h, {}) && Shows({inv.id}) && Validated(inv) && inv.head in inv.versions
      requires KeysTell(h, told) && Stocked(den, told) && StatesIn(inv, told)
      requires inv.id in invs && invs[inv.id].id == invRow && lib == LibraryAfter(lib0, inv, path, {}, {})
      modifies this`nodes, this`names, this`den, this`versions, this`lib
      ensures InGraph(h, {}) && GraphGrows(old(nodes), old(names), old(den), nodes, names, den)
      ensures OnlyStates(old(den), den, inv) && Stocked(den, told)
      ensures r.Fine? <==> VersionsAcceptable(lib0, inv, inv.versions.Keys)
      ensures r.Refused? ==> r.error == InvalidState || r.error == Changed
      ensures r.Refused? ==> exists n :: n in inv.versions && RefusesVersion(lib0, inv, n, r.error)
      ensures r.Fine? ==> Shows({inv.id}) && lib == LibraryAfter(lib0, inv, path, inv.versions.Keys, {})
      ensures r.Fine? && VersionsKnown(lib0, inv) ==>
                nodes == old(nodes) && names == old(names) && versions == old(versions)
    {
      hide *;
      GrowsByNothing(nodes, names, den);
      NoneChecked(lib0, inv);
      NoNewStates(den, inv);
      var left: set<nat> := inv.versions.Keys;
      ghost var vs: set<nat> := {};
      while left != {}
        invariant left <= inv.versions.Keys && vs == inv.versions.Keys - left
        invariant InGraph(h, {}) && Shows({inv.id}) && GraphGrows(old(nodes), old(names), old(den), nodes, names, den)
        invariant OnlyStates(old(den), den, inv) && Stocked(den, told)
        invariant lib == LibraryAfter(lib0, inv, path, vs, {}) && VersionsAcceptable(lib0, inv, vs)
        invariant VersionsKnown(lib0, inv) ==> nodes == old(nodes) && names == old(names) && versions == old(versions)
        decreases left
      {
        var n :| n in left;
        ValidatedVersion(inv, n);
        NextVersion(lib0, inv, path, vs, n);
        OneMoreChecked(lib0, inv, vs, n);
        ghost var nodes0, names0, den0 := nodes, names, den;
        StateIn(inv, told, n);
        RefusesIs(lib0, lib, inv, n);
        r := IndexVersion(h, n, inv.versions[n], invRow, told, inv.id);
        OneMoreState(nodes0, names0, nodes, names, old(den), den0, den, inv, n);
        GrowsInSteps(old(nodes), old(names), old(den), nodes0, names0, den0, nodes, names, den);
        if r.Refused? {
          return;
        }
        left, vs := left - {n}, vs + {n};
      }
      assert vs == inv.versions.Keys;
      r := Fine;
    }

    /** The loop over the content paths of an inventory. */
    method InsertContent(inv: Inventory, invRow: Id, ghost h: Hash, ghost lib0: Library, ghost path: string)
      requires InGraph(h, {}) && Shows({inv.id}) && inv.head in inv.versions
      requires inv.id in invs && invs[inv.id].id == invRow
      requires lib == LibraryAfter(lib0, inv, path, inv.versions.Keys, {})
      modifies this`content, this`lib
      ensures Shows({inv.id}) && lib == LibraryAfter(lib0, inv, path, inv.versions.Keys, inv.manifest.Keys)
      ensures Listed(content, nodes, invRow, inv.manifest, inv.manifest.Keys)
      ensures OnlyFor(old(content), content, invRow)
      ensures content == old(content) <==> Listed(old(content), nodes, invRow, inv.manifest, inv.manifest.Keys)
    {
      hide *;
      NothingListed(content, nodes, invRow, inv.manifest);
      NoneAdded(content, invRow);
      var left: set<string> := inv.manifest.Keys;
      ghost var ps: set<string> := {};
      while left != {}
        invariant left <= inv.manifest.Keys && ps == inv.manifest.Keys - left
        invariant Shows({inv.id}) && lib == LibraryAfter(lib0, inv, path, inv.versions.Keys, ps)
        invariant Listed(content, nodes, invRow, inv.manifest, ps)
        invariant OnlyFor(old(content), content, invRow)
        invariant Listed(old(content), nodes, invRow, inv.manifest, inv.manifest.Keys) ==> content == old(content)
        decreases left
      {
        var p :| p in left;
        NextContent(lib0, inv, path, ps, p);
        ListedStep(content, nodes, invRow, inv.manifest, ps, p);
        if Listed(content, nodes, invRow, inv.manifest, inv.manifest.Keys) {
          ListedPart(content, nodes, invRow, inv.manifest, inv.manifest.Keys, p);
        }
        OneMoreFor(old(content), content, nodes, invRow, p, inv.manifest[p]);
        AddContent(p, inv.manifest[p], invRow, h, inv.id);
        left, ps := left - {p}, ps + {p};
      }
      assert ps == inv.manifest.Keys;
    }

    /** `INSERT OR IGNORE` of one content path. */
    method AddContent(p: string, sum: Sum, invRow: Id, ghost h: Hash, ghost i: string)
      requires InGraph(h, {}) && Shows({i}) && i in lib && i in invs && invs[i].id == invRow
      modifies this`content, this`lib
      ensures Shows({i}) && content == ContentAfter(old(content), nodes, invRow, p, sum)
      ensures lib == WithContent(old(lib), i, Content(p, sum))
    {
      hide Shown, Keyed, TrueEdges, Complete, ContentAfter, WithContent;
      WithContentShown(h, roots, invs, versions, content, nodes, den, lib, i, p, sum);
      content := ContentAfter(content, nodes, invRow, p, sum);
      lib := WithContent(lib, i, Content(p, sum));
    }

    /** The root and the inventory row of an inventory. An object that is up to date keeps its row. */
    method WriteRows(path: string, indexedAt: int, inv: Inventory, ghost h: Hash) returns (r: Status, row: Id)
      requires Valid(h) && inv.head in inv.versions
      modifies this`roots, this`invs, this`lib
      ensures r == if path == "" then Refused(InvalidArgs)
                   else if exists j :: j in old(lib) && j != inv.id && old(lib)[j].root == path
                   then Refused(Constraint) else Fine
      ensures r.Fine? ==> Shows({inv.id}) && inv.id in invs && row == invs[inv.id].id
      ensures r.Fine? ==> roots == WithRoot(old(roots), path, indexedAt)
      ensures r.Fine? ==> lib == old(lib)[inv.id := Refreshed(old(lib), inv, path)]
      ensures r.Fine? ==> CompleteFor(content, nodes, row, lib[inv.id].versions)
      ensures UpToDate(old(lib), inv, path) ==> invs == old(invs)
    {
      hide *;
      row := 0;
      AcceptableParts(lib, inv, path);
      ValidIs(h);
      ShowsIs({});
      ShownParts(roots, invs, versions, content, nodes, den, lib, {});
      if UpToDate(lib, inv, path) {
        UpToDateRow(roots, invs, lib, inv, path, indexedAt);
      }
      r := IndexObjectRoot(path, indexedAt, h);
      if r.Refused? {
        return;
      }
      ValidIs(h);
      RootThere(old(roots), path, indexedAt);
      ShowsIs({});
      ShownParts(roots, invs, versions, content, nodes, den, lib, {});
      RootTakenMeaning(roots, invs, lib, inv.id, path);
      r, row := UpsertInventory(inv, roots[path].id, path);
      if r.Refused? {
        return;
      }
      ShowsIs({});
      SetPending(roots, invs, versions, content, nodes, den, lib, inv.id);
      ShowsIs({inv.id});
    }

    /** Indexes one inventory: its root, its row, all its versions, all its
        content paths. It succeeds exactly on what is acceptable. Afterwards the
        tables show the library with this object as the inventory describes it.
        If they did so before, only the root's time changes, and content rows are
        added exactly if some stored file of the manifest had none. After a refusal
        the caller rolls back. */
    method IndexObjectInventory(h: Hash, path: string, indexedAt: int, inv: Inventory, ghost told: iset<Tree>)
      returns (r: Status)
      requires Valid(h) && Validated(inv)
      requires KeysTell(h, told) && Stocked(den, told) && StatesIn(inv, told)
      modifies this
      ensures r.Fine? <==> Acceptable(old(lib), inv, path)
      ensures r == Refused(InvalidArgs) <==> path == ""
      ensures r == Refused(Constraint) <==>
              path != "" && exists j :: j in old(lib) && j != inv.id && old(lib)[j].root == path
      ensures r.Refused? && r.error != InvalidArgs && r.error != Constraint ==>
                exists n :: n in inv.versions && RefusesVersion(old(lib), inv, n, r.error)
      ensures InGraph(h, {}) && GraphGrows(old(nodes), old(names), old(den), nodes, names, den)
      ensures r.Fine? ==>
                Valid(h) && inv.head in inv.versions && lib == old(lib)[inv.id := Indexed(old(lib), inv, path)] &&
                roots == WithRoot(old(roots), path, indexedAt)
      ensures OnlyStates(old(den), den, inv) && Stocked(den, told)
      ensures r.Fine? ==> inv.id in invs && OnlyFor(old(content), content, invs[inv.id].id)
      ensures UpToDate(old(lib), inv, path) ==>
                && lib == old(lib) && nodes == old(nodes) && names == old(names)
                && invs == old(invs) && versions == old(versions)
      ensures UpToDate(old(lib), inv, path) ==> inv.id in old(invs)
      ensures UpToDate(old(lib), inv, path) ==>
                (content == old(content) <==>
                 Listed(old(content), old(nodes), old(invs)[inv.id].id, inv.manifest, inv.manifest.Keys))
      ensures UpToDate(old(lib), inv, path) && ManifestUsed(inv) ==> content == old(content)
    {
      hide *;
      HeadIsThere(inv);
      GrowsByNothing(nodes, names, den);
      NoNewStates(den, inv);
      ValidIs(h);
      AcceptableParts(lib, inv, path);
      ShowsIs({});
      if UpToDate(lib, inv, path) && ManifestUsed(inv) {
        UpToDateContent(roots, invs, versions, content, nodes, den, lib, inv, path);
      }
      var row;
      r, row := WriteRows(path, indexedAt, inv, h);
      if r.Refused? {
        return;
      }
      ghost var lib0, content0, nodes0, old0 := old(lib), content, nodes, lib[inv.id].versions;
      r := IndexVersions(h, inv, row, told, lib0, path);
      if r.Refused? {
        return;
      }
      NodesStay(nodes0, old(names), old(den), nodes, names, den);
      InsertContent(inv, row, h, lib0, path);
      OnlyForGrows(content0, content, row);
      WasComplete(h, content0, nodes0, inv, path, lib0, old0);
      ValidIs(h);
    }

    /** The end of indexing: all content rows are there. */
    lemma WasComplete(h: Hash, content0: Contents, nodes0: Nodes,
                      inv: Inventory, path: string, lib0: Library, old0: map<nat, VersionInfo>)
      requires InGraph(h, {}) && Shows({inv.id}) && Validated(inv) && inv.id in invs && inv.head in inv.versions
      requires lib == LibraryAfter(lib0, inv, path, inv.versions.Keys, inv.manifest.Keys)
      requires old0 == Refreshed(lib0, inv, path).versions
      requires CompleteFor(content0, nodes0, invs[inv.id].id, old0)
      requires forall k :: k in nodes0 ==> k in nodes && nodes[k] == nodes0[k]
      requires forall k :: k in content0 ==> k in content
      requires Listed(content, nodes, invs[inv.id].id, inv.manifest, inv.manifest.Keys)
      ensures Shows({})
    {
      hide Shown, Graph, Validated, CompleteFor, Listed, Known, Refreshed, Merged;
      CompleteStays(content0, nodes0, content, nodes, invs[inv.id].id, old0);
      NowComplete(h, roots, invs, versions, content, nodes, names, den, lib, inv, old0);
    }

    lemma ValidIs(h: Hash)
      ensures Valid(h) <==> InGraph(h, {}) && Shows({})
    {
    }

    /** Every reference from one table to another leads to a row. */
    lemma NothingDangles(h: Hash)
      requires Valid(h)
      ensures forall e :: e in names ==> IsNode(e.parent) && IsNode(names[e])
      ensures forall i :: i in invs ==> exists p :: p in roots && roots[p].id == invs[i].rootId
      ensures forall k :: k in versions ==> IsNode(versions[k].node) && exists i :: i in invs && invs[i].id == k.inv
      ensures forall k :: k in content ==> IsNode(k.node) && exists i :: i in invs && invs[i].id == k.inv
    {
      hide KeyOf, Storable, StateTree, PrefixFree, NumOf, VersionsShown, Complete;
      forall id | id in den ensures IsNode(id) {
        assert KeyOf(h, den[id]) in nodes;
      }
      forall k | k in versions ensures IsNode(versions[k].node) && exists i :: i in invs && invs[i].id == k.inv {
        NumberOfRow(invs, versions, den, lib, k);
      }
      forall k | k in content ensures IsNode(k.node) && exists i :: i in invs && invs[i].id == k.inv {
        var i :| OwnsContent(invs, lib, i, k.inv, Content(content[k], den[k.node].sum));
        assert i in invs && invs[i].id == k.inv;
      }
    }

    ghost predicate IsNode(id: Id)
      reads this`nodes
    {
      exists k :: k in nodes && nodes[k] == id
    }

    lemma KnownStored(h: Hash, i: string, n: nat, v: Version)
      requires Shows({i}) && InGraph(h, {}) && i in invs && i in lib && n in lib[i].versions
      requires Agrees(lib[i].versions[n], v)
      ensures KeyOf(h, StateTree(FilesOf(v.state))) in nodes
    {
      hide Shown, Keyed, TrueEdges, Complete, Agrees, FilesOf, KeyOf, StateTree;
      KnownVersionStored(h, roots, invs, versions, content, nodes, den, lib, i, n, v, {i});
    }

    lemma ShowsIs(pending: set<string>)
      ensures Shows(pending) <==> Shown(roots, invs, versions, content, nodes, den, lib, pending)
    {
    }

    /** The name of a child row under its parent row. */
    method LinkName(ghost h: Hash, ghost stack: set<Id>, nodeID: Id, parentID: Id, name: string, ghost t: Tree)
      requires InGraph(h, stack) && nodeID in den && den[nodeID] == t && IsChild(den, parentID, name, t)
      modifies this`names
      ensures InGraph(h, stack) && Edge(parentID, name) in names && names[Edge(parentID, name)] == nodeID
      ensures GraphGrows(nodes, old(names), den, nodes, names, den)
    {
      hide Graph, GraphGrows;
      GrowsByNothing(nodes, names, den);
      NewEdge(h, nodes, names, den, stack, parentID, name, nodeID);
      if Edge(parentID, name) !in names {
        GrowsByEdge(nodes, names, den, Edge(parentID, name), nodeID);
      }
      InsertIgnoreName(nodeID, parentID, name);
    }
  }

  lemma KeyIs(h: Hash, t: Tree, sum: Sum, dir: bool)
    requires sum == Digest(h, t) && dir == t.Dir?
    ensures KeyOf(h, t) == NodeKey(sum, dir)
  {
  }

  lemma StackEmpty(den: Meanings, t: Tree)
    ensures OnStack(den, t, {})
  {
  }

  lemma AcceptableIs(lib: Library, i: string, n: nat, v: Version)
    ensures VersionAcceptable(lib, i, n, v) <==>
              AllValid(v.state) && (i in lib && n in lib[i].versions ==> Agrees(lib[i].versions[n], v))
  {
    hide AllValid, Agrees;
  }

  /** Why a version is refused: an invalid path of its state, or a difference from what is indexed. */
  ghost predicate RefusesVersion(lib: Library, inv: Inventory, n: nat, error: TxError)
    requires n in inv.versions
  {
    match error
    case InvalidState => !AllValid(inv.versions[n].state)
    case Changed => VersionDiffers(lib, inv.id, n, inv.versions[n])
    case _ => false
  }

  lemma DiffersIs(lib: Library, i: string, n: nat, v: Version)
    ensures VersionDiffers(lib, i, n, v) <==> i in lib && n in lib[i].versions && !Agrees(lib[i].versions[n], v)
  {
    hide Agrees;
  }

  /** What is refused in the middle of an inventory was different before. */
  lemma RefusesIs(lib0: Library, lib: Library, inv: Inventory, n: nat)
    requires n in inv.versions
    requires VersionAcceptable(lib, inv.id, n, inv.versions[n]) <==> VersionAcceptable(lib0, inv.id, n, inv.versions[n])
    ensures !AllValid(inv.versions[n].state) ==> RefusesVersion(lib0, inv, n, InvalidState)
    ensures AllValid(inv.versions[n].state) && VersionDiffers(lib, inv.id, n, inv.versions[n]) ==>
              RefusesVersion(lib0, inv, n, Changed)
  {
    hide AllValid, Agrees;
  }

  lemma NoneChecked(lib: Library, inv: Inventory)
    ensures VersionsAcceptable(lib, inv, {})
  {
  }

  lemma OneMoreChecked(lib: Library, inv: Inventory, vs: set<nat>, n: nat)
    requires VersionsAcceptable(lib, inv, vs) && n in inv.versions
    ensures VersionAcceptable(lib, inv.id, n, inv.versions[n]) <==> VersionsAcceptable(lib, inv, vs + {n})
    ensures !VersionAcceptable(lib, inv.id, n, inv.versions[n]) ==> !VersionsAcceptable(lib, inv, inv.versions.Keys)
    ensures VersionsKnown(lib, inv) ==> inv.id in lib && n in lib[inv.id].versions
  {
    hide VersionAcceptable;
  }

  lemma ValidatedVersion(inv: Inventory, n: nat)
    requires Validated(inv) && n in inv.versions
    ensures inv.head in inv.versions && NumOf(inv.versions[n].name) == n && inv.versions[n].name != ""
    ensures PrefixFree(FilesOf(inv.versions[n].state))
  {
    hide NumOf, PrefixFree, Storable, StateTree, FilesOf;
  }

  lemma NothingListed(content: Contents, nodes: Nodes, inv: Id, manifest: map<string, Sum>)
    ensures Listed(content, nodes, inv, manifest, {})
  {
  }

  lemma HeadIsThere(inv: Inventory)
    requires Validated(inv)
    ensures inv.head in inv.versions
  {
    hide NumOf, PrefixFree, Storable, StateTree, FilesOf;
  }

  lemma RootThere(roots: Roots, path: string, at: int)
    ensures path in WithRoot(roots, path, at)
  {
  }

  lemma ShownParts(roots: Roots, invs: Invs, versions: Versions, content: Contents, nodes: Nodes, den: Meanings,
                   lib: Library, pending: set<string>)
    requires Shown(roots, invs, versions, content, nodes, den, lib, pending)
    ensures RootsShown(roots) && InvsShown(roots, invs, lib)
  {
  }

  lemma NodesStay(nodes: Nodes, names: Names, den: Meanings, nodes': Nodes, names': Names, den': Meanings)
    requires GraphGrows(nodes, names, den, nodes', names', den')
    ensures forall k :: k in nodes ==> k in nodes' && nodes'[k] == nodes[k]
  {
  }

  lemma OldRowsUnfold(h: Hash, nodes: Nodes, names: Names, den: Meanings, nodes': Nodes, names': Names, den': Meanings)
    requires Graph(h, nodes', names', den', {}) && GraphGrows(nodes, names, den, nodes', names', den')
    ensures forall id :: id in den ==> Represents(h, nodes', names', id, den[id])
  {
    hide Graph, Represents;
    forall id | id in den ensures Represents(h, nodes', names', id, den[id]) {
      GraphRepresents(h, nodes', names', den', id);
    }
  }

  lemma ReadyKids(h: Hash, root: Node<Sum>, at: Layout<Sum>, s: Skeleton, here: Path)
    requires Ready(h, root, at, s) && here in at && here in s
    ensures TreeAt(s, here).Dir? ==> TreeAt(s, here).children.Keys == at[here].Kids().Keys
  {
    hide Ready, TreeAt;
    ReadyNode(h, root, at, s, here);
  }

  lemma OnlyForGrows(content: Contents, content': Contents, inv: Id)
    requires OnlyFor(content, content', inv)
    ensures forall k :: k in content ==> k in content'
  {
  }
}
