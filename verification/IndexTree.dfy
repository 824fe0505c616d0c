/** Building the digest-labelled tree of a version state. The value of a node
    is its digest; sizes, which the indexing path never passes, are absent. */
module IndexTree {
  import opened Trees
  import opened Ordering
  import opened Paths
  import opened PathMaps
  import opened PathTree
  import opened Walks
  import opened States
  import opened Digests

  /** The cells once the directories among `marked` carry their digests. */
  ghost function Labelled(h: Hash, s: Skeleton, cells: Cells<Sum>, marked: set<Path>): (r: Cells<Sum>)
    requires cells.Keys == s.Keys
    ensures r.Keys == cells.Keys
    ensures forall q :: q in cells && (q !in marked || cells[q].children.None?) ==> r[q] == cells[q]
    ensures forall q :: q in cells && q in marked && cells[q].children.Some? ==>
              r[q] == Cell(Digest(h, TreeAt(s, q)), cells[q].children)
  {
    map q | q in cells :: if q in marked && cells[q].children.Some?
                          then Cell(Digest(h, TreeAt(s, q)), cells[q].children) else cells[q]
  }

  lemma LabelledKeepsTree(h: Hash, s: Skeleton, root: Node<Sum>, at: Layout<Sum>, cells: Cells<Sum>, marked: set<Path>)
    requires Linked(root, at, cells) && cells.Keys == s.Keys
    ensures Linked(root, at, Labelled(h, s, cells, marked))
  {
    var r := Labelled(h, s, cells, marked);
    assert forall q :: q in cells ==> r[q].Kids() == cells[q].Kids();
    hide Labelled, Unshared;
  }

  lemma LabelledKeepsBare(h: Hash, s: Skeleton, cells: Cells<Sum>, marked: set<Path>)
    requires cells.Keys == s.Keys
    ensures Bare(Meaning(Labelled(h, s, cells, marked))) == Bare(Meaning(cells))
  {
    var r := Labelled(h, s, cells, marked);
    forall q | q in cells ensures Bare(Meaning(r))[q] == Bare(Meaning(cells))[q] {
    }
  }

  lemma LabelledTwice(h: Hash, s: Skeleton, cells: Cells<Sum>, a: set<Path>, b: set<Path>)
    requires cells.Keys == s.Keys
    ensures Labelled(h, s, Labelled(h, s, cells, a), b) == Labelled(h, s, cells, a + b)
  {
  }

  /** Marking a file changes nothing. */
  lemma LabelFile(h: Hash, s: Skeleton, m: PathMap<Sum>, cells: Cells<Sum>, a: set<Path>, p: Path)
    requires m == Meaning(cells) && s == Bare(m) && Closed(m) && p in m && !m[p].dir
    ensures Labelled(h, s, cells, a + Below(cells, p)) == Labelled(h, s, cells, a)
  {
    forall q | q in Below(cells, p) ensures q == p {
      if q != p {
        ClosedUnderPrefix(m, q, p);
      }
    }
  }

  /** `s` is the skeleton of the tree whose cells are `cells`. */
  ghost predicate SkeletonIs(root: Node<Sum>, at: Layout<Sum>, cells: Cells<Sum>, s: Skeleton)
  {
    Linked(root, at, cells) && s == Bare(Meaning(cells))
  }

  lemma DirHere(root: Node<Sum>, at: Layout<Sum>, cells: Cells<Sum>, s: Skeleton, here: Path)
    requires SkeletonIs(root, at, cells, s) && here in at && cells[here].children.Some?
    ensures TreeAt(s, here).Dir?
    ensures forall k :: k in TreeAt(s, here).children <==> k in cells[here].Kids()
    ensures forall k :: k in cells[here].Kids() ==>
              here + [k] in s && TreeAt(s, here).children[k] == TreeAt(s, here + [k])
  {
    forall k ensures k in ChildNames(s, here) <==> k in cells[here].Kids() {
      ChildHere(root, at, cells, here, k);
    }
  }

  /** The line for a child, once the child carries its digest. */
  lemma LineForChild(h: Hash, root: Node<Sum>, at: Layout<Sum>, cells: Cells<Sum>, s: Skeleton,
                     here: Path, n: string, val: Sum)
    requires SkeletonIs(root, at, cells, s) && here in at && cells[here].children.Some? && n in cells[here].Kids()
    requires var step := here + [n];
             step in cells && val == if cells[step].children.Some? then Digest(h, TreeAt(s, step)) else cells[step].val
    ensures var t := TreeAt(s, here);
            t.Dir? && n in t.children && EntryOf(h, t, n) == Digests.Entry(val, n, cells[here + [n]].children.Some?)
  {
    DirHere(root, at, cells, s, here);
    assert s[here + [n]] == if cells[here + [n]].children.Some? then None else Some(cells[here + [n]].val);
  }

  lemma OneMoreLine(h: Hash, t: Tree, names: seq<string>, n: string)
    requires t.Dir? && n in t.children && forall k :: k in names ==> k in t.children
    ensures Listing(Entries(h, t, names + [n])) == Listing(Entries(h, t, names)) + Line(EntryOf(h, t, n))
  {
    ListingAppend(Entries(h, t, names), EntryOf(h, t, n));
    assert Entries(h, t, names + [n]) == Entries(h, t, names) + [EntryOf(h, t, n)];
  }

  /** Once all children carry their digests, the hash of the listing is the directory's own. */
  lemma LabelDir(h: Hash, s: Skeleton, cells: Cells<Sum>, marked: set<Path>, here: Path, c: Cells<Sum>)
    requires cells.Keys == s.Keys && here in cells && cells[here].children.Some?
    requires c == Labelled(h, s, cells, marked)[here := Cell(Digest(h, TreeAt(s, here)), cells[here].children)]
    ensures c == Labelled(h, s, cells, marked + {here})
  {
  }

  lemma SkeletonFacts(h: Hash, root: Node<Sum>, at: Layout<Sum>, cells: Cells<Sum>, s: Skeleton, here: Path)
    requires SkeletonIs(root, at, cells, s) && here in at
    ensures cells.Keys == s.Keys && Labelled(h, s, cells, {}) == cells && Below(cells, here) == Below(at, here)
    ensures cells[here].children.None? ==> Labelled(h, s, cells, Below(at, here)) == cells
  {
    if cells[here].children.None? {
      LinkedIsClosed(root, at, cells);
      LabelFile(h, s, Meaning(cells), cells, {}, here);
      assert {} + Below(cells, here) == Below(at, here);
    }
  }

  /** What a labelling says about one child. */
  lemma ChildOfLabelled(h: Hash, root: Node<Sum>, at: Layout<Sum>, cells: Cells<Sum>, s: Skeleton,
                        marked: set<Path>, here: Path, n: string)
    requires SkeletonIs(root, at, cells, s) && here in at && n in cells[here].Kids()
    ensures var step := here + [n];
            && step in at && at[step] == cells[here].Kids()[n]
            && Below(at, step) < Below(at, here)
            && SkeletonIs(root, at, Labelled(h, s, cells, marked), s)
            && Labelled(h, s, Labelled(h, s, cells, marked), Below(at, step)) ==
                Labelled(h, s, cells, marked + Below(at, step))
            && (cells[step].children.None? ==>
                  Labelled(h, s, cells, marked + Below(at, step)) == Labelled(h, s, cells, marked))
            && Labelled(h, s, cells, marked)[here].children == cells[here].children
            && Labelled(h, s, cells, marked)[step].children == cells[step].children
  {
    hide *;
    LinkedThen(root, at, cells, s);
    SkeletonThen(root, at, cells, s);
    ChildHere(root, at, cells, here, n);
    var step := here + [n];
    SmallerThere(at, here, n);
    LabelledKeepsSkeleton(h, root, at, cells, s, marked);
    LabelledTwice(h, s, cells, marked, Below(at, step));
    if cells[step].children.None? {
      LinkedIsClosed(root, at, cells);
      MeaningAt(cells, step);
      LabelFile(h, s, Meaning(cells), cells, marked, step);
      assert Below(cells, step) == Below(at, step);
    }
  }

  lemma SkeletonThen(root: Node<Sum>, at: Layout<Sum>, cells: Cells<Sum>, s: Skeleton)
    requires SkeletonIs(root, at, cells, s)
    ensures s == Bare(Meaning(cells)) && cells.Keys == s.Keys && at.Keys == cells.Keys
  {
  }

  lemma MeaningAt(cells: Cells<Sum>, p: Path)
    requires p in cells
    ensures Meaning(cells)[p].dir == cells[p].children.Some?
  {
  }

  lemma LabelledKeepsSkeleton(h: Hash, root: Node<Sum>, at: Layout<Sum>, cells: Cells<Sum>, s: Skeleton,
                              marked: set<Path>)
    requires SkeletonIs(root, at, cells, s) && cells.Keys == s.Keys
    ensures SkeletonIs(root, at, Labelled(h, s, cells, marked), s)
  {
    hide Linked, Bare, Meaning, Labelled;
    LabelledKeepsTree(h, s, root, at, cells, marked);
    LabelledKeepsBare(h, s, cells, marked);
  }

  lemma LineOfLabelled(h: Hash, root: Node<Sum>, at: Layout<Sum>, cells: Cells<Sum>, s: Skeleton,
                       marked: set<Path>, here: Path, names: seq<string>, i: nat)
    requires SkeletonIs(root, at, cells, s) && here in at && cells[here].children.Some?
    requires i < |names| && forall k :: k in names <==> k in cells[here].Kids()
    ensures cells.Keys == s.Keys && here + [names[i]] in cells
    ensures TreeAt(s, here).Dir? && forall k :: k in names ==> k in TreeAt(s, here).children
    ensures Listing(Entries(h, TreeAt(s, here), names[..i + 1])) ==
            Listing(Entries(h, TreeAt(s, here), names[..i])) +
            Line(Digests.Entry(Labelled(h, s, cells, marked + Below(at, here + [names[i]]))[here + [names[i]]].val,
                               names[i], cells[here + [names[i]]].children.Some?))
  {
    hide Listing, Line, Entries, TreeAt, Digest, SkeletonIs, Below, Labelled, EntryOf;
    SkeletonFacts(h, root, at, cells, s, here);
    var n, step, t := names[i], here + [names[i]], TreeAt(s, here);
    DirHere(root, at, cells, s, here);
    assert n in names;
    ChildOfLabelled(h, root, at, cells, s, marked, here, n);
    var val := Labelled(h, s, cells, marked + Below(at, step))[step].val;
    assert step in Below(at, step);
    LineForChild(h, root, at, cells, s, here, n, val);
    assert names[..i + 1] == names[..i] + [n];
    OneMoreLine(h, t, names[..i], n);
  }

  /** Writes into every directory at and below `node` its recursive digest. */
  method DirDigests(h: Hash, node: Node<Sum>, ghost root: Node<Sum>, ghost at: Layout<Sum>, ghost here: Path,
                    ghost s: Skeleton)
    requires here in at && at[here] == node && SkeletonIs(root, at, CellsOf(at), s)
    modifies at.Values
    ensures CellsOf(at) == Labelled(h, s, old(CellsOf(at)), Below(at, here))
    decreases Below(at, here), 1
  {
    hide *;
    ghost var cells := CellsOf(at);
    CellAt(at, here);
    SkeletonFacts(h, root, at, cells, s, here);
    if node.children.None? {
      return;
    }
    KidsOf(node, cells[here]);
    var entries := node.DirEntries();
    ghost var names, t := EntryNames(entries), TreeAt(s, here);
    DirHere(root, at, cells, s, here);
    StartListing(h, at, here, names, t);
    var text := "";
    var i := 0;
    while i < |entries|
      invariant 0 <= i <= |entries|
      invariant CellsOf(at) == Labelled(h, s, cells, BelowNamed(at, here, names[..i]))
      invariant node.children == cells[here].children
      invariant text == Listing(Entries(h, t, names[..i]))
    {
      var n := entries[i].name;
      KidsOf(node, cells[here]);
      assert names[i] == n && n in names;
      LineOfLabelled(h, root, at, cells, s, BelowNamed(at, here, names[..i]), here, names, i);
      BelowNamedNext(at, here, names, i);
      var line := ChildLine(h, node.Kids()[n], n, root, at, here, s, cells, BelowNamed(at, here, names[..i]));
      CellAt(at, here);
      text := text + line;
      i := i + 1;
    }
    ListedAll(h, root, at, cells, s, here, names);
    assert names[..i] == names;
    WriteSum(node, h(text), at, here);
    LabelDir(h, s, cells, BelowNamed(at, here, names), here, CellsOf(at));
  }

  /** One turn of the loop over a directory's entries: labels the child first
      if it is a directory, then writes its line. */
  method ChildLine(h: Hash, ch: Node<Sum>, n: string, ghost root: Node<Sum>, ghost at: Layout<Sum>, ghost here: Path,
                   ghost s: Skeleton, ghost cells: Cells<Sum>, ghost marked: set<Path>) returns (line: string)
    requires SkeletonIs(root, at, cells, s) && cells.Keys == s.Keys
    requires here in at && n in cells[here].Kids() && cells[here].Kids()[n] == ch
    requires CellsOf(at) == Labelled(h, s, cells, marked)
    modifies at.Values
    ensures here + [n] in cells
    ensures CellsOf(at) == Labelled(h, s, cells, marked + Below(at, here + [n]))
    ensures CellsOf(at)[here].children == cells[here].children
    ensures line == Line(Digests.Entry(CellsOf(at)[here + [n]].val, n, cells[here + [n]].children.Some?))
    decreases Below(at, here), 0
  {
    hide *;
    ChildOfLabelled(h, root, at, cells, s, marked, here, n);
    ChildOfLabelled(h, root, at, cells, s, marked + Below(at, here + [n]), here, n);
    CellAt(at, here + [n]);
    if ch.children.Some? {
      DirDigests(h, ch, root, at, here + [n], s);
    }
    CellAt(at, here + [n]);
    line := Line(Digests.Entry(ch.Val, n, ch.children.Some?));
  }

  method WriteSum(node: Node<Sum>, sum: Sum, ghost at: Layout<Sum>, ghost here: Path)
    requires here in at && at[here] == node
    requires forall q :: q in at && q != here ==> at[q] != node
    modifies node`Val
    ensures CellsOf(at) == old(CellsOf(at))[here := Cell(sum, node.children)]
  {
    node.Val := sum;
  }

  lemma StartListing(h: Hash, at: Layout<Sum>, here: Path, names: seq<string>, t: Tree)
    requires t.Dir?
    ensures BelowNamed(at, here, names[..0]) == {} && Listing(Entries(h, t, names[..0])) == ""
  {
  }

  lemma ListedAll(h: Hash, root: Node<Sum>, at: Layout<Sum>, cells: Cells<Sum>, s: Skeleton, here: Path,
                  names: seq<string>)
    requires SkeletonIs(root, at, cells, s) && here in at && cells[here].children.Some?
    requires names == Sorted(cells[here].Kids().Keys)
    ensures BelowNamed(at, here, names) + {here} == Below(at, here)
    ensures forall q :: q in at && q != here ==> at[q] != at[here]
    ensures TreeAt(s, here).Dir? && forall k :: k in names ==> k in TreeAt(s, here).children
    ensures Digest(h, TreeAt(s, here)) == h(Listing(Entries(h, TreeAt(s, here), names)))
  {
    hide *;
    LinkedThen(root, at, cells, s);
    SkeletonThen(root, at, cells, s);
    var t := TreeAt(s, here);
    DirHere(root, at, cells, s, here);
    ChildHere(root, at, cells, here, "");
    BelowAll(root, at, cells, here, names);
    assert t.children.Keys == cells[here].Kids().Keys;
    DigestOfDir(h, t);
  }

  lemma LinkedThen(root: Node<Sum>, at: Layout<Sum>, cells: Cells<Sum>, s: Skeleton)
    requires SkeletonIs(root, at, cells, s)
    ensures Linked(root, at, cells)
  {
  }

  lemma DigestOfDir(h: Hash, t: Tree)
    requires t.Dir?
    ensures Digest(h, t) == h(Listing(Entries(h, t, Sorted(t.children.Keys))))
  {
  }

  /** The files of a state, by the names along their logical paths. */
  ghost function FilesOf(state: map<string, Sum>): (files: Files)
    ensures forall p :: p in files <==> Text(p) in state && Elems(Text(p)) == p
    ensures forall p :: p in files ==> files[p] == state[Text(p)]
  {
    var paths := set k | k in state :: Elems(k);
    forall k | k in state ensures Text(Elems(k)) == k {
      TextOfElems(k);
    }
    map p | p in paths :: state[Text(p)]
  }

  lemma FileFor(state: map<string, Sum>, k: string)
    requires k in state
    ensures Elems(k) in FilesOf(state) && FilesOf(state)[Elems(k)] == state[k]
  {
    TextOfElems(k);
  }

  ghost predicate AllValid(state: map<string, Sum>)
  {
    forall k :: k in state ==> ValidPath(k)
  }

  lemma OneMoreFile(part: map<string, Sum>, k: string, sum: Sum)
    requires k !in part
    ensures Elems(k) !in FilesOf(part)
    ensures FilesOf(part[k := sum]) == FilesOf(part)[Elems(k) := sum]
  {
    hide FilesOf, Elems, Text;
    TextOfElems(k);
    var l, r := FilesOf(part[k := sum]), FilesOf(part)[Elems(k) := sum];
    forall p ensures p in l <==> p in r {
      assert Text(p) == k && Elems(Text(p)) == p ==> p == Elems(k);
    }
  }

  lemma PartIsPrefixFree(part: map<string, Sum>, state: map<string, Sum>)
    requires part.Keys <= state.Keys && PrefixFree(FilesOf(state))
    ensures PrefixFree(FilesOf(part))
  {
    assert forall p :: p in FilesOf(part) ==> p in FilesOf(state);
  }

  /** Every node carries the digest of the tree below it. */
  ghost predicate CarriesDigests(h: Hash, s: Skeleton, at: Layout<Sum>)
    reads at.Values
  {
    at.Keys == s.Keys && forall q :: q in at ==> at[q].Val == Digest(h, TreeAt(s, q))
  }

  /** The tree of a version state with all its digests. It fails only on a
      logical path that is not valid. */
  method BuildPathTree(h: Hash, state: map<string, Sum>) returns (r: Outcome, root: Node<Sum>, ghost at: Layout<Sum>)
    requires PrefixFree(FilesOf(state))
    ensures r == if AllValid(state) then Done else Failed(InvalidPath)
    ensures fresh(at.Values) && IsTree(root, at)
    ensures r.Done? ==> Bare(Model(at)) == SkeletonOf(FilesOf(state))
    ensures r.Done? ==> CarriesDigests(h, SkeletonOf(FilesOf(state)), at)
  {
    hide *;
    root := new Node.NewDir([]);
    at := Only(root);
    EmptyState(root);
    var left := state.Keys;
    ghost var part: map<string, Sum> := map[];
    NothingToCheck(state);
    while left != {}
      invariant left <= state.Keys && IsRest(state, left, part)
      invariant IsTree(root, at) && forall q :: q in at ==> fresh(at[q])
      invariant Bare(Model(at)) == SkeletonOf(FilesOf(part)) && AllValid(part)
      decreases left
    {
      var logical :| logical in left;
      FileCanBeAdded(root, at, part, state, left, logical);
      r, at := root.SetFile(logical, state[logical], [], at);
      if r != Done {
        NotAllValid(state, logical);
        return;
      }
      StillValid(part, logical, state[logical]);
      OneLess(state, left, part, logical);
      part := part[logical := state[logical]];
      left := left - {logical};
    }
    NoneLeft(state, part);
    LabelTree(h, root, at);
    r := Done;
  }

  /** `DirDigests` on a whole tree. */
  method LabelTree(h: Hash, root: Node<Sum>, ghost at: Layout<Sum>)
    requires IsTree(root, at)
    modifies at.Values
    ensures IsTree(root, at) && Bare(Model(at)) == old(Bare(Model(at)))
    ensures CarriesDigests(h, old(Bare(Model(at))), at)
  {
    hide *;
    ghost var cells, s := CellsOf(at), Bare(Model(at));
    BeforeLabels(root, at);
    DirDigests(h, root, root, at, [], s);
    AllLabelled(h, root, at, cells, s);
  }

  lemma EmptyState(root: Node<Sum>)
    requires root.children == Some(map[])
    ensures forall q :: q in Only(root) ==> Only(root)[q] == root
    ensures IsTree(root, Only(root)) && Bare(Model(Only(root))) == SkeletonOf(FilesOf(map[]))
  {
    Alone(root, Cell(root.Val, root.children));
    assert CellsOf(Only(root)) == OnlyCell(Cell(root.Val, root.children));
  }

  lemma FileCanBeAdded(root: Node<Sum>, at: Layout<Sum>, part: map<string, Sum>, state: map<string, Sum>,
                       left: set<string>, k: string)
    requires IsTree(root, at) && Bare(Model(at)) == SkeletonOf(FilesOf(part))
    requires left <= state.Keys && IsRest(state, left, part) && k in left && PrefixFree(FilesOf(state))
    ensures k != "."
    ensures SetFate(Model(at), k, false) == if ValidPath(k) then Done else Failed(InvalidPath)
    ensures Bare(Put(Model(at), Elems(k), FileModel(state[k]), [])) ==
            SkeletonOf(FilesOf(part[k := state[k]]))
  {
    hide IsTree, Model, Bare, SkeletonOf, Put, Elems, DirName, ValidPath, PrefixFree, Blocked, FilesOf;
    var m, p := Model(at), Elems(k);
    AtRoot(root, at, []);
    RootIsNoFile(state);
    OneMoreFile(part, k, state[k]);
    PartIsPrefixFree(part[k := state[k]], state);
    FileFor(state, k);
    assert p in FilesOf(state) && p != [];
    AddFile(FilesOf(part), m, p, state[k], []);
    WayIsClear(FilesOf(part), m, p, state[k]);
    if ValidPath(k) {
      DirAndBase(k);
      assert p[..|p| - 1] == Elems(DirName(k));
    }
  }

  /** `part` is `state` without the keys in `left`. */
  ghost predicate IsRest(state: map<string, Sum>, left: set<string>, part: map<string, Sum>)
  {
    && (forall k :: k in part <==> k in state && k !in left)
    && (forall k :: k in part ==> part[k] == state[k])
  }

  lemma OneLess(state: map<string, Sum>, left: set<string>, part: map<string, Sum>, k: string)
    requires IsRest(state, left, part) && k in left && k in state
    ensures IsRest(state, left - {k}, part[k := state[k]])
  {
  }

  lemma NoneLeft(state: map<string, Sum>, part: map<string, Sum>)
    requires IsRest(state, {}, part)
    ensures part == state
  {
  }

  lemma NothingToCheck(state: map<string, Sum>)
    ensures AllValid(map[]) && IsRest(state, state.Keys, map[])
  {
  }

  lemma StillValid(part: map<string, Sum>, k: string, sum: Sum)
    requires AllValid(part) && ValidPath(k)
    ensures AllValid(part[k := sum])
  {
  }

  lemma NotAllValid(state: map<string, Sum>, k: string)
    requires k in state && !ValidPath(k)
    ensures !AllValid(state)
  {
  }

  lemma RootIsNoFile(state: map<string, Sum>)
    requires PrefixFree(FilesOf(state))
    ensures [] !in FilesOf(state)
  {
  }

  lemma BeforeLabels(root: Node<Sum>, at: Layout<Sum>)
    requires IsTree(root, at)
    ensures SkeletonIs(root, at, CellsOf(at), Bare(Model(at))) && [] in at && at[[]] == root
  {
  }

  lemma AllLabelled(h: Hash, root: Node<Sum>, at: Layout<Sum>, cells: Cells<Sum>, s: Skeleton)
    requires SkeletonIs(root, at, cells, s)
    requires cells.Keys == s.Keys && CellsOf(at) == Labelled(h, s, cells, Below(at, []))
    ensures IsTree(root, at) && Bare(Model(at)) == s && CarriesDigests(h, s, at)
  {
    LabelledKeepsTree(h, s, root, at, cells, Below(at, []));
    LabelledKeepsBare(h, s, cells, Below(at, []));
    forall q | q in at ensures at[q].Val == Digest(h, TreeAt(s, q)) {
      CellAt(at, q);
      assert q in Below(at, []);
      assert s[q] == if cells[q].children.Some? then None else Some(cells[q].val);
    }
  }

  /** A finished tree: `root` shows `s`, with digests everywhere and valid names. */
  ghost predicate Ready(h: Hash, root: Node<Sum>, at: Layout<Sum>, s: Skeleton)
    reads at.Values
  {
    && SkeletonIs(root, at, CellsOf(at), s) && ClosedSkeleton(s)
    && CarriesDigests(h, s, at)
    && Storable(TreeAt(s, []))
  }

  /** What the nodes of a finished tree show about the tree below them. */
  lemma ReadyNode(h: Hash, root: Node<Sum>, at: Layout<Sum>, s: Skeleton, here: Path)
    requires Ready(h, root, at, s) && here in at
    ensures here in s && Storable(TreeAt(s, here))
    ensures TreeAt(s, here).Dir? <==> at[here].children.Some?
    ensures at[here].Val == Digest(h, TreeAt(s, here))
    ensures TreeAt(s, here).Dir? ==> forall k :: k in TreeAt(s, here).children <==> k in at[here].Kids()
    ensures !TreeAt(s, here).Dir? ==> at[here].Kids() == map[]
    ensures forall k :: k in at[here].Kids() ==>
              && here + [k] in at && at[here].Kids()[k] == at[here + [k]]
              && here + [k] in s && TreeAt(s, here).children[k] == TreeAt(s, here + [k])
              && Below(at, here + [k]) < Below(at, here)
  {
    var cells := CellsOf(at);
    hide Digest, AllNames, Covered, Reached, Unshared, CarriesDigests;
    CellAt(at, here);
    assert at[here].Val == Digest(h, TreeAt(s, here)) by { DigestCarried(h, s, at, here); }
    assert s[here] == if cells[here].children.Some? then None else Some(cells[here].val);
    if cells[here].children.Some? {
      DirHere(root, at, cells, s, here);
    }
    assert at[here].Kids() == cells[here].Kids();
    forall k | k in at[here].Kids()
      ensures here + [k] in at && at[here].Kids()[k] == at[here + [k]] && Below(at, here + [k]) < Below(at, here)
    {
      ChildOfLabelled(h, root, at, cells, s, {}, here, k);
    }
    assert [] + here == here;
    GetTreeAt(s, [], here);
    AllNamesBelow(TreeAt(s, []), ValidName, here);
  }

  lemma ReadyChild(h: Hash, root: Node<Sum>, at: Layout<Sum>, s: Skeleton, here: Path, k: string)
    requires Ready(h, root, at, s) && here in at && k in at[here].Kids()
    ensures here in s && here + [k] in s && here + [k] in at && at[here].Kids()[k] == at[here + [k]]
    ensures TreeAt(s, here).Dir? && k in TreeAt(s, here).children
    ensures TreeAt(s, here).children[k] == TreeAt(s, here + [k])
    ensures Below(at, here + [k]) < Below(at, here)
  {
    hide Ready, TreeAt, Below;
    ReadyNode(h, root, at, s, here);
  }

  lemma DigestCarried(h: Hash, s: Skeleton, at: Layout<Sum>, here: Path)
    requires CarriesDigests(h, s, at) && here in at
    ensures at[here].Val == Digest(h, TreeAt(s, here))
  {
  }

  /** What `BuildPathTree` returns is finished. */
  lemma BuiltIsReady(h: Hash, root: Node<Sum>, at: Layout<Sum>, files: Files)
    requires IsTree(root, at) && Bare(Model(at)) == SkeletonOf(files) && CarriesDigests(h, SkeletonOf(files), at)
    requires PrefixFree(files) && Storable(StateTree(files))
    ensures Ready(h, root, at, SkeletonOf(files))
    ensures [] in at && at[[]] == root && [] in SkeletonOf(files)
    ensures TreeAt(SkeletonOf(files), []) == StateTree(files)
  {
    hide TreeAt, Storable, CarriesDigests;
    SkeletonOfIsClosed(files);
  }

  /** Valid logical paths make a tree that can be stored. */
  lemma StateIsStorable(state: map<string, Sum>)
    requires PrefixFree(FilesOf(state)) && AllValid(state)
    ensures Storable(StateTree(FilesOf(state)))
  {
    hide PrefixFree, TreeAt, AllNames;
    var files := FilesOf(state);
    forall p, i | p in files && 0 <= i < |p| ensures ValidName(p[i]) {
      assert p[i] in p && Text(p) in state && Elems(Text(p)) == p;
    }
    NamesOfSkeleton(files, ValidName);
  }

  /** If no logical path holds a newline, the tree has plain names. */
  lemma StateIsPlain(state: map<string, Sum>)
    requires PrefixFree(FilesOf(state)) && forall k :: k in state ==> '\n' !in k
    ensures PlainNames(StateTree(FilesOf(state)))
  {
    hide PrefixFree, TreeAt, AllNames;
    var files := FilesOf(state);
    forall p, i | p in files && 0 <= i < |p| ensures Plain(p[i]) {
      assert p[i] in p && Text(p) in state && Elems(Text(p)) == p;
      if '\n' in p[i] {
        SplitAddsNothing(Text(p), p[i], '\n');
      }
    }
    NamesOfSkeleton(files, Plain);
  }

  lemma NamesOfSkeleton(files: Files, ok: string -> bool)
    requires PrefixFree(files) && forall p, i :: p in files && 0 <= i < |p| ==> ok(p[i])
    ensures AllNames(StateTree(files), ok)
  {
    hide PrefixFree, TreeAt, AllNames;
    var s := SkeletonOf(files);
    forall p, i | p in s && 0 <= i < |p| ensures ok(p[i]) {
      if p !in files {
        var f :| f in files && p < f;
        assert f[i] == p[i];
      }
    }
    NamesInSkeleton(s, [], ok);
  }

  lemma {:induction false} NamesInSkeleton(s: Skeleton, p: Path, ok: string -> bool)
    requires p in s && forall q, i :: q in s && 0 <= i < |q| ==> ok(q[i])
    ensures AllNames(TreeAt(s, p), ok)
    decreases set q | q in s && p <= q
  {
    if s[p].None? {
      forall k | k in ChildNames(s, p) ensures ok(k) && AllNames(ChildTree(s, p, k), ok) {
        assert (p + [k])[|p|] == k;
        FewerBelow(s, p, k);
        NamesInSkeleton(s, p + [k], ok);
      }
    }
  }
}
