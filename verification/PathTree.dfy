/** The mutable path tree. A node's children map is absent for files. Which
    nodes belong to a tree, and at which path, is the ghost layout `at`, handed
    from method to method; its meaning is an immutable path map. */
module PathTree {
  import opened Trees
  import opened Ordering
  import opened Paths
  import opened PathMaps

  datatype Error = InvalidPath | NotFound | NotDir | Relation

  datatype Result<+T> = Ok(value: T) | Err(error: Error)

  /** How a mutating call ends; `Panicked` is Go's "assignment to entry in nil map". */
  datatype Outcome = Done | Failed(error: Error) | Panicked

  datatype DirEntry = DirEntry(name: string, isDir: bool)

  function EntryNames(entries: seq<DirEntry>): (r: seq<string>)
    ensures |r| == |entries| && forall i :: 0 <= i < |r| ==> r[i] == entries[i].name
  {
    seq(|entries|, i requires 0 <= i < |entries| => entries[i].name)
  }

  /** Puts a new entry at its place among sorted ones. */
  method InsertEntry(entries: seq<DirEntry>, e: DirEntry) returns (r: seq<DirEntry>)
    requires IsSorted(EntryNames(entries)) && e.name !in EntryNames(entries)
    ensures IsSorted(EntryNames(r))
    ensures forall k :: k in EntryNames(r) <==> k == e.name || k in EntryNames(entries)
    ensures forall x :: x in r ==> x == e || x in entries
  {
    var i := 0;
    while i < |entries| && Less(entries[i].name, e.name)
      invariant 0 <= i <= |entries|
      invariant forall j :: 0 <= j < i ==> Less(entries[j].name, e.name)
    {
      i := i + 1;
    }
    r := entries[..i] + [e] + entries[i..];
    ghost var ns := EntryNames(entries);
    assert i < |entries| ==> ns[i] == entries[i].name;
    InsertSorted(ns, i, e.name);
    assert EntryNames(r) == ns[..i] + [e.name] + ns[i..];
  }

  /** Which node stands at which path. */
  type Layout<T> = map<Path, Node<T>>

  /** What the fields of a node hold. */
  datatype Cell<T> = Cell(val: T, children: Option<map<string, Node<T>>>)
  {
    function Kids(): map<string, Node<T>> {
      if children.Some? then children.value else map[]
    }
  }

  type Cells<T> = map<Path, Cell<T>>

  ghost function CellsOf<T>(at: Layout<T>): (cells: Cells<T>)
    reads at.Values
    ensures cells.Keys == at.Keys
  {
    map p | p in at :: Cell(at[p].Val, at[p].children)
  }

  /** From the root, the children maps lead to exactly the nodes of `at`, and
      no node stands at two paths. */
  ghost predicate Linked<T>(root: Node<T>, at: Layout<T>, cells: Cells<T>)
  {
    && at.Keys == cells.Keys
    && [] in at && at[[]] == root
    && Reached(at, cells)
    && Covered(at, cells)
    && Unshared(at)
  }

  /** Every node but the root is a child of the node above it. */
  ghost predicate Reached<T>(at: Layout<T>, cells: Cells<T>)
    requires at.Keys == cells.Keys
  {
    forall p: Path, k: string {:trigger p + [k] in at} ::
      p + [k] in at ==> p in at && k in cells[p].Kids() && cells[p].Kids()[k] == at[p + [k]]
  }

  /** Every child stands in the layout. */
  ghost predicate Covered<T>(at: Layout<T>, cells: Cells<T>)
    requires at.Keys == cells.Keys
  {
    forall p, k :: p in at && k in cells[p].Kids() ==> p + [k] in at
  }

  ghost predicate Unshared<T>(at: Layout<T>)
  {
    forall p, q :: p in at && q in at && at[p] == at[q] ==> p == q
  }

  /** For every path, whether a directory stands there and its value. */
  ghost function Meaning<T>(cells: Cells<T>): (m: PathMap<T>)
    ensures m.Keys == cells.Keys
  {
    map p | p in cells :: Entry(cells[p].children.Some?, cells[p].val)
  }

  ghost predicate IsTree<T>(root: Node<T>, at: Layout<T>)
    reads at.Values
  {
    Linked(root, at, CellsOf(at))
  }

  ghost function Model<T>(at: Layout<T>): (m: PathMap<T>)
    reads at.Values
    ensures m.Keys == at.Keys
  {
    Meaning(CellsOf(at))
  }

  lemma LinkedIsClosed<T>(root: Node<T>, at: Layout<T>, cells: Cells<T>)
    requires Linked(root, at, cells)
    ensures Closed(Meaning(cells))
  {
    var m := Meaning(cells);
    forall p: Path, k: string {:trigger p + [k]} | p + [k] in m ensures p in m && m[p].dir {
      assert p + [k] in at;
    }
  }

  ghost function Only<T>(n: Node<T>): Layout<T>
  {
    map[[] := n]
  }

  ghost function OnlyCell<T>(c: Cell<T>): Cells<T>
  {
    map[[] := c]
  }

  ghost function Rerooted<T>(at: Layout<T>, n: Node<T>): (r: Layout<T>)
    ensures r.Keys == at.Keys + {[]}
    ensures forall q :: q in r ==> r[q] == if q == [] then n else at[q]
  {
    at[[] := n]
  }

  ghost predicate Extends<T>(at: Layout<T>, at': Layout<T>)
  {
    forall q :: q in at ==> q in at' && at'[q] == at[q]
  }

  lemma ExtendsStep<T>(at: Layout<T>, b: Layout<T>, c: Layout<T>, p: Path, n: Node<T>)
    requires Extends(at, b) && (c == b || (p !in b && c == b[p := n]))
    ensures Extends(at, c)
  {
  }

  lemma ChildHere<T>(root: Node<T>, at: Layout<T>, cells: Cells<T>, here: Path, name: string)
    requires Linked(root, at, cells) && here in at
    ensures name in cells[here].Kids() <==> here + [name] in at
    ensures here + [name] in at ==> cells[here].Kids()[name] == at[here + [name]]
    ensures forall q :: q in at && q != here ==> at[q] != at[here]
  {
  }

  lemma LastStepIsUnique(p: Path, k: string, q: Path, j: string)
    requires p + [k] == q + [j]
    ensures p == q && k == j
  {
    assert p == (p + [k])[..|p|] && q == (q + [j])[..|q|];
    assert k == (p + [k])[|p|] && j == (q + [j])[|q|];
  }

  /** The cells after an empty directory is linked in as `here/name`. */
  ghost function WithDir<T>(cells: Cells<T>, here: Path, name: string, zero: T, leaf: Node<T>): Cells<T>
    requires here in cells
  {
    cells[here := Cell(cells[here].val, Some(cells[here].Kids()[name := leaf]))]
         [here + [name] := Cell(zero, Some(map[]))]
  }

  lemma AddDir<T>(root: Node<T>, at: Layout<T>, cells: Cells<T>, here: Path, name: string, zero: T, leaf: Node<T>)
    requires Linked(root, at, cells)
    requires here in at && here + [name] !in at && leaf !in at.Values && cells[here].children.Some?
    ensures Linked(root, at[here + [name] := leaf], WithDir(cells, here, name, zero, leaf))
  {
    var step := here + [name];
    var at', cells' := at[step := leaf], WithDir(cells, here, name, zero, leaf);
    assert step != here && step != [];
    forall p: Path, k: string {:trigger p + [k] in at'} | p + [k] in at'
      ensures p in at' && k in cells'[p].Kids() && cells'[p].Kids()[k] == at'[p + [k]]
    {
      if p + [k] == step {
        LastStepIsUnique(p, k, here, name);
      } else {
        assert p + [k] in at;
        assert p == here ==> k != name;
      }
    }
    assert cells'[step].Kids() == map[];
    forall p, k | p in at' && k in cells'[p].Kids() ensures p + [k] in at' {
      if p == here && k == name {
      } else {
        assert k in cells[p].Kids();
      }
    }
  }

  lemma AddDirMeaning<T>(cells: Cells<T>, here: Path, name: string, zero: T, leaf: Node<T>)
    requires here in cells && cells[here].children.Some? && here + [name] !in cells
    ensures Meaning(WithDir(cells, here, name, zero, leaf)) == Meaning(cells)[here + [name] := Entry(true, zero)]
  {
  }

  /** The cells after `child`'s tree is linked in as `up/name`. */
  ghost function WithTree<T>(cells: Cells<T>, up: Path, name: string, child: Node<T>, ccells: Cells<T>): Cells<T>
    requires up in cells
  {
    Graft(cells[up := Cell(cells[up].val, Some(cells[up].Kids()[name := child]))], up + [name], ccells)
  }

  /** No node of `cat` stands in `at` other than at or below `p`. */
  ghost predicate Apart<T>(at: Layout<T>, p: Path, cat: Layout<T>)
  {
    forall q, c :: q in at && !(p <= q) && c in cat ==> at[q] != cat[c]
  }

  /** A tree comes out of setting the root of `cat` at `p`. */
  ghost predicate Fits<T>(root: Node<T>, at: Layout<T>, p: string, child: Node<T>, cat: Layout<T>)
  {
    if p == "." then child == root || root !in cat.Values else Apart(at, Elems(p), cat)
  }

  lemma DisjointFits<T>(root: Node<T>, at: Layout<T>, p: string, child: Node<T>, cat: Layout<T>)
    requires at.Values !! cat.Values && root in at.Values
    ensures Fits(root, at, p, child, cat)
  {
    DisjointIsApart(at, Elems(p), cat);
  }

  /** A node set inside itself, which the program does not refuse, makes a cycle. */
  lemma SelfNeverFits<T>(root: Node<T>, at: Layout<T>, p: string)
    requires IsTree(root, at) && ValidPath(p) && p != "."
    ensures !Fits(root, at, p, root, at)
  {
    hide IsTree, CellsOf, ValidPath;
    AtRoot(root, at, root.Val);
    assert !(Elems(p) <= []);
  }

  lemma DisjointIsApart<T>(at: Layout<T>, p: Path, cat: Layout<T>)
    requires at.Values !! cat.Values
    ensures Apart(at, p, cat)
  {
    assert forall q :: q in at ==> at[q] in at.Values;
    assert forall c :: c in cat ==> cat[c] in cat.Values;
  }

  lemma GraftTree<T>(root: Node<T>, at: Layout<T>, cells: Cells<T>, up: Path, name: string,
                     child: Node<T>, cat: Layout<T>, ccells: Cells<T>)
    requires Linked(root, at, cells) && Linked(child, cat, ccells) && Apart(at, up + [name], cat)
    requires up in at && cells[up].children.Some?
    ensures Linked(root, Graft(at, up + [name], cat), WithTree(cells, up, name, child, ccells))
  {
    GraftReached(at, cells, up, name, child, cat, ccells);
    GraftCovered(at, cells, up, name, child, cat, ccells);
    GraftUnshared(at, up + [name], cat);
    hide Reached, Covered, Unshared;
  }

  lemma GraftReached<T>(at: Layout<T>, cells: Cells<T>, up: Path, name: string,
                        child: Node<T>, cat: Layout<T>, ccells: Cells<T>)
    requires at.Keys == cells.Keys && Reached(at, cells) && up in at
    requires cat.Keys == ccells.Keys && Reached(cat, ccells) && [] in cat && cat[[]] == child
    ensures Reached(Graft(at, up + [name], cat), WithTree(cells, up, name, child, ccells))
  {
    var p := up + [name];
    var at', cells' := Graft(at, p, cat), WithTree(cells, up, name, child, ccells);
    forall q: Path, k: string {:trigger q + [k] in at'} | q + [k] in at'
      ensures q in at' && k in cells'[q].Kids() && cells'[q].Kids()[k] == at'[q + [k]]
    {
      PrefixStep(p, q, k);
      if p <= q {
        assert (q + [k])[|p|..] == q[|p|..] + [k];
        assert q[|p|..] + [k] in cat;
      } else if p == q + [k] {
        LastStepIsUnique(up, name, q, k);
        assert p[|p|..] == [];
      } else {
        assert q + [k] in at;
        if q == up && k == name {
          assert false;
        }
      }
    }
  }

  lemma GraftCovered<T>(at: Layout<T>, cells: Cells<T>, up: Path, name: string,
                        child: Node<T>, cat: Layout<T>, ccells: Cells<T>)
    requires at.Keys == cells.Keys && Covered(at, cells) && up in at
    requires cat.Keys == ccells.Keys && Covered(cat, ccells) && [] in cat
    ensures Covered(Graft(at, up + [name], cat), WithTree(cells, up, name, child, ccells))
  {
    var at', cells' := Graft(at, up + [name], cat), WithTree(cells, up, name, child, ccells);
    hide Covered;
    forall q, k | q in at' && k in cells'[q].Kids() ensures q + [k] in at' {
      GraftCovers(at, cells, up, name, child, cat, ccells, q, k);
    }
    CoveredIs(at', cells');
  }

  /** The children of a node once a tree is linked in. */
  lemma KidsWithTree<T>(cells: Cells<T>, up: Path, name: string, child: Node<T>, ccells: Cells<T>, q: Path)
    requires up in cells && q in WithTree(cells, up, name, child, ccells)
    ensures var p, kids := up + [name], WithTree(cells, up, name, child, ccells)[q].Kids();
            if p <= q then q[|p|..] in ccells && kids == ccells[q[|p|..]].Kids()
            else q in cells && kids == if q == up then cells[up].Kids()[name := child] else cells[q].Kids()
  {
  }

  lemma CoveredAt<T>(at: Layout<T>, cells: Cells<T>, q: Path, k: string)
    requires at.Keys == cells.Keys && Covered(at, cells) && q in at && k in cells[q].Kids()
    ensures q + [k] in at
  {
  }

  lemma CoveredIs<T>(at: Layout<T>, cells: Cells<T>)
    requires at.Keys == cells.Keys && forall q, k :: q in at && k in cells[q].Kids() ==> q + [k] in at
    ensures Covered(at, cells)
  {
  }

  lemma GraftCovers<T>(at: Layout<T>, cells: Cells<T>, up: Path, name: string,
                       child: Node<T>, cat: Layout<T>, ccells: Cells<T>, q: Path, k: string)
    requires at.Keys == cells.Keys && Covered(at, cells) && up in at
    requires cat.Keys == ccells.Keys && Covered(cat, ccells) && [] in cat
    requires q in Graft(at, up + [name], cat) && q in WithTree(cells, up, name, child, ccells)
    requires k in WithTree(cells, up, name, child, ccells)[q].Kids()
    ensures q + [k] in Graft(at, up + [name], cat)
  {
    hide WithTree, Covered, Graft;
    var p := up + [name];
    PrefixStep(p, q, k);
    KidsWithTree(cells, up, name, child, ccells, q);
    if p <= q {
      assert (q + [k])[|p|..] == q[|p|..] + [k];
      CoveredAt(cat, ccells, q[|p|..], k);
    } else if p == q + [k] {
      assert p[|p|..] == [];
    } else {
      CoveredAt(at, cells, q, k);
    }
  }

  lemma GraftUnshared<T>(at: Layout<T>, p: Path, cat: Layout<T>)
    requires Unshared(at) && Unshared(cat) && Apart(at, p, cat)
    ensures Unshared(Graft(at, p, cat))
  {
    var at' := Graft(at, p, cat);
    forall q, r | q in at' && r in at' && at'[q] == at'[r] ensures q == r {
      if p <= q && p <= r {
        assert q == p + q[|p|..] && r == p + r[|p|..];
      }
    }
  }

  lemma GraftMeaning<T>(cells: Cells<T>, up: Path, name: string, child: Node<T>, ccells: Cells<T>)
    requires up in cells && cells[up].children.Some?
    ensures Meaning(WithTree(cells, up, name, child, ccells)) == Graft(Meaning(cells), up + [name], Meaning(ccells))
  {
    var l := Meaning(WithTree(cells, up, name, child, ccells));
    var r := Graft(Meaning(cells), up + [name], Meaning(ccells));
    forall q ensures q in l <==> q in r {
    }
    forall q | q in l ensures l[q] == r[q] {
    }
  }

  /** The cells after `up/name` is taken out of its parent. */
  ghost function CutCells<T>(cells: Cells<T>, up: Path, name: string): Cells<T>
    requires up in cells
  {
    Without(cells[up := Cell(cells[up].val, Some(cells[up].Kids() - {name}))], up + [name])
  }

  lemma CutTree<T>(root: Node<T>, at: Layout<T>, cells: Cells<T>, up: Path, name: string)
    requires Linked(root, at, cells) && up + [name] in at
    ensures Linked(root, Without(at, up + [name]), CutCells(cells, up, name))
  {
    CutReached(at, cells, up, name);
    CutCovered(at, cells, up, name);
    assert Unshared(Without(at, up + [name]));
    hide Reached, Covered, Unshared;
  }

  lemma CutReached<T>(at: Layout<T>, cells: Cells<T>, up: Path, name: string)
    requires at.Keys == cells.Keys && Reached(at, cells) && up in at
    ensures Reached(Without(at, up + [name]), CutCells(cells, up, name))
  {
    var p := up + [name];
    var at', cells' := Without(at, p), CutCells(cells, up, name);
    forall q: Path, k: string {:trigger q + [k] in at'} | q + [k] in at'
      ensures q in at' && k in cells'[q].Kids() && cells'[q].Kids()[k] == at'[q + [k]]
    {
      PrefixStep(p, q, k);
      assert q + [k] in at;
    }
  }

  lemma CutCovered<T>(at: Layout<T>, cells: Cells<T>, up: Path, name: string)
    requires at.Keys == cells.Keys && Covered(at, cells) && up in at
    ensures Covered(Without(at, up + [name]), CutCells(cells, up, name))
  {
    var p := up + [name];
    var at', cells' := Without(at, p), CutCells(cells, up, name);
    forall q, k | q in at' && k in cells'[q].Kids() ensures q + [k] in at' {
      PrefixStep(p, q, k);
      if p == q + [k] {
        LastStepIsUnique(up, name, q, k);
      }
      assert k in cells[q].Kids();
    }
  }

  lemma CutMeaning<T>(cells: Cells<T>, up: Path, name: string)
    requires up in cells && cells[up].children.Some?
    ensures Meaning(CutCells(cells, up, name)) == Without(Meaning(cells), up + [name])
  {
  }

  lemma SubTree<T>(root: Node<T>, at: Layout<T>, cells: Cells<T>, p: Path)
    requires Linked(root, at, cells) && p in at
    ensures Linked(at[p], Sub(at, p), Sub(cells, p))
    ensures Meaning(Sub(cells, p)) == Sub(Meaning(cells), p)
    ensures Sub(at, p).Values !! Without(at, p).Values
  {
    if p != [] {
      assert p + [] == p;
      SubReached(at, cells, p);
      SubUnshared(at, p);
    }
    hide Reached, Covered, Unshared;
  }

  lemma SubReached<T>(at: Layout<T>, cells: Cells<T>, p: Path)
    requires at.Keys == cells.Keys && Reached(at, cells) && Covered(at, cells) && p in at && p != []
    ensures Reached(Sub(at, p), Sub(cells, p)) && Covered(Sub(at, p), Sub(cells, p))
  {
    var sub, cs := Sub(at, p), Sub(cells, p);
    forall q: Path, k: string {:trigger q + [k] in sub} | q + [k] in sub
      ensures q in sub && k in cs[q].Kids() && cs[q].Kids()[k] == sub[q + [k]]
    {
      assert p + (q + [k]) == (p + q) + [k];
      assert (p + q) + [k] in at;
    }
    forall q, k | q in sub && k in cs[q].Kids() ensures q + [k] in sub {
      assert p + (q + [k]) == (p + q) + [k];
      assert k in cells[p + q].Kids();
    }
  }

  lemma SubUnshared<T>(at: Layout<T>, p: Path)
    requires Unshared(at) && p in at && p != []
    ensures Unshared(Sub(at, p)) && Sub(at, p).Values !! Without(at, p).Values
  {
    var sub := Sub(at, p);
    forall q, r | q in sub && r in sub && sub[q] == sub[r] ensures q == r {
      assert (p + q)[|p|..] == q && (p + r)[|p|..] == r;
    }
    forall n | n in sub.Values ensures n !in Without(at, p).Values {
      var q :| q in sub && sub[q] == n;
      assert p <= p + q;
    }
  }

  /** `n` is one of the nodes strictly below `p`. */
  ghost predicate StandsBelow<T>(n: Node<T>, at: Layout<T>, p: Path)
  {
    exists q :: q in at && p < q && at[q] == n
  }

  /** What is left of `m` when `p` is taken out. */
  ghost function Removed<T>(m: PathMap<T>, p: Path, zero: T): PathMap<T>
    requires [] in m
  {
    if p == [] then map[[] := Entry(m[[]].dir, zero)] else Without(m, p)
  }

  /** The tree with what stands at `from` moved to `to`. */
  ghost function Renamed<T>(m: PathMap<T>, from: Path, to: Path, zero: T): PathMap<T>
    requires [] in m
  {
    if to == [] then Sub(m, from) else Put(Removed(m, from, zero), to, Sub(m, from), zero)
  }

  /** How `Rename(from, to)` must end: it fails on `from`, or as setting `to`
      in what is left would. */
  ghost function RenameFate<T>(m: PathMap<T>, from: string, to: string, zero: T): Outcome
    requires [] in m
  {
    if !ValidPath(from) then Failed(InvalidPath)
    else if Elems(from) !in m then Failed(NotFound)
    else SetFate(Removed(m, Elems(from), zero), to, false)
  }

  /** A node just taken out can always be put back, and that restores the tree. */
  lemma BackInPlace<T>(m: PathMap<T>, from: string, zero: T)
    requires Closed(m) && ValidPath(from) && Elems(from) in m
    ensures SetFate(Removed(m, Elems(from), zero), from, false) == Done
    ensures from == "." ==> Sub(m, Elems(from)) == m
    ensures from != "." ==> Put(Removed(m, Elems(from), zero), Elems(from), Sub(m, Elems(from)), zero) == m
  {
    var p := Elems(from);
    if from != "." {
      DirAndBase(from);
      assert p[..|p| - 1] == Elems(DirName(from));
      ParentRemains(m, p);
      PutUndoesRemove(m, p, zero);
    }
  }

  /** Renaming dies in a nil map exactly when a file that is left, other than the
      root, is to be the new parent. */
  lemma RenamePanics<T>(m: PathMap<T>, from: string, to: string, zero: T)
    requires Closed(m)
    ensures RenameFate(m, from, to, zero) == Panicked <==>
            && ValidPath(from) && Elems(from) in m && ValidPath(to) && to != "."
            && var up, left := Elems(DirName(to)), Removed(m, Elems(from), zero);
               up != [] && up in left && !left[up].dir
  {
    hide Elems, DirName, ValidPath;
    if Elems(from) in m && Elems(from) != [] {
      ParentRemains(m, Elems(from));
      if to != "." && Elems(DirName(to)) in Removed(m, Elems(from), zero) {
        ClearWhenClosed(Removed(m, Elems(from), zero), Elems(DirName(to)));
      }
    }
  }

  /** A directory with the files f and g. */
  ghost function TwoFiles<T>(val: T, zero: T): PathMap<T>
  {
    map[[] := Entry(true, zero), ["f"] := Entry(false, val), ["g"] := Entry(false, val)]
  }

  lemma ShortPaths()
    ensures ValidPath("f") && Elems("f") == ["f"] && ValidPath("g") && Elems("g") == ["g"]
    ensures ValidPath("f/x") && Elems("f/x") == ["f", "x"] && DirName("f/x") == "f"
    ensures DirName("f") == DirName("g") == "."
  {
    ElemsOfText(["f"]);
    ElemsOfText(["g"]);
    assert Text(["f", "x"]) == "f/x";
    ElemsOfText(["f", "x"]);
  }

  /** Moving one file to a place inside the other dies. */
  lemma RenameCanPanic<T>(val: T, zero: T)
    ensures Closed(TwoFiles(val, zero)) && RenameFate(TwoFiles(val, zero), "g", "f/x", zero) == Panicked
  {
    hide Elems, DirName, ValidPath;
    ShortPaths();
    RenamePanics(TwoFiles(val, zero), "g", "f/x", zero);
    assert ["f"][0] != ["g"][0];
    assert ["f"] in Removed(TwoFiles(val, zero), ["g"], zero);
  }

  lemma Strangers<T>(child: Node<T>, root: Node<T>, at: Layout<T>, cat: Layout<T>)
    requires IsTree(root, at) && IsTree(child, cat) && at.Values !! cat.Values
    ensures !StandsBelow(child, at, []) && !StandsBelow(root, cat, [])
  {
    assert at[[]] in at.Values && cat[[]] in cat.Values;
    assert forall q :: q in at ==> at[q] in at.Values;
    assert forall q :: q in cat ==> cat[q] in cat.Values;
  }

  /** How `Set(p, child)` must end on a tree that means `m`. */
  ghost function SetFate<T>(m: PathMap<T>, p: string, related: bool): Outcome
  {
    if !ValidPath(p) then Failed(InvalidPath)
    else if p == "." then Done
    else if related then Failed(Relation)
    else
      var up := Elems(DirName(p));
      if Blocked(m, up) then Failed(NotDir)
      else if up in m && !m[up].dir then Panicked
      else Done
  }

  /** One case after another: an invalid path; the root path, which is never refused;
      related nodes; a file on the way to the parent; a file in its place. */
  lemma SetFateMeaning<T>(m: PathMap<T>, p: string, related: bool)
    ensures SetFate(m, p, related) == Failed(InvalidPath) <==> !ValidPath(p)
    ensures p == "." ==> SetFate(m, p, related) == Done
    ensures SetFate(m, p, related) == Failed(Relation) <==> ValidPath(p) && p != "." && related
    ensures ValidPath(p) && p != "." && !related ==>
              var up := Elems(DirName(p));
              && (SetFate(m, p, related) == Failed(NotDir) <==> Blocked(m, up))
              && (SetFate(m, p, related) == Panicked <==> !Blocked(m, up) && up in m && !m[up].dir)
              && (SetFate(m, p, related) == Done <==> !Blocked(m, up) && (up in m ==> m[up].dir))
  {
    hide Blocked, Elems, DirName;
  }

  /** What is left without the source decides: an invalid path, a source that is not
      there, a file on the way to the target's parent, a file in its place. */
  lemma RenameFateMeaning<T>(m: PathMap<T>, from: string, to: string, zero: T)
    requires [] in m
    ensures var r := RenameFate(m, from, to, zero);
            && (r == Failed(InvalidPath) <==> !ValidPath(from) || (Elems(from) in m && !ValidPath(to)))
            && (r == Failed(NotFound) <==> ValidPath(from) && Elems(from) !in m)
            && (ValidPath(from) && Elems(from) in m && to == "." ==> r == Done)
    ensures var r := RenameFate(m, from, to, zero);
            ValidPath(from) && Elems(from) in m && ValidPath(to) && to != "." ==>
              var left := if from == "." then map[[] := Entry(m[[]].dir, zero)] else Without(m, Elems(from));
              var up := Elems(DirName(to));
              r == if Blocked(left, up) then Failed(NotDir) else if up in left && !left[up].dir then Panicked else Done
  {
    hide Blocked, DirName, Clear;
    RemovedIs(m, from, zero);
    SetFateMeaning(Removed(m, Elems(from), zero), to, false);
  }

  lemma RemovedIs<T>(m: PathMap<T>, from: string, zero: T)
    requires [] in m
    ensures Removed(m, Elems(from), zero) ==
            if from == "." then map[[] := Entry(m[[]].dir, zero)] else Without(m, Elems(from))
  {
  }

  lemma RenamedIs<T>(m: PathMap<T>, from: string, to: string, zero: T)
    requires [] in m
    ensures Renamed(m, Elems(from), Elems(to), zero) ==
            if to == "." then Sub(m, Elems(from))
            else Put(if from == "." then map[[] := Entry(m[[]].dir, zero)] else Without(m, Elems(from)),
                     Elems(to), Sub(m, Elems(from)), zero)
  {
    hide Put, Sub, Without;
  }

  lemma StandsBelowRoot<T>(n: Node<T>, at: Layout<T>)
    ensures StandsBelow(n, at, []) <==> exists q :: q in at && q != [] && at[q] == n
  {
  }

  class Node<T> {
    var Val: T
    var children: Option<map<string, Node<T>>>

    /** `zero` is Go's zero value of `T`. */
    constructor NewDir(zero: T)
      ensures Val == zero && children == Some(map[])
    {
      Val := zero;
      children := Some(map[]);
    }

    constructor NewFile(val: T)
      ensures Val == val && children == None
    {
      Val := val;
      children := None;
    }

    predicate IsDir()
      reads this
    {
      children.Some?
    }

    /** Reading an absent children map finds nothing, as with a nil map. */
    function Kids(): map<string, Node<T>>
      reads this
    {
      if children.Some? then children.value else map[]
    }

    method DirEntries() returns (entries: seq<DirEntry>)
      ensures EntryNames(entries) == Sorted(Kids().Keys)
      ensures forall i :: 0 <= i < |entries| ==>
                entries[i].name in Kids() && entries[i].isDir == Kids()[entries[i].name].IsDir()
    {
      entries := [];
      var left := Kids().Keys;
      while left != {}
        invariant left <= Kids().Keys
        invariant IsSorted(EntryNames(entries))
        invariant forall k :: k in EntryNames(entries) <==> k in Kids().Keys - left
        invariant forall e :: e in entries ==> e.name in Kids() && e.isDir == Kids()[e.name].IsDir()
        decreases left
      {
        var name :| name in left;
        entries := InsertEntry(entries, DirEntry(name, Kids()[name].IsDir()));
        left := left - {name};
      }
      SortedIsTheOnlyOne(EntryNames(entries), Kids().Keys);
    }

    method Get(p: string, ghost at: Layout<T>) returns (r: Result<Node<T>>)
      requires IsTree(this, at)
      ensures r == if !ValidPath(p) then Err(InvalidPath)
                   else if Elems(p) in at then Ok(at[Elems(p)])
                   else Err(NotFound)
      ensures r == Err(InvalidPath) <==>
              p != "." && (HasElement(p, "") || HasElement(p, ".") || HasElement(p, ".."))
    {
      hide HasElement;
      ValidPathMeaning(p);
      if !ValidPath(p) {
        return Err(InvalidPath);
      }
      if p == "." {
        return Ok(this);
      }
      var node, rest := this, p;
      ghost var done: Path := [];
      while true
        invariant done in at && at[done] == node
        invariant done + Split(rest) == Elems(p)
        decreases |rest|
      {
        var (first, tail, more) := Cut(rest);
        CutStep(done, rest, Elems(p));
        if first !in node.Kids() {
          if Elems(p) in at {
            PrefixInTree(this, at, Elems(p), done + [first]);
          }
          return Err(NotFound);
        }
        node := node.Kids()[first];
        done := done + [first];
        rest := tail;
        if !more {
          break;
        }
      }
      return Ok(node);
    }

    /** The child called `name`, made as an empty directory when it is missing. */
    method EnterOrMake(name: string, zero: T, ghost root: Node<T>, ghost at: Layout<T>, ghost here: Path)
      returns (next: Node<T>, ghost at': Layout<T>)
      requires IsTree(root, at) && here in at && at[here] == this && children.Some?
      modifies this
      ensures IsTree(root, at') && here + [name] in at' && at'[here + [name]] == next
      ensures here + [name] in at ==> at' == at && CellsOf(at') == old(CellsOf(at)) && Model(at') == old(Model(at))
      ensures here + [name] !in at ==> fresh(next) && at' == at[here + [name] := next]
      ensures here + [name] !in at ==> Model(at') == old(Model(at))[here + [name] := Entry(true, zero)]
    {
      hide Linked, Meaning;
      at' := at;
      ghost var cells := CellsOf(at);
      ChildHere(root, at, cells, here, name);
      if name in children.value {
        next := children.value[name];
      } else {
        next := new Node.NewDir(zero);
        AddDir(root, at, cells, here, name, zero, next);
        AddDirMeaning(cells, here, name, zero, next);
        Relink(children.value[name := next], at, here);
        at' := at[here + [name] := next];
        CellsOfNew(at, here + [name], next);
      }
    }

    /** Makes `p` and its missing parents. It fails, before changing anything,
        exactly when a file stands on the way; a file standing at `p` itself is
        returned as it is. */
    method MkdirAll(p: string, zero: T, ghost at: Layout<T>) returns (r: Result<Node<T>>, ghost at': Layout<T>)
      requires IsTree(this, at)
      modifies at.Values
      ensures IsTree(this, at') && Extends(at, at')
      ensures forall q :: q in at' && q !in at ==> fresh(at'[q])
      ensures r.Ok? <==> ValidPath(p) && !Blocked(old(Model(at)), Elems(p))
      ensures r.Ok? ==> Elems(p) in at' && at'[Elems(p)] == r.value
      ensures r.Ok? ==> Model(at') == Mkdirs(old(Model(at)), Elems(p), zero)
      ensures r.Err? ==> r.error == if ValidPath(p) then NotDir else InvalidPath
      ensures r.Err? || Elems(p) in at ==> at' == at && Model(at) == old(Model(at))
    {
      hide *;
      AtRoot(this, at, zero);
      if !ValidPath(p) {
        return Err(InvalidPath), at;
      }
      if p == "." && children.Some? {
        NotBlocked(Model(at), []);
        return Ok(this), at;
      }
      r, at' := MakeWay(p, zero, at);
    }

    /** Its loop, which enters or makes one directory after another. */
    method MakeWay(p: string, zero: T, ghost at: Layout<T>) returns (r: Result<Node<T>>, ghost at': Layout<T>)
      requires IsTree(this, at) && ValidPath(p) && (p == "." ==> children.None?)
      modifies at.Values
      ensures IsTree(this, at') && Extends(at, at')
      ensures forall q :: q in at' && q !in at ==> fresh(at'[q])
      ensures r.Ok? <==> !Blocked(old(Model(at)), Elems(p))
      ensures r.Ok? ==> Elems(p) in at' && at'[Elems(p)] == r.value
      ensures r.Ok? ==> Model(at') == Mkdirs(old(Model(at)), Elems(p), zero)
      ensures r.Err? ==> r.error == NotDir
      ensures r.Err? || Elems(p) in at ==> at' == at && Model(at) == old(Model(at))
    {
      hide *;
      at' := at;
      ghost var m := Model(at);
      AtRoot(this, at, zero);
      var node, rest, more := this, p, true;
      ghost var done: Path := [];
      while more
        invariant IsTree(this, at') && Extends(at, at')
        invariant forall q :: q in at' && q !in at ==> fresh(at'[q])
        invariant done in at' && at'[done] == node
        invariant if more then done + Split(rest) == Split(p) else done == Elems(p)
        invariant p == "." ==> more && done == [] && node.children.None?
        invariant Model(at') == Mkdirs(m, done, zero) && Clear(m, done)
        invariant done in m ==> at' == at && Model(at') == m
        decreases more, |rest|
      {
        EntryAt(at', done);
        if node.children.None? {
          assert done < Split(p) by {
            CutStep(done, rest, Split(p));
          }
          FileOnTheWay(m, Elems(p), done);
          return Err(NotDir), at;
        }
        var (first, tail, another) := Cut(rest);
        CutStep(done, rest, Split(p));
        ghost var step := done + [first];
        MkdirsStep(m, done, first, zero);
        ClearStep(m, done, first);
        ghost var before := at';
        var next: Node<T>;
        next, at' := node.EnterOrMake(first, zero, this, at', done);
        ExtendsStep(at, before, at', step, next);
        node, rest, more, done := next, tail, another, step;
      }
      NotBlocked(m, done);
      return Ok(node), at';
    }

    method IsParentOf(child: Node<T>, ghost root: Node<T>, ghost at: Layout<T>, ghost here: Path) returns (b: bool)
      requires IsTree(root, at) && here in at && at[here] == this
      ensures b <==> StandsBelow(child, at, here)
      ensures b <==> exists q :: q in at && here < q && at[q] == child
      decreases set q | q in at && here <= q
    {
      ghost var cells := CellsOf(at);
      var left := Kids().Keys;
      while left != {}
        invariant left <= Kids().Keys
        invariant forall k :: k in Kids().Keys - left ==> !StandsUnder(child, at, here + [k])
        decreases left
      {
        var name :| name in left;
        var ch := Kids()[name];
        ChildHere(root, at, cells, here, name);
        if ch == child {
          assert here < here + [name];
          return true;
        }
        SmallerBelow(at, here, name);
        var deeper := ch.IsParentOf(child, root, at, here + [name]);
        BelowOrAt(child, at, here, name);
        if deeper {
          return true;
        }
        left := left - {name};
      }
      NoneBelow(child, root, at, here);
      return false;
    }

    /** Puts `child`, the root of the tree `cat`, at `p`. A tree related to this
        one is refused, except at ".". When it is done, a tree has come out exactly
        if no node of `cat` stands in this tree outside of what is replaced. */
    method Set(p: string, child: Node<T>, zero: T, ghost at: Layout<T>, ghost cat: Layout<T>)
      returns (r: Outcome, ghost at': Layout<T>)
      requires IsTree(this, at) && IsTree(child, cat)
      modifies at.Values
      ensures r == SetFate(old(Model(at)), p, StandsBelow(child, at, []) || StandsBelow(this, cat, []))
      ensures r == Failed(InvalidPath) <==> !ValidPath(p)
      ensures p == "." ==> r == Done
      ensures ValidPath(p) && p != "." ==>
                (r == Failed(Relation) <==>
                 || (exists q :: q in at && q != [] && at[q] == child)
                 || (exists c :: c in cat && c != [] && cat[c] == this))
      ensures ValidPath(p) && p != "." && r != Failed(Relation) ==>
                var m, up := old(Model(at)), Elems(DirName(p));
                r == if Blocked(m, up) then Failed(NotDir) else if up in m && !m[up].dir then Panicked else Done
      ensures r.Done? && Fits(this, at, p, child, cat) ==>
                && IsTree(this, at')
                && Model(at') == (if p == "." then old(Model(cat))
                                  else Put(old(Model(at)), Elems(p), old(Model(cat)), zero))
      ensures r.Done? && !Fits(this, at, p, child, cat) ==> forall at2: Layout<T> :: !IsTree(this, at2)
      ensures !r.Done? ==> IsTree(this, at') && at' == at && Model(at) == old(Model(at))
      ensures forall q :: q in at' ==> (q in at && at'[q] == at[q]) || at'[q] in cat.Values || fresh(at'[q])
    {
      hide IsTree, CellsOf, Model, Put, StandsBelow, Blocked, Elems, DirName, ValidPath, Apart;
      at' := at;
      SetFateMeaning(Model(at), p, StandsBelow(child, at, []) || StandsBelow(this, cat, []));
      StandsBelowRoot(child, at);
      StandsBelowRoot(this, cat);
      AtRoot(this, at, zero);
      AtRoot(child, cat, zero);
      if !ValidPath(p) {
        return Failed(InvalidPath), at;
      }
      if p == "." {
        Become(child, at, cat);
        at' := if child == this then cat else if this !in cat.Values then Rerooted(cat, this) else at;
        return Done, at';
      }
      var below := IsParentOf(child, this, at, []);
      var above := child.IsParentOf(this, child, cat, []);
      if below || above {
        return Failed(Relation), at;
      }
      r, at' := SetUnrelated(p, child, zero, at, cat);
    }

    method SetFile(p: string, val: T, zero: T, ghost at: Layout<T>) returns (r: Outcome, ghost at': Layout<T>)
      requires IsTree(this, at)
      modifies at.Values
      ensures IsTree(this, at')
      ensures r == SetFate(old(Model(at)), p, false)
      ensures r.Done? ==> Model(at') == (if p == "." then FileModel(val)
                                         else Put(old(Model(at)), Elems(p), FileModel(val), zero))
      ensures !r.Done? ==> at' == at && Model(at) == old(Model(at))
      ensures forall q :: q in at' ==> (q in at && at'[q] == at[q]) || fresh(at'[q])
    {
      hide IsTree, CellsOf, Model, SetFate, Put, StandsBelow, FileModel;
      var file := new Node.NewFile(val);
      FileAlone(file);
      Strangers(file, this, at, Only(file));
      r, at' := Set(p, file, zero, at, Only(file));
    }

    /** The part of `Set` after the checks. A tree comes out exactly if no node of
        `cat` stands in this tree outside of what is replaced. */
    method SetUnrelated(p: string, child: Node<T>, zero: T, ghost at: Layout<T>, ghost cat: Layout<T>)
      returns (r: Outcome, ghost at': Layout<T>)
      requires IsTree(this, at) && IsTree(child, cat) && ValidPath(p) && p != "."
      modifies at.Values
      ensures r == SetFate(old(Model(at)), p, false)
      ensures r.Done? && Apart(at, Elems(p), cat) ==>
                IsTree(this, at') && Model(at') == Put(old(Model(at)), Elems(p), old(Model(cat)), zero)
      ensures r.Done? && !Apart(at, Elems(p), cat) ==> forall at2: Layout<T> :: !IsTree(this, at2)
      ensures !r.Done? ==> IsTree(this, at') && at' == at && Model(at) == old(Model(at))
      ensures forall q :: q in at' ==> (q in at && at'[q] == at[q]) || at'[q] in cat.Values || fresh(at'[q])
    {
      hide *;
      DirAndBase(p);
      var dirName, baseName := DirName(p), BaseName(p);
      ghost var up := Elems(dirName);
      var parent;
      parent, at' := MakeParent(dirName, baseName, zero, child, at, cat);
      SetFateIs(old(Model(at)), p);
      if parent.Err? {
        return Failed(parent.error), at';
      }
      ghost var at1 := at';
      EntryAt(at', up);
      if parent.value.children.None? {
        return Panicked, at';
      }
      PutAt(old(Model(at)), up, baseName, old(Model(cat)), zero);
      at' := parent.value.Attach(baseName, child, this, at', up, cat);
      GraftValues(at, at1, up + [baseName], cat);
      return Done, at';
    }

    /** Makes the parent of what is to be set, and what that leaves of the tree to be set there. */
    method MakeParent(dirName: string, name: string, zero: T, child: Node<T>, ghost at: Layout<T>, ghost cat: Layout<T>)
      returns (r: Result<Node<T>>, ghost at': Layout<T>)
      requires IsTree(this, at) && IsTree(child, cat) && ValidPath(dirName)
      modifies at.Values
      ensures IsTree(this, at') && Extends(at, at') && forall q :: q in at' && q !in at ==> fresh(at'[q])
      ensures if Blocked(old(Model(at)), Elems(dirName)) then r == Err(NotDir)
              else Elems(dirName) in at' && r == Ok(at'[Elems(dirName)])
      ensures r.Err? || Elems(dirName) in at ==> at' == at && Model(at) == old(Model(at))
      ensures r.Ok? ==> Model(at') == Mkdirs(old(Model(at)), Elems(dirName), zero)
      ensures r.Ok? ==> Edges(child, cat)
      ensures r.Ok? ==> (Apart(at', Elems(dirName) + [name], cat) <==> Apart(at, Elems(dirName) + [name], cat))
      ensures r.Ok? && Apart(at, Elems(dirName) + [name], cat) ==> IsTree(child, cat) && Model(cat) == old(Model(cat))
    {
      hide *;
      ghost var cells, ccells, up := CellsOf(at), CellsOf(cat), Elems(dirName);
      CellsAgree(at, cat);
      CellsLinked(this, at);
      CellsLinked(child, cat);
      CellsAre(cat, ccells);
      r, at' := MkdirAll(dirName, zero, at);
      if r.Ok? {
        ghost var cells1, ccells1 := CellsOf(at'), CellsOf(cat);
        CellsAgree(at', cat);
        CellsLinked(this, at');
        CellsLinked(child, cat);
        CellsAre(cat, ccells1);
        EdgesKept(this, at, cells, at', cells1, child, cat, ccells, ccells1);
        ApartStill(at, at', up + [name], cat);
        EdgesAre(child, cat, ccells);
        if Apart(at, up + [name], cat) {
          NothingLost(this, at, cells, at', cells1, up, name, child, cat, ccells, ccells1);
        }
      }
    }

    /** Takes the node at `p`, with everything below it, out of the tree. Taking
        out the root leaves an empty node of the same kind behind. */
    method Remove(p: string, zero: T, ghost at: Layout<T>)
      returns (r: Result<Node<T>>, ghost at': Layout<T>, ghost sub: Layout<T>)
      requires IsTree(this, at)
      modifies at.Values
      ensures IsTree(this, at')
      ensures r.Ok? <==> ValidPath(p) && Elems(p) in at
      ensures r.Err? ==> r.error == if ValidPath(p) then NotFound else InvalidPath
      ensures r.Err? ==> at' == at && Model(at) == old(Model(at))
      ensures r.Ok? ==> IsTree(r.value, sub) && at'.Values !! sub.Values
      ensures r.Ok? ==> Model(sub) == Sub(old(Model(at)), Elems(p))
      ensures r.Ok? ==> Model(at') == Removed(old(Model(at)), Elems(p), zero)
      ensures forall q :: q in at' ==> q in at && at'[q] == at[q]
    {
      hide IsTree, CellsOf, Model, Elems, DirName, BaseName, ValidPath;
      at', sub := at, at;
      if !ValidPath(p) {
        return Err(InvalidPath), at, at;
      }
      AtRoot(this, at, zero);
      if p == "." {
        var cp;
        cp, at', sub := CopyAndClear(zero, at);
        return Ok(cp), at', sub;
      }
      DirAndBase(p);
      var dirName, baseName := DirName(p), BaseName(p);
      ghost var up := Elems(dirName);
      if Elems(p) in at {
        PrefixInTree(this, at, Elems(p), up);
      }
      var parent := Get(dirName, at);
      if parent.Err? {
        return Err(NotFound), at, at;
      }
      KidAt(this, at, up, baseName);
      if baseName !in parent.value.Kids() {
        return Err(NotFound), at, at;
      }
      var ch := parent.value.Kids()[baseName];
      at', sub := parent.value.Detach(baseName, this, at, up);
      return Ok(ch), at', sub;
    }

    /** Moves the fields of the root to a new node and leaves it empty. */
    method CopyAndClear(zero: T, ghost at: Layout<T>) returns (cp: Node<T>, ghost at': Layout<T>, ghost sub: Layout<T>)
      requires IsTree(this, at)
      modifies this
      ensures at' == Only(this) && fresh(cp) && sub == Rerooted(at, cp)
      ensures IsTree(this, at') && IsTree(cp, sub) && at'.Values !! sub.Values
      ensures Model(sub) == old(Model(at))
      ensures Model(at') == Removed(old(Model(at)), [], zero)
    {
      hide Linked, Meaning, Sub, Removed;
      ghost var cells := CellsOf(at);
      AtRoot(this, at, zero);
      cp := new Node.NewFile(Val);
      cp.children := children;
      OtherRoot(this, at, cells, cp);
      at', sub := Only(this), Rerooted(at, cp);
      CopyCells(this, at, cp);
      Empty(zero, sub);
      Alone(this, Cell(Val, children));
      RemovedRoot(Meaning(cells), zero);
    }

    /** Empties this node, which stands nowhere in `sub`. */
    method Empty(zero: T, ghost sub: Layout<T>)
      requires this !in sub.Values
      modifies this
      ensures Val == zero && children == old(if children.Some? then Some(map[]) else None)
      ensures CellsOf(sub) == old(CellsOf(sub))
      ensures CellsOf(Only(this)) == OnlyCell(Cell(Val, children))
    {
      assert forall q :: q in sub ==> sub[q] in sub.Values;
      Val := zero;
      children := if children.Some? then Some(map[]) else None;
    }

    /** Unlinks the child called `name`. */
    method Detach(name: string, ghost root: Node<T>, ghost at: Layout<T>, ghost up: Path)
      returns (ghost at': Layout<T>, ghost sub: Layout<T>)
      requires IsTree(root, at) && up in at && at[up] == this && up + [name] in at && children.Some?
      modifies this
      ensures at' == Without(at, up + [name]) && sub == Sub(at, up + [name])
      ensures IsTree(root, at') && IsTree(at[up + [name]], sub) && at'.Values !! sub.Values
      ensures Model(sub) == Sub(old(Model(at)), up + [name])
      ensures Model(at') == Without(old(Model(at)), up + [name])
    {
      hide Linked, Meaning;
      ghost var cells, p := CellsOf(at), up + [name];
      ChildHere(root, at, cells, up, name);
      CutTree(root, at, cells, up, name);
      CutMeaning(cells, up, name);
      SubTree(root, at, cells, p);
      at', sub := Without(at, p), Sub(at, p);
      CellsOfPart(at, p);
      NotBelowItself(at, up, name);
      Relink(children.value - {name}, at, up);
      CellsOfPart(at, p);
    }

    /** Moves what stands at `from` to `to`. */
    method Rename(from: string, to: string, zero: T, ghost at: Layout<T>) returns (r: Outcome, ghost at': Layout<T>)
      requires IsTree(this, at)
      modifies at.Values
      ensures IsTree(this, at')
      ensures r == RenameFate(old(Model(at)), from, to, zero)
      ensures r == Failed(InvalidPath) <==> !ValidPath(from) || (Elems(from) in at && !ValidPath(to))
      ensures r == Failed(NotFound) <==> ValidPath(from) && Elems(from) !in at
      ensures r.Done? ==> Model(at') == Renamed(old(Model(at)), Elems(from), Elems(to), zero)
      ensures r.Done? ==>
                var m := old(Model(at));
                Model(at') == if to == "." then Sub(m, Elems(from))
                              else
                                var left := if from == "." then map[[] := Entry(m[[]].dir, zero)]
                                            else Without(m, Elems(from));
                                Put(left, Elems(to), Sub(m, Elems(from)), zero)
      ensures r.Failed? ==> Model(at') == old(Model(at))
      ensures r.Panicked? ==> Model(at') == Removed(old(Model(at)), Elems(from), zero)
    {
      hide IsTree, CellsOf, Model, Put, StandsBelow, Blocked, Elems, DirName, ValidPath, SetFate, Removed, Fits;
      ghost var m := Model(at);
      AtRoot(this, at, zero);
      RenameFateMeaning(m, from, to, zero);
      RenamedIs(m, from, to, zero);
      var removed;
      ghost var sub;
      removed, at', sub := Remove(from, zero, at);
      if removed.Err? {
        return Failed(removed.error), at';
      }
      var ch := removed.value;
      Strangers(ch, this, at', sub);
      AtRoot(this, at', zero);
      DisjointFits(this, at', to, ch, sub);
      DisjointFits(this, at', from, ch, sub);
      ghost var at1 := at';
      r, at' := Set(to, ch, zero, at1, sub);
      if r.Failed? {
        var again;
        again, at' := Set(from, ch, zero, at1, sub);
        BackInPlace(m, from, zero);
        assert again.Done?;
      }
    }

    /** Takes over the fields of `child`, the root of the tree `cat`. */
    method Become(child: Node<T>, ghost at: Layout<T>, ghost cat: Layout<T>)
      requires IsTree(this, at) && IsTree(child, cat)
      modifies this
      ensures this !in cat.Values ==> IsTree(this, Rerooted(cat, this)) && Model(Rerooted(cat, this)) == old(Model(cat))
      ensures child == this ==> IsTree(this, cat) && Model(cat) == old(Model(cat))
      ensures this in cat.Values && child != this ==> forall at2: Layout<T> :: !IsTree(this, at2)
    {
      ghost var cells := CellsOf(cat);
      assert forall q :: q in cat ==> cat[q] in cat.Values;
      Val, children := child.Val, child.children;
      if this !in cat.Values {
        assert CellsOf(Rerooted(cat, this)) == cells;
        OtherRoot(child, cat, cells, this);
      } else if child == this {
        assert CellsOf(cat) == cells;
      } else {
        forall at2: Layout<T> ensures !IsTree(this, at2) {
          RootBelow(child, cat, cells, this, at2);
        }
      }
    }

    /** Links `child` in as the child called `name`. If that is the root of a tree
        `cat` without a node that stays elsewhere in this tree, a tree comes out;
        if there is such a node, none does. */
    method Attach(name: string, child: Node<T>, ghost root: Node<T>, ghost at: Layout<T>, ghost up: Path,
                  ghost cat: Layout<T>)
      returns (ghost at': Layout<T>)
      requires IsTree(root, at) && up in at && at[up] == this && children.Some?
      requires Edges(child, cat)
      modifies this`children
      ensures children == Some(old(children).value[name := child])
      ensures old(IsTree(child, cat)) && Apart(at, up + [name], cat) ==>
                && at' == Graft(at, up + [name], cat) && IsTree(root, at')
                && Model(at') == Graft(old(Model(at)), up + [name], old(Model(cat)))
      ensures !Apart(at, up + [name], cat) ==> at' == at && forall at2: Layout<T> :: !IsTree(root, at2)
    {
      hide Linked, Meaning, Apart, LinkedIn, Edges;
      ghost var cells, ccells := CellsOf(at), CellsOf(cat);
      CellsAre(at, cells);
      CellsAre(cat, ccells);
      EdgesIs(child, cat);
      ChildHere(root, at, cells, up, name);
      Relink(children.value[name := child], at, up);
      at' := at;
      if old(IsTree(child, cat)) && Apart(at, up + [name], cat) {
        ParentIsApart(at, up, name, cat);
        GraftTree(root, at, cells, up, name, child, cat, ccells);
        GraftMeaning(cells, up, name, child, ccells);
        at' := Graft(at, up + [name], cat);
        CellsOfGraft(at, up + [name], cat);
      } else if !Apart(at, up + [name], cat) {
        IsLinkedIn(root, at, cells, up, name, child, cat, ccells);
        forall at2: Layout<T> ensures !IsTree(root, at2) {
          NoTree(root, at, cells, up, name, child, cat, ccells, at2);
        }
      }
    }

    /** Gives this directory, which stands at `up`, other children. */
    method Relink(kids: map<string, Node<T>>, ghost at: Layout<T>, ghost up: Path)
      requires up in at && at[up] == this && forall q :: q in at && q != up ==> at[q] != this
      modifies this`children
      ensures children == Some(kids) && CellsOf(at) == old(CellsOf(at))[up := Cell(Val, Some(kids))]
    {
      children := Some(kids);
    }
  }

  lemma ParentIsApart<T>(at: Layout<T>, up: Path, name: string, cat: Layout<T>)
    requires Apart(at, up + [name], cat) && up in at
    ensures forall c :: c in cat ==> cat[c] != at[up]
  {
    assert !(up + [name] <= up);
  }

  lemma CellsOfNew<T>(at: Layout<T>, p: Path, n: Node<T>)
    ensures CellsOf(at[p := n]) == CellsOf(at)[p := Cell(n.Val, n.children)]
  {
  }

  lemma CellsOfGraft<T>(at: Layout<T>, p: Path, cat: Layout<T>)
    ensures CellsOf(Graft(at, p, cat)) == Graft(CellsOf(at), p, CellsOf(cat))
  {
  }

  lemma ValuesHold<T>(at: Layout<T>, p: Path)
    requires p in at
    ensures at[p] in at.Values
  {
  }

  /** A node is not among those below its own child. */
  lemma NotBelowItself<T>(at: Layout<T>, up: Path, name: string)
    requires up in at && forall q :: q in at && q != up ==> at[q] != at[up]
    ensures at[up] !in Sub(at, up + [name]).Values
  {
    assert forall q :: up + [name] + q != up;
  }

  lemma CellsOfPart<T>(at: Layout<T>, p: Path)
    ensures CellsOf(Without(at, p)) == Without(CellsOf(at), p)
    ensures CellsOf(Sub(at, p)) == Sub(CellsOf(at), p)
  {
  }

  lemma OtherRoot<T>(root: Node<T>, at: Layout<T>, cells: Cells<T>, other: Node<T>)
    requires Linked(root, at, cells) && other !in at.Values
    ensures Linked(other, Rerooted(at, other), cells)
    ensures root !in Rerooted(at, other).Values
  {
    var at' := Rerooted(at, other);
    forall p: Path, k: string {:trigger p + [k] in at'} | p + [k] in at'
      ensures p in at' && k in cells[p].Kids() && cells[p].Kids()[k] == at'[p + [k]]
    {
      assert p + [k] in at && p + [k] != [];
    }
    assert Covered(at', cells);
    forall q, r | q in at' && r in at' && at'[q] == at'[r] ensures q == r {
      assert q in at ==> at[q] in at.Values;
      assert r in at ==> at[r] in at.Values;
    }
  }

  // ----- when no tree comes out -----

  lemma PrefixOfStep(c: Path)
    requires c != []
    ensures c == c[..|c| - 1] + [c[|c| - 1]] && c[..|c| - 1] < c
  {
  }

  /** A node that has taken over the children of a root above it is below itself. */
  lemma RootBelow<T>(child: Node<T>, cat: Layout<T>, cells: Cells<T>, n: Node<T>, at2: Layout<T>)
    requires Linked(child, cat, cells) && n in cat.Values && child != n
    requires forall c :: c in cat && cat[c] != n ==> Cell(cat[c].Val, cat[c].children) == cells[c]
    requires n.children == cells[[]].children
    ensures !IsTree(n, at2)
  {
    if IsTree(n, at2) {
      var c :| c in cat && cat[c] == n;
      WalkDown(child, cat, cells, n, at2, c, c);
    }
  }

  /** A walk from `n` down the old tree comes to the nodes that stood there. */
  lemma {:induction false} WalkDown<T>(child: Node<T>, cat: Layout<T>, cells: Cells<T>, n: Node<T>, at2: Layout<T>,
                                       c: Path, end: Path)
    requires Linked(child, cat, cells) && end in cat && cat[end] == n && c <= end && c != []
    requires forall c :: c in cat && cat[c] != n ==> Cell(cat[c].Val, cat[c].children) == cells[c]
    requires n.children == cells[[]].children && IsTree(n, at2)
    ensures c in cat && c in at2 && at2[c] == cat[c]
    decreases |c|
  {
    hide CellsOf, Linked;
    var up, k := c[..|c| - 1], c[|c| - 1];
    PrefixOfStep(c);
    EdgeAt(child, cat, cells, c, end);
    if up == [] {
      AtRoot(n, at2, n.Val);
    } else {
      WalkDown(child, cat, cells, n, at2, up, end);
      assert cat[up] != n;
    }
    KidAt(n, at2, up, k);
  }

  /** The last edge to a path in a tree, which is on the way to another one. */
  lemma EdgeAt<T>(root: Node<T>, at: Layout<T>, cells: Cells<T>, c: Path, end: Path)
    requires Linked(root, at, cells) && end in at && c <= end && c != []
    ensures var up, k := c[..|c| - 1], c[|c| - 1];
            && c in at && up in at && k in cells[up].Kids() && cells[up].Kids()[k] == at[c]
            && at[up] != at[end]
  {
    LinkedIsClosed(root, at, cells);
    ClosedUnderPrefix(Meaning(cells), end, c);
    PrefixOfStep(c);
    assert c[..|c| - 1] != end;
  }

  /** A layout and what stands there determine the cells. */
  lemma SameCells<T>(root: Node<T>, at: Layout<T>, c1: Cells<T>, c2: Cells<T>)
    requires Linked(root, at, c1) && Linked(root, at, c2) && Meaning(c1) == Meaning(c2)
    ensures c1 == c2
  {
    forall p | p in at ensures c1[p] == c2[p] {
      assert Meaning(c1)[p] == Meaning(c2)[p];
      forall k ensures k in c1[p].Kids() <==> k in c2[p].Kids() {
        ChildHere(root, at, c1, p, k);
        ChildHere(root, at, c2, p, k);
      }
      forall k | k in c1[p].Kids() ensures c1[p].Kids()[k] == c2[p].Kids()[k] {
        ChildHere(root, at, c1, p, k);
        ChildHere(root, at, c2, p, k);
      }
      assert c1[p].Kids() == c2[p].Kids();
    }
  }

  /** The cells of the same nodes are the same. */
  ghost predicate Agree<T>(at: Layout<T>, cells: Cells<T>, cat: Layout<T>, ccells: Cells<T>)
  {
    && at.Keys == cells.Keys && cat.Keys == ccells.Keys
    && forall c, q :: c in cat && q in at && cat[c] == at[q] ==> ccells[c] == cells[q]
  }

  lemma CellsAgree<T>(at: Layout<T>, cat: Layout<T>)
    ensures Agree(at, CellsOf(at), cat, CellsOf(cat))
  {
  }

  lemma CellsAre<T>(at: Layout<T>, cells: Cells<T>)
    ensures cells == CellsOf(at) <==>
              cells.Keys == at.Keys && forall q :: q in at ==> cells[q] == Cell(at[q].Val, at[q].children)
  {
  }

  /** `child` leads to each node of `cat`, none of which stands there twice. */
  ghost predicate Edges<T>(child: Node<T>, cat: Layout<T>)
    reads cat.Values
  {
    [] in cat && cat[[]] == child && Unshared(cat) && Reached(cat, CellsOf(cat))
  }

  lemma EdgesAre<T>(child: Node<T>, cat: Layout<T>, ccells: Cells<T>)
    requires Linked(child, cat, ccells) && Reached(cat, CellsOf(cat))
    ensures Edges(child, cat)
  {
    hide CellsOf;
  }

  lemma SetFateIs<T>(m: PathMap<T>, p: string)
    requires ValidPath(p) && p != "."
    ensures SetFate(m, p, false) ==
            var up := Elems(DirName(p));
            if Blocked(m, up) then Failed(NotDir) else if up in m && !m[up].dir then Panicked else Done
  {
    hide Blocked, Elems, DirName, ValidPath;
  }

  lemma GraftValues<T>(at: Layout<T>, at1: Layout<T>, p: Path, cat: Layout<T>)
    requires Extends(at, at1)
    ensures forall q :: q in at ==> q in at1 && at1[q] == at[q]
    ensures var g := Graft(at1, p, cat); forall q :: q in g ==> (q in at1 && g[q] == at1[q]) || g[q] in cat.Values
  {
  }

  lemma CellsLinked<T>(root: Node<T>, at: Layout<T>)
    ensures IsTree(root, at) <==> Linked(root, at, CellsOf(at))
    ensures Model(at) == Meaning(CellsOf(at))
  {
  }

  lemma ApartStill<T>(at: Layout<T>, at1: Layout<T>, p: Path, cat: Layout<T>)
    requires Extends(at, at1) && forall q :: q in at1 && q !in at ==> at1[q] !in cat.Values
    ensures Apart(at1, p, cat) <==> Apart(at, p, cat)
  {
    assert forall c :: c in cat ==> cat[c] in cat.Values;
  }

  /** If nothing of `cat` stands outside of what is replaced, making the directories
      on the way leaves `cat` as it is. */
  lemma NothingLost<T>(root: Node<T>, at: Layout<T>, cells: Cells<T>, at1: Layout<T>, cells1: Cells<T>, up: Path,
                       name: string,
                       child: Node<T>, cat: Layout<T>, ccells: Cells<T>, ccells1: Cells<T>)
    requires Linked(root, at, cells) && Linked(root, at1, cells1) && Apart(at, up + [name], cat)
    requires up in at ==> at1 == at && Meaning(cells1) == Meaning(cells)
    requires Agree(at, cells, cat, ccells) && Agree(at1, cells1, cat, ccells1)
    requires forall c :: c in cat && cat[c] !in at.Values ==> ccells1[c] == ccells[c]
    ensures ccells1 == ccells
  {
    if up in at {
      SameCells(root, at, cells, cells1);
    }
    forall c | c in cat ensures ccells1[c] == ccells[c] {
      if cat[c] in at.Values {
        var q :| q in at && at[q] == cat[c];
        LinkedIsClosed(root, at, cells);
        ClosedUnderPrefix(Meaning(cells), q, up + [name]);
        assert up + [name] in at;
      }
    }
  }

  /** Making directories in one tree takes no edge away from another. */
  lemma EdgesKept<T>(root: Node<T>, at: Layout<T>, cells: Cells<T>, at1: Layout<T>, cells1: Cells<T>,
                     child: Node<T>, cat: Layout<T>, ccells: Cells<T>, ccells1: Cells<T>)
    requires Linked(root, at, cells) && Linked(root, at1, cells1) && Extends(at, at1) && Linked(child, cat, ccells)
    requires Agree(at, cells, cat, ccells) && Agree(at1, cells1, cat, ccells1)
    requires forall c :: c in cat && cat[c] !in at.Values ==> ccells1[c] == ccells[c]
    ensures Reached(cat, ccells1)
  {
    forall c: Path, k: string {:trigger c + [k] in cat} | c + [k] in cat
      ensures c in cat && k in ccells1[c].Kids() && ccells1[c].Kids()[k] == cat[c + [k]]
    {
      assert k in ccells[c].Kids() && ccells[c].Kids()[k] == cat[c + [k]];
      if cat[c] in at.Values {
        var q :| q in at && at[q] == cat[c];
        ChildHere(root, at, cells, q, k);
        ChildHere(root, at1, cells1, q, k);
      }
    }
  }

  /** The nodes of a layout other than `n` are as the cells say. */
  ghost predicate SameBut<T>(at: Layout<T>, cells: Cells<T>, n: Node<T>)
    reads at.Values
  {
    at.Keys == cells.Keys && forall q :: q in at && at[q] != n ==> Cell(at[q].Val, at[q].children) == cells[q]
  }

  /** `root`'s tree `at`, in which `child` has been linked in as `up/name`, where
      `child` leads to the nodes of `cat`. */
  ghost predicate LinkedIn<T>(root: Node<T>, at: Layout<T>, cells: Cells<T>, up: Path, name: string,
                              child: Node<T>, cat: Layout<T>, ccells: Cells<T>)
    reads at.Values, cat.Values
  {
    && Linked(root, at, cells) && up in at && SameBut(at, cells, at[up])
    && at[up] in at.Values && at[up].children == Some(cells[up].Kids()[name := child])
    && cat.Keys == ccells.Keys && [] in cat && cat[[]] == child && Reached(cat, ccells) && Unshared(cat)
    && SameBut(cat, ccells, at[up])
  }

  lemma EdgesIs<T>(child: Node<T>, cat: Layout<T>)
    ensures Edges(child, cat) <==> [] in cat && cat[[]] == child && Unshared(cat) && Reached(cat, CellsOf(cat))
  {
  }

  lemma IsLinkedIn<T>(root: Node<T>, at: Layout<T>, cells: Cells<T>, up: Path, name: string,
                      child: Node<T>, cat: Layout<T>, ccells: Cells<T>)
    requires Linked(root, at, cells) && up in at && at[up].children == Some(cells[up].Kids()[name := child])
    requires forall q :: q in at && at[q] != at[up] ==> Cell(at[q].Val, at[q].children) == cells[q]
    requires [] in cat && cat[[]] == child && Unshared(cat) && cat.Keys == ccells.Keys && Reached(cat, ccells)
    requires forall c :: c in cat && cat[c] != at[up] ==> Cell(cat[c].Val, cat[c].children) == ccells[c]
    ensures LinkedIn(root, at, cells, up, name, child, cat, ccells)
  {
  }

  /** In any tree that comes out, the nodes not below `up/name` stand where they stood. */
  lemma {:induction false} OldStay<T>(root: Node<T>, at: Layout<T>, cells: Cells<T>, up: Path, name: string,
                                      child: Node<T>, cat: Layout<T>, ccells: Cells<T>, at2: Layout<T>, q: Path)
    requires LinkedIn(root, at, cells, up, name, child, cat, ccells) && IsTree(root, at2)
    requires q in at && !(up + [name] <= q)
    ensures q in at2 && at2[q] == at[q]
    decreases |q|
  {
    hide LinkedIn;
    AtRoot(root, at2, root.Val);
    RootOfOld(root, at, cells, up, name, child, cat, ccells);
    if q != [] {
      var r, k := q[..|q| - 1], q[|q| - 1];
      PrefixOfStep(q);
      KidOfOld(root, at, cells, up, name, child, cat, ccells, r, k);
      OldStay(root, at, cells, up, name, child, cat, ccells, at2, r);
      KidAt(root, at2, r, k);
    }
  }

  lemma RootOfOld<T>(root: Node<T>, at: Layout<T>, cells: Cells<T>, up: Path, name: string,
                     child: Node<T>, cat: Layout<T>, ccells: Cells<T>)
    requires LinkedIn(root, at, cells, up, name, child, cat, ccells)
    ensures [] in at && at[[]] == root
  {
  }

  lemma KidOfOld<T>(root: Node<T>, at: Layout<T>, cells: Cells<T>, up: Path, name: string,
                    child: Node<T>, cat: Layout<T>, ccells: Cells<T>, r: Path, k: string)
    requires LinkedIn(root, at, cells, up, name, child, cat, ccells) && r + [k] in at && r + [k] != up + [name]
    ensures r in at && k in at[r].Kids() && at[r].Kids()[k] == at[r + [k]]
  {
    hide CellsOf, Covered;
    assert k in cells[r].Kids() && cells[r].Kids()[k] == at[r + [k]];
    if at[r] == at[up] {
      assert r == up && k != name;
    }
  }

  /** And those of `cat` stand below `up/name`, as far as the way there does not
      pass through `up`. */
  lemma {:induction false} NewStand<T>(root: Node<T>, at: Layout<T>, cells: Cells<T>, up: Path, name: string,
                                       child: Node<T>, cat: Layout<T>, ccells: Cells<T>, at2: Layout<T>, c: Path)
    requires LinkedIn(root, at, cells, up, name, child, cat, ccells) && IsTree(root, at2)
    requires c in cat && forall d :: d in cat && d < c ==> cat[d] != at[up]
    ensures up + [name] + c in at2 && at2[up + [name] + c] == cat[c]
    decreases |c|
  {
    hide CellsOf;
    if c == [] {
      assert !(up + [name] <= up) && up + [name] + [] == up + [name];
      OldStay(root, at, cells, up, name, child, cat, ccells, at2, up);
      KidAt(root, at2, up, name);
    } else {
      var d, k := c[..|c| - 1], c[|c| - 1];
      PrefixOfStep(c);
      assert d in cat && k in ccells[d].Kids() && ccells[d].Kids()[k] == cat[c] by {
        assert d + [k] in cat;
      }
      NewStand(root, at, cells, up, name, child, cat, ccells, at2, d);
      KidAt(root, at2, up + [name] + d, k);
      assert up + [name] + d + [k] == up + [name] + c;
    }
  }

  /** So no tree comes out if a node of `cat` stands outside. */
  lemma NoTree<T>(root: Node<T>, at: Layout<T>, cells: Cells<T>, up: Path, name: string,
                  child: Node<T>, cat: Layout<T>, ccells: Cells<T>, at2: Layout<T>)
    requires LinkedIn(root, at, cells, up, name, child, cat, ccells) && !Apart(at, up + [name], cat)
    ensures !IsTree(root, at2)
  {
    hide LinkedIn;
    if IsTree(root, at2) {
      NoSharing(root, at2);
      CatUnshared(root, at, cells, up, name, child, cat, ccells);
      assert !(up + [name] <= up);
      OldStay(root, at, cells, up, name, child, cat, ccells, at2, up);
      if c :| c in cat && cat[c] == at[up] {
        NewStand(root, at, cells, up, name, child, cat, ccells, at2, c);
      } else {
        var q, c :| q in at && !(up + [name] <= q) && c in cat && at[q] == cat[c];
        NewStand(root, at, cells, up, name, child, cat, ccells, at2, c);
        OldStay(root, at, cells, up, name, child, cat, ccells, at2, q);
      }
    }
  }

  lemma NoSharing<T>(root: Node<T>, at: Layout<T>)
    requires IsTree(root, at)
    ensures Unshared(at)
  {
  }

  lemma CatUnshared<T>(root: Node<T>, at: Layout<T>, cells: Cells<T>, up: Path, name: string,
                       child: Node<T>, cat: Layout<T>, ccells: Cells<T>)
    requires LinkedIn(root, at, cells, up, name, child, cat, ccells)
    ensures Unshared(cat) && up in at
  {
  }

  lemma Alone<T>(root: Node<T>, cell: Cell<T>)
    requires cell.Kids() == map[]
    ensures Linked(root, Only(root), OnlyCell(cell))
    ensures Meaning(OnlyCell(cell)) == map[[] := Entry(cell.children.Some?, cell.val)]
  {
  }

  lemma CopyCells<T>(root: Node<T>, at: Layout<T>, cp: Node<T>)
    requires [] in at && at[[]] == root && cp.Val == root.Val && cp.children == root.children
    ensures CellsOf(Rerooted(at, cp)) == CellsOf(at)
  {
  }

  lemma RemovedRoot<T>(m: PathMap<T>, zero: T)
    requires [] in m
    ensures Removed(m, [], zero) == map[[] := Entry(m[[]].dir, zero)]
  {
  }

  ghost function FileModel<T>(val: T): PathMap<T>
  {
    map[[] := Entry(false, val)]
  }

  lemma FileAlone<T>(file: Node<T>)
    requires file.children == None
    ensures Only(file).Values == {file}
    ensures IsTree(file, Only(file)) && Model(Only(file)) == FileModel(file.Val)
  {
    Alone(file, Cell(file.Val, None));
    assert CellsOf(Only(file)) == OnlyCell(Cell(file.Val, None));
  }

  lemma AtRoot<T>(root: Node<T>, at: Layout<T>, zero: T)
    requires IsTree(root, at)
    ensures [] in at && at[[]] == root && Extends(at, at) && Closed(Model(at))
    ensures var m := Model(at);
            Clear(m, []) && Mkdirs(m, [], zero) == m && m[[]] == Entry(root.children.Some?, root.Val)
  {
    LinkedIsClosed(root, at, CellsOf(at));
    MkdirsHere(Model(at), [], zero);
  }

  lemma EntryAt<T>(at: Layout<T>, p: Path)
    requires p in at
    ensures Model(at)[p] == Entry(at[p].children.Some?, at[p].Val)
  {
  }

  /** `n` stands at `p` or below. */
  ghost predicate StandsUnder<T>(n: Node<T>, at: Layout<T>, p: Path)
  {
    p in at && (at[p] == n || StandsBelow(n, at, p))
  }

  lemma SmallerBelow<T>(at: Layout<T>, here: Path, name: string)
    requires here in at
    ensures (set q | q in at && here + [name] <= q) < (set q | q in at && here <= q)
  {
    var small, big := set q | q in at && here + [name] <= q, set q | q in at && here <= q;
    assert here in big && here !in small;
    forall q | q in small ensures q in big {
      assert here <= here + [name];
    }
  }

  lemma BelowOrAt<T>(n: Node<T>, at: Layout<T>, here: Path, name: string)
    ensures StandsUnder(n, at, here + [name]) ==> StandsBelow(n, at, here)
  {
    assert here < here + [name];
  }

  lemma NoneBelow<T>(n: Node<T>, root: Node<T>, at: Layout<T>, here: Path)
    requires IsTree(root, at) && here in at
    requires forall k :: k in at[here].Kids() ==> !StandsUnder(n, at, here + [k])
    ensures !StandsBelow(n, at, here)
  {
    hide IsTree;
    forall q | q in at && here < q ensures at[q] != n {
      var step := q[..|here| + 1];
      assert step == here + [q[|here|]];
      PrefixInTree(root, at, q, step);
      KidAt(root, at, here, q[|here|]);
      assert !StandsUnder(n, at, step);
      assert q == step || step < q;
    }
  }

  lemma KidAt<T>(root: Node<T>, at: Layout<T>, here: Path, name: string)
    requires IsTree(root, at) && here in at
    ensures name in at[here].Kids() <==> here + [name] in at
    ensures here + [name] in at ==> at[here].Kids()[name] == at[here + [name]]
  {
    ChildHere(root, at, CellsOf(at), here, name);
    assert at[here].Kids() == CellsOf(at)[here].Kids();
  }

  lemma PrefixInTree<T>(root: Node<T>, at: Layout<T>, p: Path, q: Path)
    requires IsTree(root, at) && p in at && q <= p
    ensures q in at
  {
    LinkedIsClosed(root, at, CellsOf(at));
    ClosedUnderPrefix(Model(at), p, q);
  }
}
