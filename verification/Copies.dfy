/** Walking a tree to build another one of the same shape: `Copy` and `Map`. */
module Copies {
  import opened Trees
  import opened Ordering
  import opened Paths
  import opened PathMaps
  import opened PathTree
  import opened Walks

  function ValueOf<S, T>(fn: S -> Option<T>, v: S, zero: T): T
  {
    match fn(v)
    case Some(w) => w
    case None => zero
  }

  /** The covered part of a tree with its values mapped. */
  ghost function Mapped<S, T>(m: PathMap<S>, fn: S -> Option<T>, zero: T, covered: set<Path>): (r: PathMap<T>)
    ensures forall q :: q in r <==> q in m && q in covered
    ensures forall q :: q in r ==> r[q] == Entry(m[q].dir, ValueOf(fn, m[q].val, zero))
  {
    map q | q in m && q in covered :: Entry(m[q].dir, ValueOf(fn, m[q].val, zero))
  }

  /** All names along all paths are valid, as `Set` and `MkdirAll` see to. */
  ghost predicate ValidLayout<T>(at: Layout<T>)
  {
    forall p :: p in at ==> ValidNames(p)
  }

  /** Putting a tree with valid names at a valid path keeps the names valid. */
  lemma PutKeepsNames<T>(m: PathMap<T>, p: Path, c: PathMap<T>, zero: T)
    requires p != [] && ValidNames(p)
    requires forall q :: q in m || q in c ==> ValidNames(q)
    ensures forall q :: q in Put(m, p, c, zero) ==> ValidNames(q)
  {
    forall q | q in Put(m, p, c, zero) ensures ValidNames(q) {
      if p <= q {
        assert q == p + q[|p|..];
      } else if q !in m {
        assert q <= p[..|p| - 1] && forall e :: e in q ==> e in p;
      }
    }
  }

  /** The nodes of a tree are all among `mine`, or none of them is. */
  ghost predicate Within<T>(at: Layout<T>, mine: set<object>)
  {
    forall p :: p in at ==> at[p] in mine
  }

  ghost predicate Outside<T>(at: Layout<T>, mine: set<object>)
  {
    forall p :: p in at ==> at[p] !in mine
  }

  /** The values below `p` that `fn` maps without an error. */
  ghost predicate Mappable<S, T>(m: PathMap<S>, fn: S -> Option<T>, paths: set<Path>)
  {
    forall q :: q in m && q in paths ==> fn(m[q].val).Some?
  }

  /** What is built so far: nothing when the walk starts, and afterwards the
      covered part, which holds the directory of `here` but nothing of `here`. */
  ghost predicate Built<S, T>(m: PathMap<S>, fn: S -> Option<T>, zero: T, here: Path, covered: set<Path>, c: PathMap<T>)
  {
    if here == [] then covered == {}
    else c == Mapped(m, fn, zero, covered) && here[..|here| - 1] in covered && covered !! Below(m, here)
  }

  ghost function NewEntry<T>(dir: bool, val: T): PathMap<T>
  {
    map[[] := Entry(dir, val)]
  }

  /** Setting the node for `here` adds just that node. */
  lemma OneMoreSet<S, T>(m: PathMap<S>, fn: S -> Option<T>, zero: T, here: Path, covered: set<Path>, c: PathMap<T>,
                         val: T)
    requires Closed(m) && here in m && Built(m, fn, zero, here, covered, c) && Closed(c) && ValidNames(here)
    requires fn(m[here].val) == Some(val)
    ensures SetFate(c, Text(here), false) == Done
    ensures here == [] ==> NewEntry(m[here].dir, val) == Mapped(m, fn, zero, covered + {here})
    ensures here != [] ==> Put(c, here, NewEntry(m[here].dir, val), zero) == Mapped(m, fn, zero, covered + {here})
  {
    hide Blocked, ValidPath, Elems, DirName, Text, ValidName;
    ElemsOfText(here);
    if here == [] {
      NothingBuilt(m, fn, zero, val);
    } else {
      TextIsNotRoot(here);
      DirAndBase(Text(here));
      var up := here[..|here| - 1];
      assert Elems(DirName(Text(here))) == (Elems(DirName(Text(here))) + [BaseName(Text(here))])[..|here| - 1];
      assert here == up + [here[|here| - 1]];
      assert up in m && m[up].dir;
      ClearWhenClosed(c, up);
      NotBlocked(c, up);
      PutOne(m, fn, zero, here, covered, c, val);
    }
  }

  lemma TextIsNotRoot(es: Path)
    requires ValidNames(es) && es != []
    ensures Text(es) != "."
  {
    ElemsOfText(es);
  }

  lemma NothingBuilt<S, T>(m: PathMap<S>, fn: S -> Option<T>, zero: T, val: T)
    requires [] in m && fn(m[[]].val) == Some(val)
    ensures NewEntry(m[[]].dir, val) == Mapped(m, fn, zero, {} + {[]})
  {
  }

  lemma PutOne<S, T>(m: PathMap<S>, fn: S -> Option<T>, zero: T, here: Path, covered: set<Path>, c: PathMap<T>, val: T)
    requires here != [] && here in m && Closed(c) && Built(m, fn, zero, here, covered, c)
    requires here[..|here| - 1] in c && fn(m[here].val) == Some(val)
    ensures Put(c, here, NewEntry(m[here].dir, val), zero) == Mapped(m, fn, zero, covered + {here})
  {
    var up := here[..|here| - 1];
    forall q | q <= up ensures q in c {
      ClosedUnderPrefix(c, up, q);
    }
    assert Mkdirs(c, up, zero) == c;
    var l, r := Put(c, here, NewEntry(m[here].dir, val), zero), Mapped(m, fn, zero, covered + {here});
    forall q ensures q in l <==> q in r {
      assert here <= q && q[|here|..] == [] ==> q == here;
      assert here <= q && q in c ==> q in Below(m, here);
    }
    forall q | q in l ensures l[q] == r[q] {
      assert here <= q && q[|here|..] == [] ==> q == here;
    }
  }

  /** A new node of a given kind. */
  method NewLike<T>(dir: bool, val: T) returns (newNode: Node<T>)
    ensures fresh(newNode) && newNode.Val == val && newNode.children == if dir then Some(map[]) else None
  {
    newNode := new Node<T>.NewFile(val);
    if dir {
      newNode.children := Some(map[]);
    }
  }

  /** Sets a new node of a given kind. */
  method SetNew<T>(p: string, dir: bool, val: T, zero: T, newRoot: Node<T>, ghost cat: Layout<T>)
    returns (ghost cat': Layout<T>)
    requires IsTree(newRoot, cat) && SetFate(Model(cat), p, false) == Done
    modifies cat.Values
    ensures IsTree(newRoot, cat') && fresh(cat'.Values - cat.Values)
    ensures Model(cat') == if p == "." then NewEntry(dir, val)
                           else Put(old(Model(cat)), Elems(p), NewEntry(dir, val), zero)
  {
    hide *;
    var newNode := NewLike(dir, val);
    NodeAlone(newNode);
    Strangers(newNode, newRoot, cat, Only(newNode));
    AtRoot(newRoot, cat, zero);
    DisjointFits(newRoot, cat, p, newNode, Only(newNode));
    var fate;
    fate, cat' := newRoot.Set(p, newNode, zero, cat, Only(newNode));
    assert forall n :: n in Only(newNode).Values ==> n == newNode;
  }

  /** That leaves the tree that is walked alone. */
  method Place<S, T>(p: string, dir: bool, val: T, zero: T, newRoot: Node<T>,
                     ghost root: Node<S>, ghost at: Layout<S>, ghost cat: Layout<T>, ghost mine: set<object>)
      returns (ghost cat': Layout<T>)
    requires IsTree(root, at) && IsTree(newRoot, cat) && Within(at, mine) && Outside(cat, mine)
    requires SetFate(Model(cat), p, false) == Done
    modifies cat.Values
    ensures IsTree(newRoot, cat') && Outside(cat', mine) && fresh(cat'.Values - cat.Values)
    ensures CellsOf(at) == old(CellsOf(at)) && IsTree(root, at)
    ensures Model(cat') == if p == "." then NewEntry(dir, val)
                           else Put(old(Model(cat)), Elems(p), NewEntry(dir, val), zero)
  {
    hide *;
    Apart(at, cat, mine);
    cat' := SetNew(p, dir, val, zero, newRoot, cat);
    ghost var made := cat'.Values - cat.Values;
    assert made !! mine;
    StillOutside(cat, cat', mine, made);
  }

  lemma Apart<S, T>(at: Layout<S>, cat: Layout<T>, mine: set<object>)
    requires Within(at, mine) && Outside(cat, mine)
    ensures forall p, q :: p in at && q in cat ==> at[p] as object != cat[q]
  {
  }

  lemma StillOutside<T>(cat: Layout<T>, cat': Layout<T>, mine: set<object>, made: set<Node<T>>)
    requires Outside(cat, mine) && made == cat'.Values - cat.Values && made !! mine
    ensures Outside(cat', mine)
  {
  }

  /** What is called at each node of a walk. It builds the tree `newRoot` out of
      mapped values, and keeps a record of the paths it was called for. */
  class Builder<S, T> {
    const fn: S -> Option<T>
    const zero: T
    const newRoot: Node<T>
    ghost var calls: seq<Path>

    constructor (fn: S -> Option<T>, zero: T)
      ensures this.fn == fn && this.zero == zero && calls == []
      ensures fresh(newRoot) && newRoot.Val == zero && newRoot.children == None
    {
      this.fn, this.zero := fn, zero;
      newRoot := new Node<T>.NewFile(zero);
      calls := [];
    }

    /** A new node of the same kind, with the mapped value, is set at the same
        path of the new tree. */
    method Visit(n: Node<S>, p: string, ghost root: Node<S>, ghost at: Layout<S>, ghost here: Path,
                 ghost cat: Layout<T>, ghost covered: set<Path>, ghost mine: set<object>)
        returns (ok: bool, ghost cat': Layout<T>)
      requires IsTree(root, at) && here in at && at[here] == n && ValidLayout(at) && p == Text(here)
      requires IsTree(newRoot, cat) && Within(at, mine) && Outside(cat, mine)
      requires Built(Model(at), fn, zero, here, covered, Model(cat))
      modifies cat.Values, this`calls
      ensures calls == old(calls) + [here]
      ensures IsTree(newRoot, cat') && Outside(cat', mine)
      ensures fresh(cat'.Values - cat.Values)
      ensures CellsOf(at) == old(CellsOf(at)) && IsTree(root, at)
      ensures ok <==> fn(n.Val).Some?
      ensures ok ==> Model(cat') == Mapped(Model(at), fn, zero, covered + {here})
    {
      hide *;
      cat' := cat;
      LayoutNames(at, here);
      RootText(here);
      calls := calls + [Elems(p)];
      var mapped := fn(n.Val);
      if mapped.None? {
        return false, cat;
      }
      AtRoot(newRoot, cat, zero);
      RootClosed(root, at);
      EntryAt(at, here);
      DirOf(n);
      ModelOfCells(at);
      OneMoreSet(Model(at), fn, zero, here, covered, Model(cat), mapped.value);
      cat' := Place(p, n.IsDir(), mapped.value, zero, newRoot, root, at, cat, mine);
      EntryAt(at, here);
      ModelOfCells(at);
      ok := true;
    }
  }

  lemma DirOf<T>(n: Node<T>)
    ensures n.IsDir() <==> n.children.Some?
  {
  }

  lemma RootText(here: Path)
    requires ValidNames(here)
    ensures Text(here) == "." <==> here == []
    ensures Elems(Text(here)) == here
  {
    ElemsOfText(here);
    if here != [] {
      TextIsNotRoot(here);
    }
  }

  lemma RootClosed<T>(root: Node<T>, at: Layout<T>)
    requires IsTree(root, at)
    ensures Closed(Model(at))
  {
    LinkedIsClosed(root, at, CellsOf(at));
  }

  lemma LayoutNames<T>(at: Layout<T>, p: Path)
    requires ValidLayout(at) && p in at
    ensures ValidNames(p)
  {
  }

  lemma NodeAlone<T>(n: Node<T>)
    requires n.children.None? || n.children == Some(map[])
    ensures Only(n).Values == {n} && IsTree(n, Only(n)) && Model(Only(n)) == NewEntry(n.children.Some?, n.Val)
  {
    Alone(n, Cell(n.Val, n.children));
    assert CellsOf(Only(n)) == OnlyCell(Cell(n.Val, n.children));
  }

  // ----- the walk -----

  /** The first `i` of a directory's children are walked: their values could be
      mapped, and their copies are there. */
  ghost predicate SoFar<S, T>(m: PathMap<S>, fn: S -> Option<T>, zero: T, here: Path, covered: set<Path>,
                              names: seq<string>, i: nat,
                              c: PathMap<T>)
  {
    && i <= |names| && (here == [] ==> covered == {}) && covered !! Below(m, here)
    && Mappable(m, fn, {here} + BelowNamed(m, here, names[..i]))
    && c == Mapped(m, fn, zero, covered + {here} + BelowNamed(m, here, names[..i]))
  }

  lemma DeeperBuilt<S, T>(m: PathMap<S>, fn: S -> Option<T>, zero: T, here: Path, covered: set<Path>,
                          names: seq<string>, i: nat,
                          c: PathMap<T>)
    requires i < |names| && IsSorted(names)
    requires SoFar(m, fn, zero, here, covered, names, i, c)
    ensures Built(m, fn, zero, here + [names[i]], covered + {here} + BelowNamed(m, here, names[..i]), c)
  {
    var step := here + [names[i]];
    SortedDistinct(names);
    assert step[..|step| - 1] == here;
    forall q | q in Below(m, step) ensures q !in covered + {here} + BelowNamed(m, here, names[..i]) {
      assert here <= q && q[|here|] == step[|here|];
      assert names[i] !in names[..i];
    }
  }

  lemma ModelOfCells<T>(at: Layout<T>)
    ensures Model(at) == Meaning(CellsOf(at)) && Model(at).Keys == at.Keys
  {
  }

  lemma SortedKeys(keys: set<string>)
    ensures IsSorted(Sorted(keys)) && forall n :: n in Sorted(keys) <==> n in keys
  {
    SortedIsSorted(keys);
  }

  lemma SortedDistinct(names: seq<string>)
    requires IsSorted(names)
    ensures forall j, k :: 0 <= j < k < |names| ==> names[j] != names[k]
  {
    forall j, k | 0 <= j < k < |names| ensures names[j] != names[k] {
      LessIsStrict(names[j], names[k]);
    }
  }

  /** `path.Join` of a path and a name. */
  function Join(p: string, name: string): string
  {
    if p == "." then name else p + "/" + name
  }

  lemma JoinText(es: Path, n: string)
    requires ValidNames(es + [n])
    ensures Join(Text(es), n) == Text(es + [n])
  {
    assert forall e :: e in es ==> e in es + [n];
    ElemsOfText(es);
    if es == [] {
      assert es + [n] == [n];
    } else {
      assert Text([n]) == n;
      TextAppend(es, [n]);
      TextIsNotRoot(es);
    }
  }

  lemma BeforeChildren<S, T>(m: PathMap<S>, fn: S -> Option<T>, zero: T, here: Path, covered: set<Path>,
                             before: PathMap<T>, c: PathMap<T>)
    requires here in m && fn(m[here].val).Some? && Built(m, fn, zero, here, covered, before)
    requires c == Mapped(m, fn, zero, covered + {here})
    ensures SoFar(m, fn, zero, here, covered, [], 0, c)
  {
    assert BelowNamed(m, here, []) == {};
    assert covered + {here} + {} == covered + {here};
  }

  /** No names yet, whichever they are. */
  lemma SoFarNames<S, T>(m: PathMap<S>, fn: S -> Option<T>, zero: T, here: Path, covered: set<Path>,
                         names: seq<string>, c: PathMap<T>)
    requires SoFar(m, fn, zero, here, covered, [], 0, c)
    ensures SoFar(m, fn, zero, here, covered, names, 0, c)
  {
    assert [][..0] == names[..0];
  }

  lemma HereFails<S, T>(m: PathMap<S>, fn: S -> Option<T>, here: Path)
    requires here in m && fn(m[here].val).None?
    ensures !Mappable(m, fn, Below(m, here))
  {
    assert here in Below(m, here);
  }

  /** One more child walked, or failed. */
  lemma AfterChild<S, T>(m: PathMap<S>, fn: S -> Option<T>, zero: T, here: Path, covered: set<Path>,
                         names: seq<string>, i: nat,
                         before: PathMap<T>, c: PathMap<T>)
    requires i < |names| && SoFar(m, fn, zero, here, covered, names, i, before)
    ensures var step := here + [names[i]];
            && (Mappable(m, fn, Below(m, step)) &&
                c == Mapped(m, fn, zero, covered + {here} + BelowNamed(m, here, names[..i]) + Below(m, step)) ==>
                SoFar(m, fn, zero, here, covered, names, i + 1, c))
            && (!Mappable(m, fn, Below(m, step)) ==> !Mappable(m, fn, Below(m, here)))
  {
    BelowNamedNext(m, here, names, i);
    var step := here + [names[i]];
    assert covered + {here} + BelowNamed(m, here, names[..i]) + Below(m, step) ==
           covered + {here} + BelowNamed(m, here, names[..i + 1]);
    assert here <= step;
  }

  lemma AllChildren<S, T>(root: Node<S>, at: Layout<S>, m: PathMap<S>, fn: S -> Option<T>, zero: T, here: Path,
                          covered: set<Path>,
                          names: seq<string>, c: PathMap<T>)
    requires IsTree(root, at) && here in at && m == Model(at)
    requires forall k :: k in names <==> k in at[here].Kids()
    requires SoFar(m, fn, zero, here, covered, names, |names|, c)
    ensures Mappable(m, fn, Below(m, here))
    ensures c == Mapped(m, fn, zero, covered + Below(m, here))
    ensures {here} + BelowNamed(m, here, names[..|names|]) == Below(m, here)
  {
    assert names[..|names|] == names;
    CellAt(at, here);
    KidsOf(at[here], CellsOf(at)[here]);
    BelowAll(root, at, CellsOf(at), here, names);
    assert {here} + BelowNamed(m, here, names) == Below(m, here) by {
      assert BelowNamed(m, here, names) == BelowNamed(at, here, names) && Below(m, here) == Below(at, here);
    }
    assert covered + {here} + BelowNamed(m, here, names) == covered + Below(m, here);
  }

  /** `p` is on the way to `q`, or has the smaller name where the two part. */
  ghost predicate Precedes(p: Path, q: Path)
  {
    p < q || exists k :: 0 <= k < |p| && k < |q| && p[..k] == q[..k] && Less(p[k], q[k])
  }

  /** A walk from `here`: it begins there, visits each of the paths once, every other
      path only after its directory, and all paths in the order of the names along them. */
  ghost predicate Tour(visited: seq<Path>, here: Path, paths: set<Path>)
  {
    && visited != [] && visited[0] == here
    && (forall q :: q in visited <==> q in paths)
    && (forall i, j :: 0 <= i < j < |visited| ==> visited[i] != visited[j])
    && (forall j :: 0 < j < |visited| ==> DirVisited(visited, j))
    && (forall i, j :: 0 <= i < j < |visited| ==> Precedes(visited[i], visited[j]))
  }

  /** The calls made since `before` are such a tour. */
  ghost predicate Toured(before: seq<Path>, calls: seq<Path>, here: Path, paths: set<Path>)
  {
    before <= calls && Tour(calls[|before|..], here, paths)
  }

  ghost predicate DirVisited(visited: seq<Path>, j: nat)
    requires j < |visited|
  {
    visited[j] != [] && visited[j][..|visited[j]| - 1] in visited[..j]
  }

  lemma TourStarts<V>(m: map<Path, V>, before: seq<Path>, here: Path, names: seq<string>)
    ensures Toured(before, before + [here], here, {here} + BelowNamed(m, here, names[..0]))
  {
    assert (before + [here])[|before|..] == [here];
  }

  lemma AllToured(calls: seq<Path>, paths: set<Path>)
    ensures Toured([], calls, [], paths) ==> Tour(calls, [], paths)
  {
    hide Tour;
    assert calls[0..] == calls;
  }

  /** A directory and what is below its first children come before the next child. */
  lemma NamedPrecede<V>(m: map<Path, V>, here: Path, names: seq<string>, i: nat)
    requires i < |names| && IsSorted(names)
    ensures forall p, q :: p in {here} + BelowNamed(m, here, names[..i]) && q in Below(m, here + [names[i]]) ==>
              Precedes(p, q)
  {
    var step := here + [names[i]];
    forall p, q | p in {here} + BelowNamed(m, here, names[..i]) && q in Below(m, step) ensures Precedes(p, q) {
      assert q[..|here|] == here && q[|here|] == step[|here|];
      if p == here {
        assert here < step <= q;
      } else {
        var j :| 0 <= j < i && names[j] == p[|here|];
        assert p[..|here|] == q[..|here|] && Less(names[j], names[i]);
      }
    }
  }

  lemma TourGoesOn<S, T>(m: PathMap<S>, fn: S -> Option<T>, zero: T, here: Path, covered: set<Path>,
                         names: seq<string>, i: nat,
                         c: PathMap<T>)
    requires i < |names| && IsSorted(names)
    requires SoFar(m, fn, zero, here, covered, names, i, c)
    ensures {here} + BelowNamed(m, here, names[..i]) !! Below(m, here + [names[i]])
    ensures {here} + BelowNamed(m, here, names[..i + 1]) ==
            {here} + BelowNamed(m, here, names[..i]) + Below(m, here + [names[i]])
    ensures forall p, q :: p in {here} + BelowNamed(m, here, names[..i]) && q in Below(m, here + [names[i]]) ==>
              Precedes(p, q)
  {
    NamedPrecede(m, here, names, i);
    hide Precedes;
    DeeperBuilt(m, fn, zero, here, covered, names, i, c);
    BelowNamedNext(m, here, names, i);
  }

  /** The tour after one more child. */
  lemma TourNext<V>(before: seq<Path>, calls: seq<Path>, more: seq<Path>, m: map<Path, V>, here: Path,
                    names: seq<string>, i: nat)
    requires i < |names| && Toured(before, calls, here, {here} + BelowNamed(m, here, names[..i]))
    requires Toured(calls, more, here + [names[i]], Below(m, here + [names[i]]))
    requires {here} + BelowNamed(m, here, names[..i]) !! Below(m, here + [names[i]])
    requires {here} + BelowNamed(m, here, names[..i + 1]) ==
             {here} + BelowNamed(m, here, names[..i]) + Below(m, here + [names[i]])
    requires forall p, q :: p in {here} + BelowNamed(m, here, names[..i]) && q in Below(m, here + [names[i]]) ==>
               Precedes(p, q)
    ensures Toured(before, more, here, {here} + BelowNamed(m, here, names[..i + 1]))
  {
    hide Tour, BelowNamed, Below, Precedes;
    var step := here + [names[i]];
    assert step[..|step| - 1] == here;
    TourJoins(calls[|before|..], here, {here} + BelowNamed(m, here, names[..i]), more[|calls|..], step, Below(m, step));
    assert more[|before|..] == calls[|before|..] + more[|calls|..];
  }

  lemma TourJoins(v: seq<Path>, here: Path, paths: set<Path>, w: seq<Path>, step: Path, more: set<Path>)
    requires Tour(v, here, paths) && Tour(w, step, more) && paths !! more
    requires step != [] && step[..|step| - 1] == here
    requires forall p, q :: p in paths && q in more ==> Precedes(p, q)
    ensures Tour(v + w, here, paths + more)
  {
    hide Precedes;
    var all := v + w;
    forall i, j | 0 <= i < j < |all| ensures all[i] != all[j] {
      if i < |v| <= j {
        assert v[i] in v && w[j - |v|] in w;
      }
    }
    forall i, j | 0 <= i < j < |all| ensures Precedes(all[i], all[j]) {
      if i < |v| <= j {
        assert v[i] in v && w[j - |v|] in w;
      }
    }
    forall j | 0 < j < |all| ensures DirVisited(all, j) {
      if j < |v| {
        assert all[..j] == v[..j] && DirVisited(v, j);
      } else if j == |v| {
        assert all[..j] == v && v[0] in v;
      } else {
        assert all[..j] == v + w[..j - |v|] && DirVisited(w, j - |v|);
      }
    }
  }

  /** The walk from `n` on. It goes on exactly as long as the function does not
      fail, and then the function has been called for everything at and below `n`
      once, directories first, and the new tree has gained the mapped copy of all that. */
  method WalkInto<S, T>(n: Node<S>, p: string, b: Builder<S, T>, ghost root: Node<S>, ghost at: Layout<S>,
                        ghost here: Path,
                        ghost cat: Layout<T>, ghost covered: set<Path>, ghost mine: set<object>)
      returns (ok: bool, ghost cat': Layout<T>)
    requires IsTree(root, at) && here in at && at[here] == n && ValidLayout(at) && p == Text(here)
    requires IsTree(b.newRoot, cat) && Within(at, mine) && Outside(cat, mine)
    requires Built(Model(at), b.fn, b.zero, here, covered, Model(cat))
    modifies cat.Values, b`calls
    ensures CellsOf(at) == old(CellsOf(at)) && IsTree(root, at)
    ensures IsTree(b.newRoot, cat') && Outside(cat', mine)
    ensures fresh(cat'.Values - cat.Values)
    ensures ok <==> Mappable(old(Model(at)), b.fn, Below(old(Model(at)), here))
    ensures ok ==> Model(cat') == Mapped(old(Model(at)), b.fn, b.zero, covered + Below(old(Model(at)), here))
    ensures ok ==> Toured(old(b.calls), b.calls, here, Below(old(Model(at)), here))
    decreases Below(at, here), 3
  {
    hide *;
    ghost var m, calls := Model(at), b.calls;
    ModelOfCells(at);
    EntryAt(at, here);
    ok, cat' := b.Visit(n, p, root, at, here, cat, covered, mine);
    ModelOfCells(at);
    EntryAt(at, here);
    if !ok {
      HereFails(m, b.fn, here);
      return;
    }
    BeforeChildren(m, b.fn, b.zero, here, covered, old(Model(cat)), Model(cat'));
    ok, cat' := WalkChildren(n, p, b, root, at, here, cat', covered, mine, calls);
  }

  /** The rest of the walk from `n`, after the call for `n` itself: its children,
      in order. `before` are the calls before that one. */
  method WalkChildren<S, T>(n: Node<S>, p: string, b: Builder<S, T>, ghost root: Node<S>, ghost at: Layout<S>,
                            ghost here: Path,
                            ghost cat: Layout<T>, ghost covered: set<Path>, ghost mine: set<object>,
                            ghost before: seq<Path>)
      returns (ok: bool, ghost cat': Layout<T>)
    requires IsTree(root, at) && here in at && at[here] == n && ValidLayout(at) && p == Text(here)
    requires IsTree(b.newRoot, cat) && Within(at, mine) && Outside(cat, mine)
    requires SoFar(Model(at), b.fn, b.zero, here, covered, [], 0, Model(cat))
    requires b.calls == before + [here]
    modifies cat.Values, b`calls
    ensures CellsOf(at) == old(CellsOf(at)) && IsTree(root, at)
    ensures IsTree(b.newRoot, cat') && Outside(cat', mine)
    ensures fresh(cat'.Values - cat.Values)
    ensures ok <==> Mappable(old(Model(at)), b.fn, Below(old(Model(at)), here))
    ensures ok ==> Model(cat') == Mapped(old(Model(at)), b.fn, b.zero, covered + Below(old(Model(at)), here))
    ensures ok ==> Toured(before, b.calls, here, Below(old(Model(at)), here))
    decreases Below(at, here), 2
  {
    hide *;
    ghost var m, cells := Model(at), CellsOf(at);
    ModelOfCells(at);
    var entries := n.DirEntries();
    ghost var names := EntryNames(entries);
    SortedKeys(n.Kids().Keys);
    SameNode(at, here, cells);
    SoFarNames(m, b.fn, b.zero, here, covered, names, Model(cat));
    TourStarts(m, before, here, names);
    ok, cat' := WalkEntries(n, p, entries, b, root, at, here, cat, covered, mine, before);
    if ok {
      SameNode(at, here, cells);
      ModelOfCells(at);
      AllChildren(root, at, m, b.fn, b.zero, here, covered, names, Model(cat'));
    }
  }

  /** The loop over the entries. */
  method WalkEntries<S, T>(n: Node<S>, p: string, entries: seq<DirEntry>, b: Builder<S, T>, ghost root: Node<S>,
                           ghost at: Layout<S>, ghost here: Path, ghost cat: Layout<T>, ghost covered: set<Path>,
                           ghost mine: set<object>, ghost before: seq<Path>)
      returns (ok: bool, ghost cat': Layout<T>)
    requires IsTree(root, at) && here in at && at[here] == n && ValidLayout(at) && p == Text(here)
    requires IsTree(b.newRoot, cat) && Within(at, mine) && Outside(cat, mine)
    requires var names := EntryNames(entries);
             && (forall k :: k in names ==> k in n.Kids())
             && IsSorted(names)
             && SoFar(Model(at), b.fn, b.zero, here, covered, names, 0, Model(cat))
             && Toured(before, b.calls, here, {here} + BelowNamed(Model(at), here, names[..0]))
    modifies cat.Values, b`calls
    ensures CellsOf(at) == old(CellsOf(at)) && IsTree(root, at)
    ensures IsTree(b.newRoot, cat') && Outside(cat', mine)
    ensures fresh(cat'.Values - cat.Values)
    ensures var names := EntryNames(entries);
            ok ==>
              && SoFar(old(Model(at)), b.fn, b.zero, here, covered, names, |names|, Model(cat'))
              && Toured(before, b.calls, here, {here} + BelowNamed(old(Model(at)), here, names[..|names|]))
    ensures !ok ==> !Mappable(old(Model(at)), b.fn, Below(old(Model(at)), here))
    decreases Below(at, here), 1
  {
    hide *;
    ghost var m, cells, names := Model(at), CellsOf(at), EntryNames(entries);
    ModelOfCells(at);
    SameNode(at, here, cells);
    ok, cat' := true, cat;
    var i := 0;
    while i < |entries|
      invariant 0 <= i <= |entries| && ok
      invariant CellsOf(at) == cells && IsTree(root, at)
      invariant IsTree(b.newRoot, cat') && Outside(cat', mine)
      invariant fresh(cat'.Values - cat.Values)
      invariant SoFar(m, b.fn, b.zero, here, covered, names, i, Model(cat'))
      invariant Toured(before, b.calls, here, {here} + BelowNamed(m, here, names[..i]))
    {
      assert names[i] in names;
      SameNode(at, here, cells);
      ModelOfCells(at);
      ok, cat' := WalkChild(n, p, entries[i].name, b, root, at, here, cat', covered, mine, names, i, before);
      if !ok {
        return;
      }
      i := i + 1;
    }
  }

  /** One turn of that loop. */
  method WalkChild<S, T>(n: Node<S>, p: string, name: string, b: Builder<S, T>, ghost root: Node<S>,
                         ghost at: Layout<S>,
                         ghost here: Path, ghost cat: Layout<T>, ghost covered: set<Path>, ghost mine: set<object>,
                         ghost names: seq<string>, ghost i: nat, ghost before: seq<Path>)
      returns (ok: bool, ghost cat': Layout<T>)
    requires IsTree(root, at) && here in at && at[here] == n && ValidLayout(at) && p == Text(here)
    requires IsTree(b.newRoot, cat) && Within(at, mine) && Outside(cat, mine)
    requires i < |names| && names[i] == name && name in n.Kids()
    requires IsSorted(names)
    requires SoFar(Model(at), b.fn, b.zero, here, covered, names, i, Model(cat))
    requires Toured(before, b.calls, here, {here} + BelowNamed(Model(at), here, names[..i]))
    modifies cat.Values, b`calls
    ensures CellsOf(at) == old(CellsOf(at)) && IsTree(root, at)
    ensures IsTree(b.newRoot, cat') && Outside(cat', mine)
    ensures fresh(cat'.Values - cat.Values)
    ensures ok ==> SoFar(old(Model(at)), b.fn, b.zero, here, covered, names, i + 1, Model(cat'))
    ensures !ok ==> !Mappable(old(Model(at)), b.fn, Below(old(Model(at)), here))
    ensures ok ==> Toured(before, b.calls, here, {here} + BelowNamed(old(Model(at)), here, names[..i + 1]))
    decreases Below(at, here), 0
  {
    hide *;
    ghost var m, step, calls := Model(at), here + [name], b.calls;
    KidAt(root, at, here, name);
    LayoutNames(at, step);
    JoinText(here, name);
    SmallerThere(at, here, name);
    DeeperBuilt(m, b.fn, b.zero, here, covered, names, i, Model(cat));
    TourGoesOn(m, b.fn, b.zero, here, covered, names, i, Model(cat));
    ModelOfCells(at);
    ok, cat' := WalkInto(n.Kids()[name], Join(p, name), b, root, at, step, cat,
                         covered + {here} + BelowNamed(m, here, names[..i]), mine);
    ModelOfCells(at);
    AfterChild(m, b.fn, b.zero, here, covered, names, i, old(Model(cat)), Model(cat'));
    if ok {
      TourNext(before, calls, b.calls, m, here, names, i);
    }
  }

  lemma SameNode<T>(at: Layout<T>, here: Path, cells: Cells<T>)
    requires here in at && CellsOf(at) == cells
    ensures here in cells && at[here].Kids() == cells[here].Kids()
  {
    CellAt(at, here);
    KidsOf(at[here], cells[here]);
  }

  // ----- Map and Copy -----

  ghost function Footprint<T>(at: Layout<T>): (r: set<object>)
    ensures forall p :: p in at ==> at[p] in r
    ensures forall o :: o in r ==> exists p :: p in at && at[p] == o
  {
    set p | p in at :: at[p] as object
  }

  /** A new tree with the same paths and kinds and with mapped values, none of
      whose nodes is the old tree's; or nothing, when some value cannot be mapped.
      The function is called once for each node, for a directory before what it holds. */
  method MapTree<S, T>(root: Node<S>, fn: S -> Option<T>, zero: T, ghost at: Layout<S>)
      returns (r: Option<Node<T>>, ghost cat: Layout<T>, ghost b: Builder<S, T>)
    requires IsTree(root, at) && ValidLayout(at)
    ensures fresh(b) && (r.Some? ==> Tour(b.calls, [], at.Keys))
    ensures r.Some? <==> Mappable(Model(at), fn, at.Keys)
    ensures r.Some? ==> IsTree(r.value, cat) && Model(cat) == Mapped(Model(at), fn, zero, at.Keys)
    ensures forall q :: q in cat ==> fresh(cat[q])
  {
    hide *;
    ghost var m := Model(at);
    var builder := new Builder<S, T>(fn, zero);
    NodeAlone(builder.newRoot);
    cat := Only(builder.newRoot);
    Prepared(root, at, m, fn, zero, builder.newRoot, Model(cat));
    ModelOfCells(at);
    var ok;
    ok, cat := WalkInto(root, ".", builder, root, at, [], cat, {}, Footprint(at));
    ModelOfCells(at);
    Everything(m);
    AllToured(builder.calls, at.Keys);
    r := if ok then Some(builder.newRoot) else None;
    b := builder;
  }

  lemma Prepared<S, T>(root: Node<S>, at: Layout<S>, m: PathMap<S>, fn: S -> Option<T>, zero: T, newRoot: Node<T>,
                       c: PathMap<T>)
    requires IsTree(root, at) && newRoot !in Footprint(at)
    ensures forall q :: q in Only(newRoot) ==> Only(newRoot)[q] == newRoot
    ensures Built(m, fn, zero, [], {}, c) && Within(at, Footprint(at)) && Outside(Only(newRoot), Footprint(at))
    ensures [] in at && at[[]] == root && Text([]) == "."
  {
  }

  lemma Everything<S>(m: PathMap<S>)
    ensures Below(m, []) == m.Keys && {} + Below(m, []) == m.Keys
  {
    assert forall q :: q in m ==> q in Below(m, []);
  }

  /** A copy: equal in meaning, and made of new nodes only. */
  method Copy<T>(root: Node<T>, zero: T, ghost at: Layout<T>) returns (r: Node<T>, ghost cat: Layout<T>)
    requires IsTree(root, at) && ValidLayout(at)
    ensures IsTree(r, cat) && Model(cat) == Model(at) && forall q :: q in cat ==> fresh(cat[q])
  {
    hide *;
    var copied;
    AllKept(Model(at), zero);
    ModelOfCells(at);
    ghost var b;
    copied, cat, b := MapTree(root, Keep<T>, zero, at);
    r := copied.value;
  }

  function Keep<T>(v: T): Option<T>
  {
    Some(v)
  }

  lemma AllKept<T>(m: PathMap<T>, zero: T)
    ensures Mappable(m, Keep<T>, m.Keys) && Mapped(m, Keep<T>, zero, m.Keys) == m
  {
  }
}
